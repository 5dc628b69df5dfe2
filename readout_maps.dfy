/** `fillTPCtoTPCsetMap` and `fillPlaneToROPmap` of `ROPandTPCsetBuildingAlg`:
 *  the TPC-set table (TPCs of each TPC set) and the readout-plane table
 *  (wire planes of each readout plane) are inverted into maps from TPC to
 *  TPC set and from wire plane to readout plane.
 *
 *  The dense containers indexed by TPC and by wire plane become maps; a key
 *  that no cell holds keeps the default (invalid) ID, which here is the key
 *  being absent.  The inversion runs over the cells in order and a later
 *  cell overwrites an earlier one. */
module ReadoutMaps {
  import opened GeoTypes

  // ---------------------------------------------------------------------------
  // Inverting a list of cells

  /** `m` with every key of `keys` mapped to `v`. */
  function Put<K(!new), V>(m: map<K, V>, keys: seq<K>, v: V): (r: map<K, V>)
    ensures forall k :: k in r <==> k in m || k in keys
    ensures forall k :: k in keys ==> r[k] == v
    ensures forall k :: k in m && k !in keys ==> r[k] == m[k]
  {
    m + map k | k in keys :: v
  }

  /** One more key written into the map. */
  lemma {:induction false} PutStep<K(!new), V>(m: map<K, V>, keys: seq<K>, v: V, k: nat)
    requires k < |keys|
    ensures Put(m, keys[..k + 1], v) == Put(m, keys[..k], v)[keys[k] := v]
  {
    assert keys[..k + 1] == keys[..k] + [keys[k]];
  }

  /** Each cell `(keys, v)` of `cells`, in order, maps its keys to `v`,
   *  starting from `m`. */
  function InvertFrom<K(!new), V>(m: map<K, V>, cells: seq<(seq<K>, V)>): map<K, V>
  {
    if cells == [] then m
    else
      var last := cells[|cells| - 1];
      Put(InvertFrom(m, cells[..|cells| - 1]), last.0, last.1)
  }

  function Invert<K(!new), V>(cells: seq<(seq<K>, V)>): map<K, V>
  {
    InvertFrom(map[], cells)
  }

  /** Inverting two lists of cells is inverting the first, then the second
   *  on top. */
  lemma {:induction false} InvertConcat<K(!new), V>(m: map<K, V>, a: seq<(seq<K>, V)>, b: seq<(seq<K>, V)>)
    ensures InvertFrom(m, a + b) == InvertFrom(InvertFrom(m, a), b)
  {
    if b == [] {
      assert a + b == a;
    } else {
      assert (a + b)[..|a + b| - 1] == a + b[..|b| - 1];
      InvertConcat(m, a, b[..|b| - 1]);
    }
  }

  /** The inverted map holds exactly the keys of the cells, and maps each to
   *  the value of a cell that holds it. */
  lemma {:induction false} InvertMeans<K(!new), V>(cells: seq<(seq<K>, V)>, k: K)
    ensures k in Invert(cells) <==> exists cell :: cell in cells && k in cell.0
    ensures k in Invert(cells) ==> (exists cell :: cell in cells && k in cell.0 && cell.1 == Invert(cells)[k])
  {
    if cells != [] {
      var init, last := cells[..|cells| - 1], cells[|cells| - 1];
      InvertMeans(init, k);
      assert cells == init + [last];
      if k in Invert(cells) && k !in last.0 {
        var cell :| cell in init && k in cell.0 && cell.1 == Invert(init)[k];
        assert cell in cells;
      }
    }
  }

  // ---------------------------------------------------------------------------
  // TPC sets

  /** The cells of the TPC sets of cryostat `c`, in order. */
  function TPCsetCells(c: nat, row: seq<seq<TPCID>>): (cells: seq<(seq<TPCID>, TPCsetID)>)
    ensures |cells| == |row|
    ensures forall s :: 0 <= s < |row| ==> cells[s] == (row[s], TPCsetID(c, s))
  {
    if row == [] then []
    else TPCsetCells(c, row[..|row| - 1]) + [(row[|row| - 1], TPCsetID(c, |row| - 1))]
  }

  /** The cells of all the TPC sets, cryostat by cryostat. */
  function TPCtableCells(table: seq<seq<seq<TPCID>>>): seq<(seq<TPCID>, TPCsetID)>
  {
    if table == [] then []
    else TPCtableCells(table[..|table| - 1]) + TPCsetCells(|table| - 1, table[|table| - 1])
  }

  /** The cells are the TPC sets of the table, each with its ID. */
  lemma {:induction false} TPCtableCellsAre(table: seq<seq<seq<TPCID>>>)
    ensures forall cell :: cell in TPCtableCells(table) <==>
              exists c, s :: 0 <= c < |table| && 0 <= s < |table[c]| && cell == (table[c][s], TPCsetID(c, s))
  {
    if table != [] {
      var n := |table| - 1;
      var init := table[..n];
      TPCtableCellsAre(init);
      var cells := TPCsetCells(n, table[n]);
      forall cell | cell in TPCtableCells(table)
        ensures exists c, s :: 0 <= c < |table| && 0 <= s < |table[c]| && cell == (table[c][s], TPCsetID(c, s))
      {
        if cell in cells {
          var s :| 0 <= s < |cells| && cells[s] == cell;
          assert cell == (table[n][s], TPCsetID(n, s));
        } else {
          assert cell in TPCtableCells(init);
          var c, s :| 0 <= c < |init| && 0 <= s < |init[c]| && cell == (init[c][s], TPCsetID(c, s));
          assert init[c] == table[c];
        }
      }
      forall c, s | 0 <= c < |table| && 0 <= s < |table[c]|
        ensures (table[c][s], TPCsetID(c, s)) in TPCtableCells(table)
      {
        if c == n {
          assert cells[s] == (table[c][s], TPCsetID(c, s));
        } else {
          assert init[c] == table[c];
        }
      }
    }
  }

  /** The TPC-to-TPC-set map built from a TPC-set table. */
  function TPCtoTPCset(table: seq<seq<seq<TPCID>>>): map<TPCID, TPCsetID>
  {
    Invert(TPCtableCells(table))
  }

  /** Every TPC of the table, and only those, has a TPC set, and it is a
   *  TPC set that holds it. */
  lemma {:induction false} TPCtoTPCsetMeans(table: seq<seq<seq<TPCID>>>, tpc: TPCID)
    ensures tpc in TPCtoTPCset(table) <==> exists c, s :: 0 <= c < |table| && 0 <= s < |table[c]| && tpc in table[c][s]
    ensures tpc in TPCtoTPCset(table) ==>
              var id := TPCtoTPCset(table)[tpc];
              id.cryostat < |table| && id.tpcset < |table[id.cryostat]| && tpc in table[id.cryostat][id.tpcset]
  {
    var cells := TPCtableCells(table);
    TPCtableCellsAre(table);
    InvertMeans(cells, tpc);
    if exists c, s :: 0 <= c < |table| && 0 <= s < |table[c]| && tpc in table[c][s] {
      var c, s :| 0 <= c < |table| && 0 <= s < |table[c]| && tpc in table[c][s];
      assert (table[c][s], TPCsetID(c, s)) in cells;
    }
  }

  /** No two TPC sets of the table share a TPC. */
  predicate DisjointTPCsets(table: seq<seq<seq<TPCID>>>)
  {
    forall c1, s1, c2, s2, t ::
      (&& 0 <= c1 < |table| && 0 <= s1 < |table[c1]| && 0 <= c2 < |table| && 0 <= s2 < |table[c2]|
       && t in table[c1][s1] && t in table[c2][s2])
      ==> c1 == c2 && s1 == s2
  }

  /** With TPC sets that share no TPC, each TPC maps back to the TPC set
   *  that holds it. */
  lemma {:induction false} TPCtoTPCsetInverts(table: seq<seq<seq<TPCID>>>, c: nat, s: nat, tpc: TPCID)
    requires DisjointTPCsets(table)
    requires c < |table| && s < |table[c]| && tpc in table[c][s]
    ensures tpc in TPCtoTPCset(table) && TPCtoTPCset(table)[tpc] == TPCsetID(c, s)
  {
    TPCtoTPCsetMeans(table, tpc);
  }

  /** `fillTPCtoTPCsetMap`: every TPC of every TPC set is mapped to the ID
   *  of its TPC set, cryostat by cryostat and TPC set by TPC set. */
  method FillTPCtoTPCsetMap(table: seq<seq<seq<TPCID>>>) returns (tpcToTPCset: map<TPCID, TPCsetID>)
    ensures tpcToTPCset == TPCtoTPCset(table)
  {
    tpcToTPCset := map[];
    for c := 0 to |table|
      invariant tpcToTPCset == Invert(TPCtableCells(table[..c]))
    {
      ghost var before := tpcToTPCset;
      for s := 0 to |table[c]|
        invariant tpcToTPCset == InvertFrom(before, TPCsetCells(c, table[c][..s]))
      {
        ghost var start := tpcToTPCset;
        var sid := TPCsetID(c, s);
        var tpcs := table[c][s];
        for k := 0 to |tpcs|
          invariant tpcToTPCset == Put(start, tpcs[..k], sid)
        {
          PutStep(start, tpcs, sid, k);
          tpcToTPCset := tpcToTPCset[tpcs[k] := sid];
        }
        TPCsetCellsStep(c, table[c], s);
        assert tpcs[..|tpcs|] == tpcs;
      }
      assert table[c][..|table[c]|] == table[c];
      assert table[..c + 1][..c] == table[..c];
      InvertConcat(map[], TPCtableCells(table[..c]), TPCsetCells(c, table[c]));
    }
    assert table[..|table|] == table;
  }

  lemma {:induction false} TPCsetCellsStep(c: nat, row: seq<seq<TPCID>>, s: nat)
    requires s < |row|
    ensures TPCsetCells(c, row[..s + 1]) == TPCsetCells(c, row[..s]) + [(row[s], TPCsetID(c, s))]
  {
    assert row[..s + 1][..s] == row[..s];
  }

  // ---------------------------------------------------------------------------
  // Readout planes

  /** The IDs of the wire planes of a readout plane. */
  function IdsOf(planes: seq<Plane>): (ids: seq<PlaneID>)
    ensures |ids| == |planes| && forall i :: 0 <= i < |planes| ==> ids[i] == planes[i].id
  {
    seq(|planes|, i requires 0 <= i < |planes| => planes[i].id)
  }

  /** The cells of the readout planes of TPC set `s` of cryostat `c`. */
  function ROPsetCells(c: nat, s: nat, rops: seq<seq<Plane>>): (cells: seq<(seq<PlaneID>, ROPID)>)
    ensures |cells| == |rops|
    ensures forall r :: 0 <= r < |rops| ==> cells[r] == (IdsOf(rops[r]), ROPID(c, s, r))
  {
    if rops == [] then []
    else ROPsetCells(c, s, rops[..|rops| - 1]) + [(IdsOf(rops[|rops| - 1]), ROPID(c, s, |rops| - 1))]
  }

  /** The cells of the readout planes of cryostat `c`, TPC set by TPC set. */
  function ROPcryostatCells(c: nat, row: seq<seq<seq<Plane>>>): seq<(seq<PlaneID>, ROPID)>
  {
    if row == [] then []
    else ROPcryostatCells(c, row[..|row| - 1]) + ROPsetCells(c, |row| - 1, row[|row| - 1])
  }

  /** The cells of all the readout planes, cryostat by cryostat. */
  function ROPtableCells(table: seq<seq<seq<seq<Plane>>>>): seq<(seq<PlaneID>, ROPID)>
  {
    if table == [] then []
    else ROPtableCells(table[..|table| - 1]) + ROPcryostatCells(|table| - 1, table[|table| - 1])
  }

  /** A readout plane's cell, as a predicate on its position. */
  ghost predicate ROPcellAt(table: seq<seq<seq<seq<Plane>>>>, c: int, s: int, r: int, cell: (seq<PlaneID>, ROPID))
  {
    0 <= c < |table| && 0 <= s < |table[c]| && 0 <= r < |table[c][s]| && cell == (IdsOf(table[c][s][r]), ROPID(c, s, r))
  }

  lemma {:induction false} ROPcryostatCellsAre(c: nat, row: seq<seq<seq<Plane>>>)
    ensures forall cell :: cell in ROPcryostatCells(c, row) <==>
              exists s, r :: 0 <= s < |row| && 0 <= r < |row[s]| && cell == (IdsOf(row[s][r]), ROPID(c, s, r))
  {
    if row != [] {
      var n := |row| - 1;
      var init := row[..n];
      ROPcryostatCellsAre(c, init);
      var cells := ROPsetCells(c, n, row[n]);
      forall cell | cell in ROPcryostatCells(c, row)
        ensures exists s, r :: 0 <= s < |row| && 0 <= r < |row[s]| && cell == (IdsOf(row[s][r]), ROPID(c, s, r))
      {
        if cell in cells {
          var r :| 0 <= r < |cells| && cells[r] == cell;
          assert cell == (IdsOf(row[n][r]), ROPID(c, n, r));
        } else {
          assert cell in ROPcryostatCells(c, init);
          var s, r :| 0 <= s < |init| && 0 <= r < |init[s]| && cell == (IdsOf(init[s][r]), ROPID(c, s, r));
          assert init[s] == row[s];
        }
      }
      forall s, r | 0 <= s < |row| && 0 <= r < |row[s]|
        ensures (IdsOf(row[s][r]), ROPID(c, s, r)) in ROPcryostatCells(c, row)
      {
        if s == n {
          assert cells[r] == (IdsOf(row[s][r]), ROPID(c, s, r));
        } else {
          assert init[s] == row[s];
        }
      }
    }
  }

  /** The cells are the readout planes of the table, each with its ID. */
  lemma {:induction false} ROPtableCellsAre(table: seq<seq<seq<seq<Plane>>>>)
    ensures forall cell :: cell in ROPtableCells(table) <==> exists c, s, r :: ROPcellAt(table, c, s, r, cell)
  {
    if table != [] {
      var n := |table| - 1;
      var init := table[..n];
      ROPtableCellsAre(init);
      ROPcryostatCellsAre(n, table[n]);
      forall cell | cell in ROPtableCells(table)
        ensures exists c, s, r :: ROPcellAt(table, c, s, r, cell)
      {
        if cell in ROPcryostatCells(n, table[n]) {
          var s, r :| 0 <= s < |table[n]| && 0 <= r < |table[n][s]| && cell == (IdsOf(table[n][s][r]), ROPID(n, s, r));
          assert ROPcellAt(table, n, s, r, cell);
        } else {
          assert cell in ROPtableCells(init);
          var c, s, r :| ROPcellAt(init, c, s, r, cell);
          assert init[c] == table[c];
          assert ROPcellAt(table, c, s, r, cell);
        }
      }
      forall cell, c, s, r | ROPcellAt(table, c, s, r, cell)
        ensures cell in ROPtableCells(table)
      {
        if c < n {
          assert init[c] == table[c];
          assert ROPcellAt(init, c, s, r, cell);
        }
      }
    }
  }

  /** The plane-to-readout-plane map built from a readout-plane table. */
  function PlaneToROP(table: seq<seq<seq<seq<Plane>>>>): map<PlaneID, ROPID>
  {
    Invert(ROPtableCells(table))
  }

  /** A wire plane is in the table somewhere. */
  ghost predicate PlaneInTable(table: seq<seq<seq<seq<Plane>>>>, pid: PlaneID)
  {
    exists c, s, r, i :: 0 <= c < |table| && 0 <= s < |table[c]| && 0 <= r < |table[c][s]|
                         && 0 <= i < |table[c][s][r]| && table[c][s][r][i].id == pid
  }

  /** Every wire plane of the table, and only those, has a readout plane. */
  lemma {:induction false} PlaneToROPKeys(table: seq<seq<seq<seq<Plane>>>>, pid: PlaneID)
    ensures pid in PlaneToROP(table) <==> PlaneInTable(table, pid)
  {
    var cells := ROPtableCells(table);
    ROPtableCellsAre(table);
    InvertMeans(cells, pid);
    if pid in PlaneToROP(table) {
      var cell :| cell in cells && pid in cell.0;
      var c, s, r :| ROPcellAt(table, c, s, r, cell);
      var i :| 0 <= i < |cell.0| && cell.0[i] == pid;
      assert table[c][s][r][i].id == pid;
    }
    if PlaneInTable(table, pid) {
      var c, s, r, i :| 0 <= c < |table| && 0 <= s < |table[c]| && 0 <= r < |table[c][s]|
                        && 0 <= i < |table[c][s][r]| && table[c][s][r][i].id == pid;
      var cell := (IdsOf(table[c][s][r]), ROPID(c, s, r));
      assert ROPcellAt(table, c, s, r, cell);
      assert cell.0[i] == pid;
    }
  }

  /** A wire plane maps to a readout plane that holds it. */
  lemma {:induction false} PlaneToROPSound(table: seq<seq<seq<seq<Plane>>>>, pid: PlaneID)
    requires pid in PlaneToROP(table)
    ensures var id := PlaneToROP(table)[pid];
            && id.cryostat < |table| && id.tpcset < |table[id.cryostat]| && id.rop < |table[id.cryostat][id.tpcset]|
            && exists i :: 0 <= i < |table[id.cryostat][id.tpcset][id.rop]| && table[id.cryostat][id.tpcset][id.rop][i].id == pid
  {
    var cells := ROPtableCells(table);
    ROPtableCellsAre(table);
    InvertMeans(cells, pid);
    var cell :| cell in cells && pid in cell.0 && cell.1 == PlaneToROP(table)[pid];
    var c, s, r :| ROPcellAt(table, c, s, r, cell);
    var i :| 0 <= i < |cell.0| && cell.0[i] == pid;
    assert table[c][s][r][i].id == pid;
  }

  /** No wire plane ID appears in two readout planes of the table. */
  predicate DisjointROPs(table: seq<seq<seq<seq<Plane>>>>)
  {
    forall c1, s1, r1, i, c2, s2, r2, j ::
      (&& 0 <= c1 < |table| && 0 <= s1 < |table[c1]| && 0 <= r1 < |table[c1][s1]| && 0 <= i < |table[c1][s1][r1]|
       && 0 <= c2 < |table| && 0 <= s2 < |table[c2]| && 0 <= r2 < |table[c2][s2]| && 0 <= j < |table[c2][s2][r2]|
       && table[c1][s1][r1][i].id == table[c2][s2][r2][j].id)
      ==> c1 == c2 && s1 == s2 && r1 == r2
  }

  /** With readout planes that share no wire plane, each wire plane maps
   *  back to the readout plane that holds it. */
  lemma {:induction false} PlaneToROPInverts(table: seq<seq<seq<seq<Plane>>>>, c: nat, s: nat, r: nat, i: nat)
    requires DisjointROPs(table)
    requires c < |table| && s < |table[c]| && r < |table[c][s]| && i < |table[c][s][r]|
    ensures table[c][s][r][i].id in PlaneToROP(table)
    ensures PlaneToROP(table)[table[c][s][r][i].id] == ROPID(c, s, r)
  {
    var pid := table[c][s][r][i].id;
    PlaneToROPKeys(table, pid);
    PlaneToROPSound(table, pid);
  }

  lemma {:induction false} ROPsetCellsStep(c: nat, s: nat, rops: seq<seq<Plane>>, r: nat)
    requires r < |rops|
    ensures ROPsetCells(c, s, rops[..r + 1]) == ROPsetCells(c, s, rops[..r]) + [(IdsOf(rops[r]), ROPID(c, s, r))]
  {
    assert rops[..r + 1][..r] == rops[..r];
  }

  /** The loop of `fillPlaneToROPmap` over the wire planes of one readout
   *  plane. */
  method MapPlanes(m: map<PlaneID, ROPID>, planes: seq<Plane>, rid: ROPID) returns (m': map<PlaneID, ROPID>)
    ensures m' == Put(m, IdsOf(planes), rid)
  {
    m' := m;
    for k := 0 to |planes|
      invariant m' == Put(m, IdsOf(planes[..k]), rid)
    {
      assert IdsOf(planes[..k + 1]) == IdsOf(planes)[..k + 1] && IdsOf(planes[..k]) == IdsOf(planes)[..k];
      PutStep(m, IdsOf(planes), rid, k);
      m' := m'[planes[k].id := rid];
    }
    assert planes[..|planes|] == planes;
  }

  /** The loops of `fillPlaneToROPmap` over the TPC sets of cryostat `c`
   *  and their readout planes. */
  method MapCryostat(m: map<PlaneID, ROPID>, c: nat, row: seq<seq<seq<Plane>>>) returns (m': map<PlaneID, ROPID>)
    ensures m' == InvertFrom(m, ROPcryostatCells(c, row))
  {
    m' := m;
    for s := 0 to |row|
      invariant m' == InvertFrom(m, ROPcryostatCells(c, row[..s]))
    {
      ghost var before := m';
      var rops := row[s];
      for r := 0 to |rops|
        invariant m' == InvertFrom(before, ROPsetCells(c, s, rops[..r]))
      {
        m' := MapPlanes(m', rops[r], ROPID(c, s, r));
        ROPsetCellsStep(c, s, rops, r);
      }
      assert rops[..|rops|] == rops;
      assert row[..s + 1][..s] == row[..s];
      InvertConcat(m, ROPcryostatCells(c, row[..s]), ROPsetCells(c, s, rops));
    }
    assert row[..|row|] == row;
  }

  /** `fillPlaneToROPmap`: every wire plane of every readout plane is mapped
   *  to the ID of its readout plane, cryostat by cryostat, TPC set by TPC
   *  set and readout plane by readout plane. */
  method FillPlaneToROPmap(table: seq<seq<seq<seq<Plane>>>>) returns (planeToROP: map<PlaneID, ROPID>)
    ensures planeToROP == PlaneToROP(table)
  {
    planeToROP := map[];
    for c := 0 to |table|
      invariant planeToROP == Invert(ROPtableCells(table[..c]))
    {
      planeToROP := MapCryostat(planeToROP, c, table[c]);
      assert table[..c + 1][..c] == table[..c];
      InvertConcat(map[], ROPtableCells(table[..c]), ROPcryostatCells(c, table[c]));
    }
    assert table[..|table|] == table;
  }
}
