/** `ROPandTPCsetBuildingAlg`: from the wire planes of each cryostat, builds
 *  the TPC sets (TPCs that share readout planes) and the readout planes
 *  (wire planes read by the same channels), numbers them, and inverts the
 *  results into TPC-to-TPC-set and plane-to-readout-plane maps.
 *
 *  Dense containers indexed by TPC set (`readout::TPCsetDataContainer`) and
 *  by readout plane are nested sequences with the same dimensions; the
 *  containers indexed by TPC and by wire plane, whose dimensions come from
 *  the geometry, are maps where an absent key stands for the default
 *  (invalid) value. */
module ROPandTPCsetBuilding {
  import opened Wrappers
  import opened GeoTypes
  import opened StableMerger
  import opened PlaneGrouping
  import opened ROPnumberDispatching
  import opened Sorting

  const UnassignedROPs := "errors while assigning TPC sets to ROPs"

  // ---------------------------------------------------------------------------
  // Sizes

  /** The size of the largest of `colls`; 0 when there is none. */
  function MaxSize<T>(colls: seq<seq<T>>): (m: nat)
    ensures forall i :: 0 <= i < |colls| ==> |colls[i]| <= m
    ensures m == 0 || exists i :: 0 <= i < |colls| && |colls[i]| == m
  {
    if colls == [] then 0
    else
      var m0 := MaxSize(colls[..|colls| - 1]);
      var last := |colls[|colls| - 1]|;
      if last > m0 then last else m0
  }

  /** The size of the largest cell of a table; 0 when all are empty. */
  function MaxCell<T>(table: seq<seq<seq<T>>>): (m: nat)
    ensures forall c, s :: 0 <= c < |table| && 0 <= s < |table[c]| ==> |table[c][s]| <= m
    ensures m == 0 || exists c, s :: 0 <= c < |table| && 0 <= s < |table[c]| && |table[c][s]| == m
  {
    if table == [] then 0
    else
      var m0 := MaxCell(table[..|table| - 1]);
      var last := MaxSize(table[|table| - 1]);
      if last > m0 then last else m0
  }

  /** Growing one collection by one keeps `MaxSize` a running maximum. */
  lemma {:induction false} MaxSizeGrows<T>(colls: seq<seq<T>>, s: nat, x: T)
    requires s < |colls|
    ensures var m := MaxSize(colls);
            var n := |colls[s]| + 1;
            MaxSize(colls[s := colls[s] + [x]]) == if n > m then n else m
  {
    var grown := colls[s := colls[s] + [x]];
    var m, m' := MaxSize(colls), MaxSize(grown);
    var n := |colls[s]| + 1;
    assert |grown[s]| == n;
    if m > 0 {
      var w :| 0 <= w < |colls| && |colls[w]| == m;
      assert |grown[w]| >= m;
    }
    if m' > 0 {
      var w :| 0 <= w < |grown| && |grown[w]| == m';
      if w != s {
        assert |colls[w]| == m';
      }
    }
  }

  /** One more collection keeps `MaxSize` a running maximum. */
  lemma {:induction false} MaxSizeAppend<T>(colls: seq<seq<T>>, x: seq<T>)
    ensures MaxSize(colls + [x]) == if |x| > MaxSize(colls) then |x| else MaxSize(colls)
  {
    assert (colls + [x])[..|colls|] == colls;
  }

  // ---------------------------------------------------------------------------
  // `extractTPCsetsFromROPs`

  /** The TPCs of each candidate readout plane. */
  function TPCsOfROPs(rops: seq<seq<Plane>>): seq<seq<TPCID>>
  {
    seq(|rops|, i requires 0 <= i < |rops| => ExtractTPCIDs(rops[i]))
  }

  /** The TPC sets of a cryostat: the TPC lists of its candidate readout
   *  planes, merged while any two overlap. */
  function TPCsetsOf(rops: seq<seq<Plane>>): seq<seq<TPCID>>
  {
    Merged(TPCsOfROPs(rops))
  }

  /** The TPC sets of a cryostat do not share TPCs, and hold exactly the
   *  TPCs of its readout planes. */
  lemma {:induction false} TPCsetsPartitionTPCs(rops: seq<seq<Plane>>, tpc: TPCID)
    ensures PairwiseDisjoint(TPCsetsOf(rops))
    ensures |TPCsetsOf(rops)| <= |rops|
    ensures Holds(TPCsetsOf(rops), tpc) <==> exists i, j :: 0 <= i < |rops| && 0 <= j < |rops[i]| && rops[i][j].id.AsTPCID() == tpc
  {
    var lists := TPCsOfROPs(rops);
    MergedIsPartition(lists);
    if Holds(lists, tpc) {
      var i :| 0 <= i < |lists| && tpc in lists[i];
      var j :| 0 <= j < |lists[i]| && lists[i][j] == tpc;
      assert rops[i][j].id.AsTPCID() == tpc;
    }
    if exists i, j :: 0 <= i < |rops| && 0 <= j < |rops[i]| && rops[i][j].id.AsTPCID() == tpc {
      var i, j :| 0 <= i < |rops| && 0 <= j < |rops[i]| && rops[i][j].id.AsTPCID() == tpc;
      assert lists[i][j] == tpc;
    }
  }

  /** `extractTPCsetsFromROPs`: the TPC sets of each cryostat, and the
   *  largest number of TPC sets in a cryostat. */
  method ExtractTPCsetsFromROPs(groupedPlanes: seq<seq<seq<Plane>>>)
    returns (allTPCs: seq<seq<seq<TPCID>>>, maxTPCsets: nat)
    ensures |allTPCs| == |groupedPlanes|
    ensures forall c :: 0 <= c < |groupedPlanes| ==> allTPCs[c] == TPCsetsOf(groupedPlanes[c])
    ensures maxTPCsets == MaxSize(allTPCs)
  {
    allTPCs := [];
    maxTPCsets := 0;
    for c := 0 to |groupedPlanes|
      invariant |allTPCs| == c
      invariant forall k :: 0 <= k < c ==> allTPCs[k] == TPCsetsOf(groupedPlanes[k])
      invariant maxTPCsets == MaxSize(allTPCs)
    {
      var tpcsOnROPs := TPCsOfROPs(groupedPlanes[c]);
      tpcsOnROPs := Merge(tpcsOnROPs);
      MaxSizeAppend(allTPCs, tpcsOnROPs);
      maxTPCsets := if |tpcsOnROPs| > maxTPCsets then |tpcsOnROPs| else maxTPCsets;
      allTPCs := allTPCs + [tpcsOnROPs];
    }
  }

  // ---------------------------------------------------------------------------
  // `fillTPCsInSet`

  /** The dense table of TPC sets: `width` cells per cryostat, the cells past
   *  the cryostat's own TPC sets left empty. */
  function TPCsetTable(allTPCs: seq<seq<seq<TPCID>>>, width: nat): (table: seq<seq<seq<TPCID>>>)
  {
    seq(|allTPCs|, c requires 0 <= c < |allTPCs| =>
      seq(width, s requires 0 <= s < width => if s < |allTPCs[c]| then allTPCs[c][s] else []))
  }

  /** `fillTPCsInSet`: the number of TPC sets of each cryostat, and the TPCs
   *  of each TPC set in a table `maxTPCsets` wide. */
  method FillTPCsInSet(allTPCs: seq<seq<seq<TPCID>>>, maxTPCsets: nat)
    returns (tpcsetCount: seq<nat>, tpcsetTPCs: seq<seq<seq<TPCID>>>)
    requires forall c :: 0 <= c < |allTPCs| ==> |allTPCs[c]| <= maxTPCsets
    ensures |tpcsetCount| == |allTPCs|
    ensures forall c :: 0 <= c < |allTPCs| ==> tpcsetCount[c] == |allTPCs[c]|
    ensures tpcsetTPCs == TPCsetTable(allTPCs, maxTPCsets)
  {
    var emptyRow: seq<seq<TPCID>> := seq(maxTPCsets, s => []);
    tpcsetCount := seq(|allTPCs|, c => 0);
    tpcsetTPCs := seq(|allTPCs|, c => emptyRow);
    for c := 0 to |allTPCs|
      invariant |tpcsetCount| == |allTPCs| && |tpcsetTPCs| == |allTPCs|
      invariant forall k :: 0 <= k < c ==> tpcsetCount[k] == |allTPCs[k]|
      invariant forall k :: 0 <= k < c ==> tpcsetTPCs[k] == TPCsetTable(allTPCs, maxTPCsets)[k]
      invariant forall k :: c <= k < |allTPCs| ==> tpcsetTPCs[k] == emptyRow
    {
      tpcsetCount := tpcsetCount[c := |allTPCs[c]|];
      var tpcsets := allTPCs[c];
      for s := 0 to |tpcsets|
        invariant |tpcsetTPCs| == |allTPCs| && |tpcsetTPCs[c]| == maxTPCsets
        invariant forall k :: 0 <= k < c ==> tpcsetTPCs[k] == TPCsetTable(allTPCs, maxTPCsets)[k]
        invariant forall k :: c < k < |allTPCs| ==> tpcsetTPCs[k] == emptyRow
        invariant forall j :: 0 <= j < maxTPCsets ==> tpcsetTPCs[c][j] == if j < s then tpcsets[j] else []
      {
        tpcsetTPCs := tpcsetTPCs[c := tpcsetTPCs[c][s := tpcsets[s]]];
      }
      assert tpcsetTPCs[c] == TPCsetTable(allTPCs, maxTPCsets)[c];
    }
  }

  // ---------------------------------------------------------------------------
  // `groupPlanesIntoROPs`

  /** The index of the first of `tpcsets` holding every TPC of the readout
   *  plane, `|tpcsets|` when none does. */
  function FirstMatch(ropTPCs: seq<TPCID>, tpcsets: seq<seq<TPCID>>): (s: nat)
    ensures s <= |tpcsets|
    ensures forall j :: 0 <= j < s ==> !InTPCset(ropTPCs, tpcsets[j])
    ensures s < |tpcsets| ==> InTPCset(ropTPCs, tpcsets[s])
  {
    if tpcsets == [] then 0
    else if InTPCset(ropTPCs, tpcsets[0]) then 0
    else 1 + FirstMatch(ropTPCs, tpcsets[1..])
  }

  /** The TPC set a readout plane is assigned to. */
  function MatchOf(rop: seq<Plane>, tpcsets: seq<seq<TPCID>>): nat
  {
    FirstMatch(ExtractTPCIDs(rop), tpcsets)
  }

  /** The readout planes of `rops` assigned to TPC set `s`, in order. */
  function ROPsOfSet(rops: seq<seq<Plane>>, tpcsets: seq<seq<TPCID>>, s: nat): seq<seq<Plane>>
  {
    if rops == [] then []
    else
      var last := rops[|rops| - 1];
      ROPsOfSet(rops[..|rops| - 1], tpcsets, s) + (if s < |tpcsets| && MatchOf(last, tpcsets) == s then [last] else [])
  }

  /** The number of readout planes of `rops` that match no TPC set. */
  function Unmatched(rops: seq<seq<Plane>>, tpcsets: seq<seq<TPCID>>): nat
  {
    if rops == [] then 0
    else Unmatched(rops[..|rops| - 1], tpcsets) + (if MatchOf(rops[|rops| - 1], tpcsets) == |tpcsets| then 1 else 0)
  }

  /** A TPC set receives exactly the readout planes whose first matching set
   *  it is, each holding only TPCs of the set. */
  lemma {:induction false} ROPsOfSetMeans(rops: seq<seq<Plane>>, tpcsets: seq<seq<TPCID>>, s: nat)
    ensures forall rop :: rop in ROPsOfSet(rops, tpcsets, s) <==> rop in rops && s < |tpcsets| && MatchOf(rop, tpcsets) == s
    ensures forall rop :: rop in ROPsOfSet(rops, tpcsets, s) ==> InTPCset(ExtractTPCIDs(rop), tpcsets[s])
  {
    if rops != [] {
      var init, last := rops[..|rops| - 1], rops[|rops| - 1];
      ROPsOfSetMeans(init, tpcsets, s);
      assert rops == init + [last];
    }
  }

  /** A TPC set lists its readout planes in their order. */
  lemma {:induction false} ROPsOfSetInOrder(rops: seq<seq<Plane>>, tpcsets: seq<seq<TPCID>>, s: nat)
    ensures SubsequenceOf(ROPsOfSet(rops, tpcsets, s), rops)
  {
    if rops != [] {
      var init, last := rops[..|rops| - 1], rops[|rops| - 1];
      var g := ROPsOfSet(init, tpcsets, s);
      ROPsOfSetInOrder(init, tpcsets, s);
      assert rops == init + [last];
      SubsequenceExtends(g, init, last);
      if s < |tpcsets| && MatchOf(last, tpcsets) == s {
        assert ROPsOfSet(rops, tpcsets, s) == g + [last];
      } else {
        assert ROPsOfSet(rops, tpcsets, s) == g;
      }
    }
  }

  /** No readout plane is left unmatched exactly when each matches a set. */
  lemma {:induction false} UnmatchedMeans(rops: seq<seq<Plane>>, tpcsets: seq<seq<TPCID>>)
    ensures Unmatched(rops, tpcsets) == 0 <==> forall i :: 0 <= i < |rops| ==> MatchOf(rops[i], tpcsets) < |tpcsets|
  {
    if rops != [] {
      var init := rops[..|rops| - 1];
      UnmatchedMeans(init, tpcsets);
      assert forall i :: 0 <= i < |init| ==> init[i] == rops[i];
    }
  }

  /** The TPC sets built from a cryostat's readout planes leave none of them
   *  unmatched: merging puts all the TPCs of a readout plane in one set. */
  lemma {:induction false} EveryROPMatches(rops: seq<seq<Plane>>)
    ensures Unmatched(rops, TPCsetsOf(rops)) == 0
  {
    var lists := TPCsOfROPs(rops);
    var tpcsets := TPCsetsOf(rops);
    MergedCoversInputs(lists);
    forall i | 0 <= i < |rops|
      ensures MatchOf(rops[i], tpcsets) < |tpcsets|
    {
      assert Covers(tpcsets, lists[i]);
      var k :| 0 <= k < |tpcsets| && forall x :: x in lists[i] ==> x in tpcsets[k];
      assert InTPCset(ExtractTPCIDs(rops[i]), tpcsets[k]);
    }
    UnmatchedMeans(rops, tpcsets);
  }

  /** The readout planes of one cryostat assigned to its TPC sets, `width`
   *  cells. */
  function CryostatCells(rops: seq<seq<Plane>>, tpcsets: seq<seq<TPCID>>, width: nat): seq<seq<seq<Plane>>>
  {
    seq(width, s requires 0 <= s < width => ROPsOfSet(rops, tpcsets, s))
  }

  /** The readout planes of every cryostat assigned to its TPC sets. */
  function ProtoROPs(allTPCs: seq<seq<seq<TPCID>>>, allPlanesInROPs: seq<seq<seq<Plane>>>, width: nat): seq<seq<seq<seq<Plane>>>>
    requires |allTPCs| == |allPlanesInROPs|
  {
    seq(|allPlanesInROPs|, c requires 0 <= c < |allPlanesInROPs| => CryostatCells(allPlanesInROPs[c], allTPCs[c], width))
  }

  lemma {:induction false} ROPsOfSetStep(rops: seq<seq<Plane>>, tpcsets: seq<seq<TPCID>>, s: nat, i: nat)
    requires i < |rops|
    ensures ROPsOfSet(rops[..i + 1], tpcsets, s)
            == ROPsOfSet(rops[..i], tpcsets, s) + (if s < |tpcsets| && MatchOf(rops[i], tpcsets) == s then [rops[i]] else [])
  {
    assert rops[..i + 1][..i] == rops[..i];
  }

  lemma {:induction false} UnmatchedStep(rops: seq<seq<Plane>>, tpcsets: seq<seq<TPCID>>, i: nat)
    requires i < |rops|
    ensures Unmatched(rops[..i + 1], tpcsets) == Unmatched(rops[..i], tpcsets) + (if MatchOf(rops[i], tpcsets) == |tpcsets| then 1 else 0)
  {
    assert rops[..i + 1][..i] == rops[..i];
  }

  lemma {:induction false} CellsStep(rops: seq<seq<Plane>>, tpcsets: seq<seq<TPCID>>, width: nat, i: nat)
    requires i < |rops| && |tpcsets| <= width
    ensures var s := MatchOf(rops[i], tpcsets);
            var before := CryostatCells(rops[..i], tpcsets, width);
            CryostatCells(rops[..i + 1], tpcsets, width)
            == if s < |tpcsets| then before[s := before[s] + [rops[i]]] else before
  {
    var s := MatchOf(rops[i], tpcsets);
    var before := CryostatCells(rops[..i], tpcsets, width);
    var after := CryostatCells(rops[..i + 1], tpcsets, width);
    var expected := if s < |tpcsets| then before[s := before[s] + [rops[i]]] else before;
    forall j | 0 <= j < width
      ensures after[j] == expected[j]
    {
      ROPsOfSetStep(rops, tpcsets, j, i);
    }
  }

  /** The search of `groupPlanesIntoROPs` for the first TPC set that holds
   *  all the TPCs of a readout plane. */
  method FindTPCset(ropTPCIDs: seq<TPCID>, tpcsets: seq<seq<TPCID>>) returns (s: nat)
    ensures s == FirstMatch(ropTPCIDs, tpcsets)
  {
    s := 0;
    var found := false;
    while s < |tpcsets| && !found
      invariant s <= |tpcsets|
      invariant forall j :: 0 <= j < s ==> !InTPCset(ropTPCIDs, tpcsets[j])
      invariant found ==> s < |tpcsets| && InTPCset(ropTPCIDs, tpcsets[s])
      decreases |tpcsets| - s, !found
    {
      found := IsROPinTPCset(ropTPCIDs, tpcsets[s]);
      if !found {
        s := s + 1;
      }
    }
    FirstMatchIs(ropTPCIDs, tpcsets, s);
  }

  lemma {:induction false} FirstMatchIs(ropTPCIDs: seq<TPCID>, tpcsets: seq<seq<TPCID>>, s: nat)
    requires s <= |tpcsets|
    requires forall j :: 0 <= j < s ==> !InTPCset(ropTPCIDs, tpcsets[j])
    requires s < |tpcsets| ==> InTPCset(ropTPCIDs, tpcsets[s])
    ensures FirstMatch(ropTPCIDs, tpcsets) == s
  {
  }

  lemma {:induction false} MaxCellAppend<T>(table: seq<seq<seq<T>>>, row: seq<seq<T>>)
    ensures var m, n := MaxCell(table), MaxSize(row);
            MaxCell(table + [row]) == if n > m then n else m
  {
    assert (table + [row])[..|table|] == table;
  }

  lemma {:induction false} AssignStep(rops: seq<seq<Plane>>, tpcsets: seq<seq<TPCID>>, width: nat, i: nat,
                   cells: seq<seq<seq<Plane>>>, nErrors: nat, maxIn: nat, maxROPs: nat)
    requires i < |rops| && |tpcsets| <= width
    requires cells == CryostatCells(rops[..i], tpcsets, width)
    requires nErrors == Unmatched(rops[..i], tpcsets)
    requires maxROPs == if MaxSize(cells) > maxIn then MaxSize(cells) else maxIn
    ensures var s := MatchOf(rops[i], tpcsets);
            s == |tpcsets| ==> nErrors + 1 == Unmatched(rops[..i + 1], tpcsets)
                               && cells == CryostatCells(rops[..i + 1], tpcsets, width)
    ensures var s := MatchOf(rops[i], tpcsets);
            s < |tpcsets| ==>
              var cells' := cells[s := cells[s] + [rops[i]]];
              && nErrors == Unmatched(rops[..i + 1], tpcsets)
              && cells' == CryostatCells(rops[..i + 1], tpcsets, width)
              && (if |cells'[s]| > maxROPs then |cells'[s]| else maxROPs)
                 == (if MaxSize(cells') > maxIn then MaxSize(cells') else maxIn)
  {
    var s := MatchOf(rops[i], tpcsets);
    CellsStep(rops, tpcsets, width, i);
    UnmatchedStep(rops, tpcsets, i);
    if s < |tpcsets| {
      MaxSizeGrows(cells, s, rops[i]);
    }
  }

  /** The inner loops of `groupPlanesIntoROPs`, over the readout planes of
   *  one cryostat: each goes to the first TPC set that holds all its TPCs;
   *  the ones that match none are counted.  `maxROPs` keeps the running
   *  maximum of the cell sizes. */
  method AssignToTPCsets(rops: seq<seq<Plane>>, tpcsets: seq<seq<TPCID>>, width: nat, maxIn: nat)
    returns (cells: seq<seq<seq<Plane>>>, nErrors: nat, maxROPs: nat)
    requires |tpcsets| <= width
    ensures cells == CryostatCells(rops, tpcsets, width)
    ensures nErrors == Unmatched(rops, tpcsets)
    ensures maxROPs == if MaxSize(cells) > maxIn then MaxSize(cells) else maxIn
  {
    cells := seq(width, s => []);
    nErrors := 0;
    maxROPs := maxIn;
    assert cells == CryostatCells(rops[..0], tpcsets, width);
    for i := 0 to |rops|
      invariant cells == CryostatCells(rops[..i], tpcsets, width)
      invariant nErrors == Unmatched(rops[..i], tpcsets)
      invariant maxROPs == if MaxSize(cells) > maxIn then MaxSize(cells) else maxIn
    {
      var s := FindTPCset(ExtractTPCIDs(rops[i]), tpcsets);
      AssignStep(rops, tpcsets, width, i, cells, nErrors, maxIn, maxROPs);
      if s == |tpcsets| {
        nErrors := nErrors + 1;
      } else {
        cells := cells[s := cells[s] + [rops[i]]];
        maxROPs := if |cells[s]| > maxROPs then |cells[s]| else maxROPs;
      }
    }
    assert rops[..|rops|] == rops;
  }

  /** Every readout plane of every cryostat matches a TPC set. */
  predicate AllMatched(allTPCs: seq<seq<seq<TPCID>>>, allPlanesInROPs: seq<seq<seq<Plane>>>)
    requires |allTPCs| == |allPlanesInROPs|
  {
    forall c :: 0 <= c < |allPlanesInROPs| ==> Unmatched(allPlanesInROPs[c], allTPCs[c]) == 0
  }

  lemma {:induction false} GroupStep(allTPCs: seq<seq<seq<TPCID>>>, allPlanesInROPs: seq<seq<seq<Plane>>>, width: nat, c: nat)
    requires |allTPCs| == |allPlanesInROPs| && c < |allTPCs|
    ensures ProtoROPs(allTPCs[..c + 1], allPlanesInROPs[..c + 1], width)
            == ProtoROPs(allTPCs[..c], allPlanesInROPs[..c], width) + [CryostatCells(allPlanesInROPs[c], allTPCs[c], width)]
    ensures AllMatched(allTPCs[..c + 1], allPlanesInROPs[..c + 1])
            <==> AllMatched(allTPCs[..c], allPlanesInROPs[..c]) && Unmatched(allPlanesInROPs[c], allTPCs[c]) == 0
  {
    var before := ProtoROPs(allTPCs[..c], allPlanesInROPs[..c], width);
    var after := ProtoROPs(allTPCs[..c + 1], allPlanesInROPs[..c + 1], width);
    assert forall k :: 0 <= k < c ==> after[k] == before[k];
  }

  /** `groupPlanesIntoROPs`: the readout planes of each TPC set, in a table
   *  `width` wide, and the most readout planes in a TPC set; fails when any
   *  readout plane matches no TPC set, after looking at all of them. */
  method GroupPlanesIntoROPs(allTPCs: seq<seq<seq<TPCID>>>, allPlanesInROPs: seq<seq<seq<Plane>>>, width: nat)
    returns (r: Result<(seq<seq<seq<seq<Plane>>>>, nat)>)
    requires |allTPCs| == |allPlanesInROPs|
    requires forall c :: 0 <= c < |allTPCs| ==> |allTPCs[c]| <= width
    ensures r.Ok? <==> AllMatched(allTPCs, allPlanesInROPs)
    ensures r.Ok? ==> r.value.0 == ProtoROPs(allTPCs, allPlanesInROPs, width) && r.value.1 == MaxCell(r.value.0)
    ensures r.Err? ==> r.error == UnassignedROPs
  {
    var planesInProtoROPs: seq<seq<seq<seq<Plane>>>> := [];
    var nErrors := 0;
    var maxROPs := 0;
    for c := 0 to |allPlanesInROPs|
      invariant planesInProtoROPs == ProtoROPs(allTPCs[..c], allPlanesInROPs[..c], width)
      invariant nErrors == 0 <==> AllMatched(allTPCs[..c], allPlanesInROPs[..c])
      invariant maxROPs == MaxCell(planesInProtoROPs)
    {
      var cells, errors, newMax := AssignToTPCsets(allPlanesInROPs[c], allTPCs[c], width, maxROPs);
      MaxCellAppend(planesInProtoROPs, cells);
      GroupStep(allTPCs, allPlanesInROPs, width, c);
      planesInProtoROPs := planesInProtoROPs + [cells];
      nErrors := nErrors + errors;
      maxROPs := newMax;
    }
    assert allTPCs[..|allTPCs|] == allTPCs && allPlanesInROPs[..|allPlanesInROPs|] == allPlanesInROPs;
    if nErrors > 0 {
      return Err(UnassignedROPs);
    }
    return Ok((planesInProtoROPs, maxROPs));
  }
}
