// The whole TPC-set and readout-plane building algorithm
// (`icarus::details::ROPandTPCsetBuildingAlg::run`): from the wire planes of
// each TPC of each cryostat to the TPC sets, the readout planes, and the maps
// from TPCs and wire planes back to them.

module ROPandTPCsetBuildingAlgorithm {
  import opened Wrappers
  import opened GeoTypes
  import opened StableMerger
  import opened PlaneGrouping
  import opened ROPnumberDispatching
  import opened ROPandTPCsetBuilding
  import opened ROPfilling
  import opened ReadoutMaps

  /** `Results_t`: the six outputs of a run.
   *  - `tpcsetCount`: the number of TPC sets of each cryostat;
   *  - `tpcsetTPCs`: the TPCs of each TPC set, every cryostat as wide as the
   *    cryostat with the most TPC sets;
   *  - `ropCount`: the number of readout planes of each TPC set;
   *  - `ropPlanes`: the wire planes of each readout plane;
   *  - `tpcToTPCset`: the TPC set of each TPC (a TPC absent from the map has
   *    none);
   *  - `planeToROP`: the readout plane of each wire plane (likewise). */
  datatype Results = Results(
    tpcsetCount: seq<nat>,
    tpcsetTPCs: seq<seq<seq<TPCID>>>,
    ropCount: seq<seq<nat>>,
    ropPlanes: seq<seq<seq<seq<Plane>>>>,
    tpcToTPCset: map<TPCID, TPCsetID>,
    planeToROP: map<PlaneID, ROPID>)

  /** `standaloneHorizontalWires`: a plane with horizontal wires is a
   *  readout plane of its own. */
  predicate StandaloneHorizontalWires(plane: Plane)
  {
    plane.horizontalWires
  }

  /** Step 1: the candidate readout planes of each cryostat. */
  function CandidateROPs(cryostats: seq<seq<seq<Plane>>>): (rops: seq<seq<seq<Plane>>>)
    ensures |rops| == |cryostats|
  {
    seq(|cryostats|, c requires 0 <= c < |cryostats| => ROPsOfCryostat(cryostats[c], StandaloneHorizontalWires))
  }

  /** Step 2: the TPC sets of each cryostat. */
  function AllTPCsets(rops: seq<seq<seq<Plane>>>): (allTPCs: seq<seq<seq<TPCID>>>)
    ensures |allTPCs| == |rops|
  {
    seq(|rops|, c requires 0 <= c < |rops| => TPCsetsOf(rops[c]))
  }

  /** The number of TPC sets of each cryostat. */
  function SetCounts(allTPCs: seq<seq<seq<TPCID>>>): seq<nat>
  {
    seq(|allTPCs|, c requires 0 <= c < |allTPCs| => |allTPCs[c]|)
  }

  /** The readout planes assigned to the TPC sets fit the fill: each
   *  cryostat has no more TPC sets than the table is wide. */
  lemma {:induction false} ProtoIsCounted(allTPCs: seq<seq<seq<TPCID>>>, rops: seq<seq<seq<Plane>>>)
    requires |allTPCs| == |rops|
    ensures Counted(SetCounts(allTPCs), ProtoROPs(allTPCs, rops, MaxSize(allTPCs)), MaxSize(allTPCs))
  {
    var proto := ProtoROPs(allTPCs, rops, MaxSize(allTPCs));
    forall c | 0 <= c < |proto|
      ensures SetCounts(allTPCs)[c] <= |proto[c]| && SetCounts(allTPCs)[c] <= MaxSize(allTPCs)
    {
      assert |allTPCs[c]| <= MaxSize(allTPCs);
    }
  }

  /** What a run yields from the candidate readout planes and the TPC sets:
   *  each readout plane goes to the first TPC set holding all its TPCs, the
   *  readout planes of each TPC set are numbered by view, and both maps
   *  invert the tables. */
  function Assemble(rops: seq<seq<seq<Plane>>>, allTPCs: seq<seq<seq<TPCID>>>, distance: (Plane, Plane) -> real)
    : (r: Result<Results>)
    requires |allTPCs| == |rops|
    ensures r.Ok? ==> |r.value.tpcsetCount| == |rops| && |r.value.tpcsetTPCs| == |rops|
                      && |r.value.ropCount| == |rops| && |r.value.ropPlanes| == |rops|
  {
    var maxTPCsets := MaxSize(allTPCs);
    if !AllMatched(allTPCs, rops) then Err(UnassignedROPs)
    else
      var proto := ProtoROPs(allTPCs, rops, maxTPCsets);
      ProtoIsCounted(allTPCs, rops);
      match FilledROPs(SetCounts(allTPCs), proto, maxTPCsets, MaxCell(proto), distance)
      case Err(e) => Err(e)
      case Ok(filled) =>
        var tpcsetTPCs := TPCsetTable(allTPCs, maxTPCsets);
        Ok(Results(SetCounts(allTPCs), tpcsetTPCs, filled.0, filled.1, TPCtoTPCset(tpcsetTPCs), PlaneToROP(filled.1)))
  }

  /** What a run yields: the TPC sets come from merging the TPCs of the
   *  candidate readout planes of each cryostat. */
  function Build(cryostats: seq<seq<seq<Plane>>>, distance: (Plane, Plane) -> real): (r: Result<Results>)
  {
    var rops := CandidateROPs(cryostats);
    Assemble(rops, AllTPCsets(rops), distance)
  }

  /** Steps 1 and 2 of `run`: the candidate readout planes, the TPC sets of
   *  each cryostat and their largest number, then the TPC-set counts and
   *  table. */
  method TPCsetSteps(cryostats: seq<seq<seq<Plane>>>)
    returns (allPlanesInROPs: seq<seq<seq<Plane>>>, allTPCsInTPCsets: seq<seq<seq<TPCID>>>, maxSets: nat,
             counts: seq<nat>, table: seq<seq<seq<TPCID>>>)
    ensures allPlanesInROPs == CandidateROPs(cryostats)
    ensures allTPCsInTPCsets == AllTPCsets(allPlanesInROPs)
    ensures maxSets == MaxSize(allTPCsInTPCsets)
    ensures counts == SetCounts(allTPCsInTPCsets)
    ensures table == TPCsetTable(allTPCsInTPCsets, maxSets)
  {
    allPlanesInROPs := GroupPlanesAndTPCs(cryostats, StandaloneHorizontalWires);
    allTPCsInTPCsets, maxSets := ExtractTPCsetsFromROPs(allPlanesInROPs);
    counts, table := FillTPCsInSet(allTPCsInTPCsets, maxSets);
  }

  /** Steps 3 to 5 of `run`, after the TPC sets: the readout planes are
   *  assigned to TPC sets, numbered and placed, and both maps filled. */
  method ROPsteps(allPlanesInROPs: seq<seq<seq<Plane>>>, allTPCsInTPCsets: seq<seq<seq<TPCID>>>, maxSets: nat,
                  counts: seq<nat>, table: seq<seq<seq<TPCID>>>, distance: (Plane, Plane) -> real)
    returns (r: Result<Results>, maxROPs: nat)
    requires |allTPCsInTPCsets| == |allPlanesInROPs|
    requires maxSets == MaxSize(allTPCsInTPCsets) && counts == SetCounts(allTPCsInTPCsets)
    requires table == TPCsetTable(allTPCsInTPCsets, maxSets)
    ensures r == Assemble(allPlanesInROPs, allTPCsInTPCsets, distance)
    ensures r.Ok? ==> r.value.tpcsetCount == counts && r.value.tpcsetTPCs == table
    ensures AllMatched(allTPCsInTPCsets, allPlanesInROPs) ==> maxROPs == MaxCell(ProtoROPs(allTPCsInTPCsets, allPlanesInROPs, maxSets))
  {
    ProtoIsCounted(allTPCsInTPCsets, allPlanesInROPs);
    var planesInProtoROPs := GroupPlanesIntoROPs(allTPCsInTPCsets, allPlanesInROPs, maxSets);
    if planesInProtoROPs.Err? {
      return Err(planesInProtoROPs.error), 0;
    }
    var proto := planesInProtoROPs.value.0;
    maxROPs := planesInProtoROPs.value.1;
    var filled := FillPlanesInROP(counts, proto, maxSets, maxROPs, distance);
    if filled.Err? {
      return Err(filled.error), maxROPs;
    }
    var tpcToTPCset := FillTPCtoTPCsetMap(table);
    var planeToROP := FillPlaneToROPmap(filled.value.1);
    r := Ok(Results(counts, table, filled.value.0, filled.value.1, tpcToTPCset, planeToROP));
  }

  /** The candidate readout planes of a run all find a TPC set: the check of
   *  `groupPlanesIntoROPs` never fails inside `run`. */
  lemma {:induction false} EveryCandidateMatches(cryostats: seq<seq<seq<Plane>>>)
    ensures AllMatched(AllTPCsets(CandidateROPs(cryostats)), CandidateROPs(cryostats))
  {
    var rops := CandidateROPs(cryostats);
    forall c | 0 <= c < |rops|
      ensures Unmatched(rops[c], AllTPCsets(rops)[c]) == 0
    {
      EveryROPMatches(rops[c]);
    }
  }

  // ---------------------------------------------------------------------------
  // What the results hold

  /** Some TPC of the input cryostats holds a wire plane with this ID. */
  ghost predicate HasPlane(cryostats: seq<seq<seq<Plane>>>, pid: PlaneID)
  {
    exists c, p :: 0 <= c < |cryostats| && Holds(cryostats[c], p) && p.id == pid
  }

  /** Some wire plane of the input cryostats is on this TPC. */
  ghost predicate HasTPC(cryostats: seq<seq<seq<Plane>>>, tpc: TPCID)
  {
    exists c, p :: 0 <= c < |cryostats| && Holds(cryostats[c], p) && p.id.AsTPCID() == tpc
  }

  /** Every wire plane of a cryostat sits in that cryostat's ID space. */
  predicate PlanesInOwnCryostat(cryostats: seq<seq<seq<Plane>>>)
  {
    forall c, t, k :: 0 <= c < |cryostats| && 0 <= t < |cryostats[c]| && 0 <= k < |cryostats[c][t]| ==>
      cryostats[c][t][k].id.cryostat == c
  }

  lemma {:induction false} FlattenHolds<T>(ss: seq<seq<T>>, x: T)
    ensures x in Flatten(ss) <==> Holds(ss, x)
  {
    if ss != [] {
      FlattenHolds(ss[1..], x);
      assert Flatten(ss) == ss[0] + Flatten(ss[1..]);
      if Holds(ss[1..], x) {
        var k :| 0 <= k < |ss[1..]| && x in ss[1..][k];
        assert x in ss[k + 1];
      }
      if Holds(ss, x) && x !in ss[0] {
        var k :| 0 <= k < |ss| && x in ss[k];
        assert x in ss[1..][k - 1];
      }
    }
  }

  /** The candidate readout planes of a cryostat hold exactly its wire
   *  planes. */
  lemma {:induction false} CandidatesHoldPlanes(tpcs: seq<seq<Plane>>, p: Plane)
    ensures Holds(ROPsOfCryostat(tpcs, StandaloneHorizontalWires), p) <==> Holds(tpcs, p)
  {
    var rops := ROPsOfCryostat(tpcs, StandaloneHorizontalWires);
    ROPsPartitionPlanes(tpcs, StandaloneHorizontalWires);
    FlattenHolds(rops, p);
    FlattenHolds(tpcs, p);
    assert p in Flatten(rops) <==> p in multiset(Flatten(rops));
    assert p in Flatten(tpcs) <==> p in multiset(Flatten(tpcs));
  }

  /** A TPC in some TPC set of the table holds a wire plane of the input. */
  lemma {:induction false} TableTPCisInput(cryostats: seq<seq<seq<Plane>>>, c: nat, s: nat, tpc: TPCID)
    requires var allTPCs := AllTPCsets(CandidateROPs(cryostats));
             c < |allTPCs| && s < |allTPCs[c]| && tpc in allTPCs[c][s]
    ensures HasTPC(cryostats, tpc)
  {
    var rops := CandidateROPs(cryostats);
    TPCsetsPartitionTPCs(rops[c], tpc);
    var groups: seq<seq<Plane>> := rops[c];
    var i: nat, j: nat :| i < |groups| && j < |groups[i]| && groups[i][j].id.AsTPCID() == tpc;
    var p := groups[i][j];
    assert p in groups[i];
    CandidatesHoldPlanes(cryostats[c], p);
  }

  /** A TPC holding a wire plane of the input is in a TPC set of its
   *  cryostat. */
  lemma {:induction false} InputTPCisInTable(cryostats: seq<seq<seq<Plane>>>, c: nat, p: Plane)
    requires c < |cryostats| && Holds(cryostats[c], p)
    ensures var allTPCs := AllTPCsets(CandidateROPs(cryostats));
            exists s :: 0 <= s < |allTPCs[c]| && p.id.AsTPCID() in allTPCs[c][s]
  {
    var rops := CandidateROPs(cryostats);
    CandidatesHoldPlanes(cryostats[c], p);
    var groups: seq<seq<Plane>> := rops[c];
    var i :| 0 <= i < |groups| && p in groups[i];
    var j :| 0 <= j < |groups[i]| && groups[i][j] == p;
    var sets := TPCsetsOf(groups);
    TPCsetsPartitionTPCs(groups, p.id.AsTPCID());
    assert Holds(sets, p.id.AsTPCID());
    var s :| 0 <= s < |sets| && p.id.AsTPCID() in sets[s];
    assert AllTPCsets(rops)[c] == sets;
  }

  lemma {:induction false} TableCell(allTPCs: seq<seq<seq<TPCID>>>, width: nat, c: nat, s: nat)
    requires c < |allTPCs| && s < width
    ensures TPCsetTable(allTPCs, width)[c][s] == if s < |allTPCs[c]| then allTPCs[c][s] else []
  {
  }

  /** A TPC is in some TPC set of the table exactly when a wire plane of the
   *  input is on it. */
  lemma {:induction false} TableHoldsTPC(cryostats: seq<seq<seq<Plane>>>, tpc: TPCID)
    ensures var allTPCs := AllTPCsets(CandidateROPs(cryostats));
            var table := TPCsetTable(allTPCs, MaxSize(allTPCs));
            (exists c, s :: 0 <= c < |table| && 0 <= s < |table[c]| && tpc in table[c][s]) <==> HasTPC(cryostats, tpc)
  {
    var allTPCs := AllTPCsets(CandidateROPs(cryostats));
    var table := TPCsetTable(allTPCs, MaxSize(allTPCs));
    if exists c, s :: 0 <= c < |table| && 0 <= s < |table[c]| && tpc in table[c][s] {
      var c, s :| 0 <= c < |table| && 0 <= s < |table[c]| && tpc in table[c][s];
      TableCell(allTPCs, MaxSize(allTPCs), c, s);
      TableTPCisInput(cryostats, c, s, tpc);
    }
    if HasTPC(cryostats, tpc) {
      var c, p :| 0 <= c < |cryostats| && Holds(cryostats[c], p) && p.id.AsTPCID() == tpc;
      InputTPCisInTable(cryostats, c, p);
      var s :| 0 <= s < |allTPCs[c]| && tpc in allTPCs[c][s];
      assert |allTPCs[c]| <= MaxSize(allTPCs);
      TableCell(allTPCs, MaxSize(allTPCs), c, s);
    }
  }

  /** With every wire plane in its own cryostat, a TPC of a cryostat's TPC
   *  set belongs to that cryostat. */
  lemma {:induction false} TPCsetInCryostat(cryostats: seq<seq<seq<Plane>>>, c: nat, s: nat, tpc: TPCID)
    requires PlanesInOwnCryostat(cryostats)
    requires c < |cryostats| && s < |AllTPCsets(CandidateROPs(cryostats))[c]|
    requires tpc in AllTPCsets(CandidateROPs(cryostats))[c][s]
    ensures tpc.cryostat == c
  {
    var rops := CandidateROPs(cryostats);
    TPCsetsPartitionTPCs(rops[c], tpc);
    var groups: seq<seq<Plane>> := rops[c];
    var i: nat, j: nat :| i < |groups| && j < |groups[i]| && groups[i][j].id.AsTPCID() == tpc;
    var p := groups[i][j];
    assert p in rops[c][i];
    CandidatesHoldPlanes(cryostats[c], p);
    var t :| 0 <= t < |cryostats[c]| && p in cryostats[c][t];
    var k :| 0 <= k < |cryostats[c][t]| && cryostats[c][t][k] == p;
  }

  /** With every wire plane in its own cryostat, no two TPC sets of the
   *  table share a TPC. */
  lemma {:induction false} TableIsDisjoint(cryostats: seq<seq<seq<Plane>>>)
    requires PlanesInOwnCryostat(cryostats)
    ensures var allTPCs := AllTPCsets(CandidateROPs(cryostats));
            DisjointTPCsets(TPCsetTable(allTPCs, MaxSize(allTPCs)))
  {
    var rops := CandidateROPs(cryostats);
    var allTPCs := AllTPCsets(rops);
    var table := TPCsetTable(allTPCs, MaxSize(allTPCs));
    forall c1, s1, c2, s2, t |
      && 0 <= c1 < |table| && 0 <= s1 < |table[c1]| && 0 <= c2 < |table| && 0 <= s2 < |table[c2]|
      && t in table[c1][s1] && t in table[c2][s2]
      ensures c1 == c2 && s1 == s2
    {
      assert s1 < |allTPCs[c1]| && t in allTPCs[c1][s1];
      assert s2 < |allTPCs[c2]| && t in allTPCs[c2][s2];
      OneTPCsetPerTPC(cryostats, c1, s1, c2, s2, t);
    }
  }

  /** A TPC lies in one TPC set of one cryostat. */
  lemma {:induction false} OneTPCsetPerTPC(cryostats: seq<seq<seq<Plane>>>, c1: nat, s1: nat, c2: nat, s2: nat, t: TPCID)
    requires PlanesInOwnCryostat(cryostats)
    requires var allTPCs := AllTPCsets(CandidateROPs(cryostats));
             && c1 < |allTPCs| && s1 < |allTPCs[c1]| && t in allTPCs[c1][s1]
             && c2 < |allTPCs| && s2 < |allTPCs[c2]| && t in allTPCs[c2][s2]
    ensures c1 == c2 && s1 == s2
  {
    var rops := CandidateROPs(cryostats);
    var allTPCs := AllTPCsets(rops);
    TPCsetInCryostat(cryostats, c1, s1, t);
    TPCsetInCryostat(cryostats, c2, s2, t);
    TPCsetsPartitionTPCs(rops[c1], t);
    var sets := allTPCs[c1];
    var k1 :| 0 <= k1 < |sets[s1]| && sets[s1][k1] == t;
    var k2 :| 0 <= k2 < |sets[s2]| && sets[s2][k2] == t;
  }

  /** The parts of a successful run. */
  lemma {:induction false} BuildParts(cryostats: seq<seq<seq<Plane>>>, distance: (Plane, Plane) -> real)
    requires Build(cryostats, distance).Ok?
    ensures var rops := CandidateROPs(cryostats);
            var allTPCs := AllTPCsets(rops);
            var maxSets := MaxSize(allTPCs);
            var proto := ProtoROPs(allTPCs, rops, maxSets);
            var res := Build(cryostats, distance).value;
            && Counted(SetCounts(allTPCs), proto, maxSets)
            && proto != [] && proto[0] != [] && NormalSorted(proto[0][0], distance).Ok?
            && PreferredRanges(NormalSorted(proto[0][0], distance).value).Ok?
            && var first := PreferredRanges(NormalSorted(proto[0][0], distance).value).value;
               && FillTable(first, SetCounts(allTPCs), proto, maxSets, MaxCell(proto)).Ok?
               && res.ropPlanes == FillTable(first, SetCounts(allTPCs), proto, maxSets, MaxCell(proto)).value
               && res.tpcsetTPCs == TPCsetTable(allTPCs, maxSets)
               && res.tpcToTPCset == TPCtoTPCset(res.tpcsetTPCs)
               && res.planeToROP == PlaneToROP(res.ropPlanes)
  {
    var rops := CandidateROPs(cryostats);
    ProtoIsCounted(AllTPCsets(rops), rops);
  }

  /** `fillTPCtoTPCsetMap`: the TPCs with a TPC set are exactly those
   *  holding a wire plane of the input. */
  lemma {:induction false} BuildMapsTPCs(cryostats: seq<seq<seq<Plane>>>, distance: (Plane, Plane) -> real, tpc: TPCID)
    requires Build(cryostats, distance).Ok?
    ensures tpc in Build(cryostats, distance).value.tpcToTPCset <==> HasTPC(cryostats, tpc)
  {
    BuildParts(cryostats, distance);
    TPCtoTPCsetMeans(Build(cryostats, distance).value.tpcsetTPCs, tpc);
    TableHoldsTPC(cryostats, tpc);
  }

  /** `fillTPCtoTPCsetMap`: when every wire plane is in its own cryostat,
   *  each TPC of a TPC set maps back to that TPC set. */
  lemma {:induction false} BuildTPCmapInverts(cryostats: seq<seq<seq<Plane>>>, distance: (Plane, Plane) -> real, c: nat, s: nat, tpc: TPCID)
    requires PlanesInOwnCryostat(cryostats)
    requires Build(cryostats, distance).Ok?
    requires var table := Build(cryostats, distance).value.tpcsetTPCs;
             c < |table| && s < |table[c]| && tpc in table[c][s]
    ensures var res := Build(cryostats, distance).value;
            tpc in res.tpcToTPCset && res.tpcToTPCset[tpc] == TPCsetID(c, s)
  {
    BuildParts(cryostats, distance);
    TableIsDisjoint(cryostats);
    TPCtoTPCsetInverts(Build(cryostats, distance).value.tpcsetTPCs, c, s, tpc);
  }

  /** No candidate readout plane is empty. */
  predicate NonEmptyGroups(rops: seq<seq<seq<Plane>>>)
  {
    forall c, g :: 0 <= c < |rops| && g in rops[c] ==> g != []
  }

  lemma {:induction false} CandidatesAreNonEmpty(cryostats: seq<seq<seq<Plane>>>)
    ensures NonEmptyGroups(CandidateROPs(cryostats))
  {
    var rops := CandidateROPs(cryostats);
    forall c | 0 <= c < |rops|
      ensures forall g :: g in rops[c] ==> g != []
    {
      ROPsPartitionPlanes(cryostats[c], StandaloneHorizontalWires);
    }
  }

  lemma {:induction false} ProtoCell(allTPCs: seq<seq<seq<TPCID>>>, rops: seq<seq<seq<Plane>>>, width: nat, c: nat, s: nat)
    requires |allTPCs| == |rops| && c < |rops| && s < width
    ensures ProtoROPs(allTPCs, rops, width)[c][s] == ROPsOfSet(rops[c], allTPCs[c], s)
  {
  }

  /** A filled TPC set holds, at its number, each readout plane assigned to
   *  it, and nothing else. */
  lemma {:induction false} FilledSet(first: map<View, nat>, counts: seq<nat>, proto: seq<seq<seq<seq<Plane>>>>, setWidth: nat, width: nat,
                  table: seq<seq<seq<seq<Plane>>>>, c: nat, s: nat)
    requires Counted(counts, proto, setWidth) && PerSet(table, first, counts, proto, setWidth, width)
    requires c < |proto| && s < counts[c]
    requires forall i :: 0 <= i < |proto[c][s]| ==> proto[c][s][i] != []
    ensures Assigned(first, proto[c][s]).Ok? && Placed(table[c][s], proto[c][s], Assigned(first, proto[c][s]).value.0)
  {
    FillSetMeans(first, proto[c][s], width);
  }

  /** Every non-empty cell of a filled table is a candidate readout plane of
   *  its cryostat. */
  lemma {:induction false} TableCellIsCandidate(first: map<View, nat>, counts: seq<nat>, proto: seq<seq<seq<seq<Plane>>>>, setWidth: nat,
                             width: nat, table: seq<seq<seq<seq<Plane>>>>, allTPCs: seq<seq<seq<TPCID>>>,
                             rops: seq<seq<seq<Plane>>>, c: nat, s: nat, r: nat)
    requires Counted(counts, proto, setWidth) && PerSet(table, first, counts, proto, setWidth, width)
    requires c < |proto| && c < |rops| && c < |allTPCs| && NonEmptyGroups(rops)
    requires s < |table[c]| && r < |table[c][s]| && table[c][s][r] != []
    requires s < counts[c] ==> proto[c][s] == ROPsOfSet(rops[c], allTPCs[c], s)
    ensures table[c][s][r] in rops[c]
  {
    if counts[c] <= s {
      assert false;
    }
    ROPsOfSetMeans(rops[c], allTPCs[c], s);
    assert forall i :: 0 <= i < |proto[c][s]| ==> proto[c][s][i] in rops[c];
    FilledSet(first, counts, proto, setWidth, width, table, c, s);
    var ids := Assigned(first, proto[c][s]).value.0;
    var q :| 0 <= q < |ids| && ids[q] == r;
    assert table[c][s][r] == proto[c][s][q];
  }

  /** Every candidate readout plane matched to a counted TPC set sits in a
   *  cell of that TPC set. */
  lemma {:induction false} CandidateIsInTable(first: map<View, nat>, counts: seq<nat>, proto: seq<seq<seq<seq<Plane>>>>, setWidth: nat,
                           width: nat, table: seq<seq<seq<seq<Plane>>>>, allTPCs: seq<seq<seq<TPCID>>>,
                           rops: seq<seq<seq<Plane>>>, c: nat, i: nat)
    requires Counted(counts, proto, setWidth) && PerSet(table, first, counts, proto, setWidth, width)
    requires c < |proto| && c < |rops| && c < |allTPCs| && NonEmptyGroups(rops)
    requires i < |rops[c]| && MatchOf(rops[c][i], allTPCs[c]) < counts[c] && MatchOf(rops[c][i], allTPCs[c]) < |allTPCs[c]|
    requires proto[c][MatchOf(rops[c][i], allTPCs[c])] == ROPsOfSet(rops[c], allTPCs[c], MatchOf(rops[c][i], allTPCs[c]))
    ensures exists s, r :: 0 <= s < |table[c]| && 0 <= r < |table[c][s]| && table[c][s][r] == rops[c][i]
  {
    var s := MatchOf(rops[c][i], allTPCs[c]);
    var cell := proto[c][s];
    assert rops[c][i] in cell && forall k :: 0 <= k < |cell| ==> cell[k] != [] by {
      ROPsOfSetMeans(rops[c], allTPCs[c], s);
      assert forall k :: 0 <= k < |cell| ==> cell[k] in rops[c];
    }
    FilledSet(first, counts, proto, setWidth, width, table, c, s);
    var r := PlacedAt(table[c][s], cell, Assigned(first, cell).value.0, rops[c][i]);
    assert s < |table[c]|;
  }

  /** A readout plane placed in the cells sits in one of them. */
  lemma {:induction false} PlacedAt(cells: seq<seq<Plane>>, rops: seq<seq<Plane>>, ids: seq<nat>, rop: seq<Plane>)
    returns (r: nat)
    requires Placed(cells, rops, ids) && rop in rops
    ensures r < |cells| && cells[r] == rop
  {
    var q :| 0 <= q < |rops| && rops[q] == rop;
    r := ids[q];
  }

  /** A wire plane of the readout-plane table of a run is a wire plane of
   *  the input. */
  lemma {:induction false} TablePlaneIsInput(cryostats: seq<seq<seq<Plane>>>, distance: (Plane, Plane) -> real, c: nat, s: nat, r: nat, i: nat)
    requires Build(cryostats, distance).Ok?
    requires var table := Build(cryostats, distance).value.ropPlanes;
             c < |table| && s < |table[c]| && r < |table[c][s]| && i < |table[c][s][r]|
    ensures HasPlane(cryostats, Build(cryostats, distance).value.ropPlanes[c][s][r][i].id)
  {
    var rops := CandidateROPs(cryostats);
    var allTPCs := AllTPCsets(rops);
    var maxSets := MaxSize(allTPCs);
    var counts := SetCounts(allTPCs);
    var proto := ProtoROPs(allTPCs, rops, maxSets);
    var table: seq<seq<seq<seq<Plane>>>> := Build(cryostats, distance).value.ropPlanes;
    BuildParts(cryostats, distance);
    var first := PreferredRanges(NormalSorted(proto[0][0], distance).value).value;
    FillTableIsPerSet(first, counts, proto, maxSets, MaxCell(proto));
    CandidatesAreNonEmpty(cryostats);
    if s < counts[c] {
      ProtoCell(allTPCs, rops, maxSets, c, s);
    }
    TableCellIsCandidate(first, counts, proto, maxSets, MaxCell(proto), table, allTPCs, rops, c, s, r);
    CandidatesHoldPlanes(cryostats[c], table[c][s][r][i]);
  }

  /** A wire plane of the input is in the readout-plane table of a run. */
  lemma {:induction false} InputPlaneIsInTable(cryostats: seq<seq<seq<Plane>>>, distance: (Plane, Plane) -> real, c: nat, p: Plane)
    requires Build(cryostats, distance).Ok?
    requires c < |cryostats| && Holds(cryostats[c], p)
    ensures PlaneInTable(Build(cryostats, distance).value.ropPlanes, p.id)
  {
    var rops := CandidateROPs(cryostats);
    var allTPCs := AllTPCsets(rops);
    var maxSets := MaxSize(allTPCs);
    var counts := SetCounts(allTPCs);
    var proto := ProtoROPs(allTPCs, rops, maxSets);
    var table: seq<seq<seq<seq<Plane>>>> := Build(cryostats, distance).value.ropPlanes;
    BuildParts(cryostats, distance);
    var first := PreferredRanges(NormalSorted(proto[0][0], distance).value).value;
    FillTableIsPerSet(first, counts, proto, maxSets, MaxCell(proto));
    CandidatesAreNonEmpty(cryostats);
    CandidatesHoldPlanes(cryostats[c], p);
    EveryCandidateMatches(cryostats);
    UnmatchedMeans(rops[c], allTPCs[c]);
    forall m | 0 <= m < |allTPCs[c]|
      ensures proto[c][m] == ROPsOfSet(rops[c], allTPCs[c], m)
    {
      ProtoCell(allTPCs, rops, maxSets, c, m);
    }
    CandidatePlaneIsInTable(first, counts, proto, maxSets, MaxCell(proto), table, allTPCs, rops, c, p);
  }

  /** A wire plane of a candidate readout plane of a cryostat whose readout
   *  planes all match one of its counted TPC sets is in the table. */
  lemma {:induction false} CandidatePlaneIsInTable(first: map<View, nat>, counts: seq<nat>, proto: seq<seq<seq<seq<Plane>>>>, setWidth: nat,
                                width: nat, table: seq<seq<seq<seq<Plane>>>>, allTPCs: seq<seq<seq<TPCID>>>,
                                rops: seq<seq<seq<Plane>>>, c: nat, p: Plane)
    requires Counted(counts, proto, setWidth) && PerSet(table, first, counts, proto, setWidth, width)
    requires c < |proto| && c < |rops| && c < |allTPCs| && c < |counts| && counts[c] == |allTPCs[c]|
    requires NonEmptyGroups(rops) && Holds(rops[c], p)
    requires forall i :: 0 <= i < |rops[c]| ==> MatchOf(rops[c][i], allTPCs[c]) < |allTPCs[c]|
    requires forall m :: 0 <= m < |allTPCs[c]| ==> proto[c][m] == ROPsOfSet(rops[c], allTPCs[c], m)
    ensures PlaneInTable(table, p.id)
  {
    var groups: seq<seq<Plane>> := rops[c];
    var i :| 0 <= i < |groups| && p in groups[i];
    var j :| 0 <= j < |groups[i]| && groups[i][j] == p;
    CandidateIsInTable(first, counts, proto, setWidth, width, table, allTPCs, rops, c, i);
    var s: nat, r: nat :| s < |table[c]| && r < |table[c][s]| && table[c][s][r] == groups[i];
    assert table[c][s][r][j].id == p.id;
  }

  /** `fillPlaneToROPmap`: the wire planes with a readout plane are exactly
   *  those of the input. */
  lemma {:induction false} BuildMapsPlanes(cryostats: seq<seq<seq<Plane>>>, distance: (Plane, Plane) -> real, pid: PlaneID)
    requires Build(cryostats, distance).Ok?
    ensures pid in Build(cryostats, distance).value.planeToROP <==> HasPlane(cryostats, pid)
  {
    var table: seq<seq<seq<seq<Plane>>>> := Build(cryostats, distance).value.ropPlanes;
    BuildParts(cryostats, distance);
    PlaneToROPKeys(table, pid);
    if PlaneInTable(table, pid) {
      var c: nat, s: nat, r: nat, i: nat :| c < |table| && s < |table[c]| && r < |table[c][s]|
                                           && i < |table[c][s][r]| && table[c][s][r][i].id == pid;
      TablePlaneIsInput(cryostats, distance, c, s, r, i);
    }
    if HasPlane(cryostats, pid) {
      var c, p :| 0 <= c < |cryostats| && Holds(cryostats[c], p) && p.id == pid;
      InputPlaneIsInTable(cryostats, distance, c, p);
    }
  }

  /** `fillPlaneToROPmap`: a wire plane maps to a readout plane holding it. */
  lemma {:induction false} BuildPlaneMapIsSound(cryostats: seq<seq<seq<Plane>>>, distance: (Plane, Plane) -> real, pid: PlaneID)
    requires Build(cryostats, distance).Ok?
    requires pid in Build(cryostats, distance).value.planeToROP
    ensures var res := Build(cryostats, distance).value;
            var id := res.planeToROP[pid];
            && id.cryostat < |res.ropPlanes| && id.tpcset < |res.ropPlanes[id.cryostat]|
            && id.rop < |res.ropPlanes[id.cryostat][id.tpcset]|
            && exists i :: 0 <= i < |res.ropPlanes[id.cryostat][id.tpcset][id.rop]|
                           && res.ropPlanes[id.cryostat][id.tpcset][id.rop][i].id == pid
  {
    BuildParts(cryostats, distance);
    PlaneToROPSound(Build(cryostats, distance).value.ropPlanes, pid);
  }

  /** The results `run` checks before returning them are never empty after
   *  a successful run. */
  lemma {:induction false} BuildResultsAreNotEmpty(cryostats: seq<seq<seq<Plane>>>, distance: (Plane, Plane) -> real)
    requires Build(cryostats, distance).Ok?
    ensures var res := Build(cryostats, distance).value;
            && res.tpcsetCount != [] && res.tpcsetTPCs != [] && res.ropCount != []
            && res.tpcToTPCset != map[] && res.planeToROP != map[]
  {
    var rops := CandidateROPs(cryostats);
    var allTPCs := AllTPCsets(rops);
    var proto := ProtoROPs(allTPCs, rops, MaxSize(allTPCs));
    var res := Build(cryostats, distance).value;
    BuildParts(cryostats, distance);
    CandidatesAreNonEmpty(cryostats);
    var rop := proto[0][0][0];
    ROPsOfSetMeans(rops[0], allTPCs[0], 0);
    assert rop in rops[0];
    var p := rop[0];
    CandidatesHoldPlanes(cryostats[0], p);
    BuildMapsPlanes(cryostats, distance, p.id);
    BuildMapsTPCs(cryostats, distance, p.id.AsTPCID());
  }

  /** `ROPandTPCsetBuildingAlg`: the working containers of a run. */
  class ROPandTPCsetBuildingAlg {
    var tpcsetCount: seq<nat>
    var tpcsetTPCs: seq<seq<seq<TPCID>>>
    var ropCount: seq<seq<nat>>
    var ropPlanes: seq<seq<seq<seq<Plane>>>>
    var tpcToTPCset: map<TPCID, TPCsetID>
    var planeToROP: map<PlaneID, ROPID>
    var maxTPCsets: nat
    var maxROPs: nat

    /** All containers empty and both maxima zero. */
    predicate Cleared()
      reads this
    {
      && tpcsetCount == [] && tpcsetTPCs == [] && ropCount == [] && ropPlanes == []
      && tpcToTPCset == map[] && planeToROP == map[]
      && maxTPCsets == 0 && maxROPs == 0
    }

    constructor()
      ensures Cleared()
    {
      tpcsetCount, tpcsetTPCs, ropCount, ropPlanes := [], [], [], [];
      tpcToTPCset, planeToROP := map[], map[];
      maxTPCsets, maxROPs := 0, 0;
    }

    /** `clear`: resets every container and both maxima. */
    method Clear()
      modifies this
      ensures Cleared()
    {
      tpcsetCount, tpcsetTPCs, ropCount, ropPlanes := [], [], [], [];
      tpcToTPCset, planeToROP := map[], map[];
      maxTPCsets, maxROPs := 0, 0;
    }

    /** Stores the outcome of the steps of a run in the containers. */
    method Store(counts: seq<nat>, table: seq<seq<seq<TPCID>>>, rops: seq<seq<nat>>, planes: seq<seq<seq<seq<Plane>>>>,
                 tpcMap: map<TPCID, TPCsetID>, planeMap: map<PlaneID, ROPID>, maxSets: nat, maxR: nat)
      modifies this
      ensures tpcsetCount == counts && tpcsetTPCs == table && ropCount == rops && ropPlanes == planes
      ensures tpcToTPCset == tpcMap && planeToROP == planeMap && maxTPCsets == maxSets && maxROPs == maxR
    {
      tpcsetCount, tpcsetTPCs, ropCount, ropPlanes := counts, table, rops, planes;
      tpcToTPCset, planeToROP, maxTPCsets, maxROPs := tpcMap, planeMap, maxSets, maxR;
    }

    /** `run`: the steps in their order, each on the results of the ones
     *  before.  The maxima stay in the object.  On success the six result
     *  containers are moved out into the returned results; the model leaves
     *  them empty, but promises nothing about them, since the code leaves
     *  them moved-from.  On failure the TPC-set containers of steps 1 and 2
     *  are filled and the inverse maps of step 5 are still empty; the
     *  readout-plane containers are left in a state this model does not
     *  promise. */
    method Run(cryostats: seq<seq<seq<Plane>>>, distance: (Plane, Plane) -> real) returns (r: Result<Results>)
      modifies this
      ensures r == Build(cryostats, distance)
      ensures maxTPCsets == MaxSize(AllTPCsets(CandidateROPs(cryostats)))
      ensures maxROPs == MaxCell(ProtoROPs(AllTPCsets(CandidateROPs(cryostats)), CandidateROPs(cryostats), maxTPCsets))
      ensures r.Err? ==> && tpcsetCount == SetCounts(AllTPCsets(CandidateROPs(cryostats)))
                         && tpcsetTPCs == TPCsetTable(AllTPCsets(CandidateROPs(cryostats)), maxTPCsets)
                         && tpcToTPCset == map[] && planeToROP == map[]
    {
      Clear();
      var allPlanesInROPs, allTPCsInTPCsets, maxSets, counts, table := TPCsetSteps(cryostats);
      EveryCandidateMatches(cryostats);
      var newMaxROPs;
      r, newMaxROPs := ROPsteps(allPlanesInROPs, allTPCsInTPCsets, maxSets, counts, table, distance);
      if r.Ok? {
        Store([], [], [], [], map[], map[], maxSets, newMaxROPs);
      } else {
        Store(counts, table, [], [], map[], map[], maxSets, newMaxROPs);
      }
    }
  }
}
