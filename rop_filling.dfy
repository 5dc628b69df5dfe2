/** `fillPlanesInROP` and `sortByNormalCoordinate` of `ROPandTPCsetBuildingAlg`:
 *  the readout planes of each TPC set are numbered by a `ROPnumberDispatcher`
 *  whose view blocks are booked from the readout planes of the first TPC
 *  set, sorted from the cathode outwards, and each readout plane is placed
 *  in the cell of its number.
 *
 *  The readout-plane table (`readout::ROPDataContainer`) is a nested
 *  sequence indexed by cryostat, TPC set and readout plane number. */
module ROPfilling {
  import opened Wrappers
  import opened GeoTypes
  import opened ROPnumberDispatching
  import opened Sorting

  const AlreadyAssigned := "Logic error: ROPID has already been assigned!"
  const ROPIDOutOfRange := "ROPID out of range"
  const EmptyROP := "ROP must contain planes."
  const NoTPCset := "no TPC set to take the readout plane numbers from"
  const NothingToSort := "no readout planes to sort"

  /** `width` empty readout-plane cells. */
  function EmptyCells(width: nat): (cells: seq<seq<Plane>>)
    ensures |cells| == width && forall r :: 0 <= r < width ==> cells[r] == []
  {
    seq(width, r => [])
  }

  // ---------------------------------------------------------------------------
  // One TPC set

  /** The `width` readout-plane cells of one TPC set, and the next number of
   *  each view afterwards: each readout plane of `rops` is handed the next
   *  number of its view and placed in that cell.  A view without a block
   *  fails the lookup (`std::map::at`), a number past the table is out of
   *  range, and a cell already filled is a logic error. */
  function FillSet(first: map<View, nat>, rops: seq<seq<Plane>>, width: nat): (r: Result<(seq<seq<Plane>>, map<View, nat>)>)
    ensures r.Ok? ==> |r.value.0| == width
  {
    if rops == [] then Ok((EmptyCells(width), first))
    else
      match FillSet(first, rops[..|rops| - 1], width)
      case Err(e) => Err(e)
      case Ok(state) =>
        var (cells, available) := state;
        var rop := rops[|rops| - 1];
        var v := CommonView(rop);
        if v !in available then Err("std::out_of_range: map::at")
        else if available[v] >= |cells| then Err(ROPIDOutOfRange)
        else if cells[available[v]] != [] then Err(AlreadyAssigned)
        else Ok((cells[available[v] := rop], available[v := available[v] + 1]))
  }

  /** Numbers that address distinct cells of a table `width` wide. */
  predicate Fits(ids: seq<nat>, width: nat)
  {
    (forall i :: 0 <= i < |ids| ==> ids[i] < width)
    && (forall i, j :: 0 <= i < j < |ids| ==> ids[i] != ids[j])
  }

  /** `cells` holds each readout plane of `rops` at its number, and nothing
   *  in the cells no readout plane was numbered for. */
  ghost predicate Placed(cells: seq<seq<Plane>>, rops: seq<seq<Plane>>, ids: seq<nat>)
  {
    |ids| == |rops|
    && (forall i :: 0 <= i < |rops| ==> ids[i] < |cells| && cells[ids[i]] == rops[i])
    && (forall k :: 0 <= k < |cells| && cells[k] != [] ==> k in ids)
  }

  /** Filling a TPC set succeeds exactly when the dispatcher hands out
   *  numbers that fit the table and do not repeat; then every readout plane
   *  sits at its number and the dispatcher state is the one after handing
   *  the numbers out. */
  lemma {:induction false} FillSetMeans(first: map<View, nat>, rops: seq<seq<Plane>>, width: nat)
    requires forall i :: 0 <= i < |rops| ==> rops[i] != []
    ensures FillSet(first, rops, width).Ok? <==> Assigned(first, rops).Ok? && Fits(Assigned(first, rops).value.0, width)
    ensures FillSet(first, rops, width).Ok? ==>
              && FillSet(first, rops, width).value.1 == Assigned(first, rops).value.1
              && Placed(FillSet(first, rops, width).value.0, rops, Assigned(first, rops).value.0)
  {
    if rops == [] {
      assert Placed(EmptyCells(width), rops, []);
    } else {
      var init, rop := rops[..|rops| - 1], rops[|rops| - 1];
      FillSetMeans(first, init, width);
      if FillSet(first, init, width).Ok? {
        FillSetStep(first, rops, width);
      } else if Assigned(first, rops).Ok? {
        var ids := Assigned(first, init).value.0;
        var x := Assigned(first, init).value.1[CommonView(rop)];
        assert Assigned(first, rops).value.0 == ids + [x];
        FitsPrefix(ids, x, width);
      }
    }
  }

  /** Dropping the last number keeps the rest fitting. */
  lemma {:induction false} FitsPrefix(ids: seq<nat>, x: nat, width: nat)
    ensures Fits(ids + [x], width) ==> Fits(ids, width)
  {
    assert forall i :: 0 <= i < |ids| ==> ids[i] == (ids + [x])[i];
  }

  lemma {:induction false} FillSetStep(first: map<View, nat>, rops: seq<seq<Plane>>, width: nat)
    requires rops != [] && forall i :: 0 <= i < |rops| ==> rops[i] != []
    requires var init := rops[..|rops| - 1];
             && FillSet(first, init, width).Ok?
             && Assigned(first, init).Ok? && Fits(Assigned(first, init).value.0, width)
             && FillSet(first, init, width).value.1 == Assigned(first, init).value.1
             && Placed(FillSet(first, init, width).value.0, init, Assigned(first, init).value.0)
    ensures FillSet(first, rops, width).Ok? <==> Assigned(first, rops).Ok? && Fits(Assigned(first, rops).value.0, width)
    ensures FillSet(first, rops, width).Ok? ==>
              && FillSet(first, rops, width).value.1 == Assigned(first, rops).value.1
              && Placed(FillSet(first, rops, width).value.0, rops, Assigned(first, rops).value.0)
  {
    var init, rop := rops[..|rops| - 1], rops[|rops| - 1];
    var (cells, available) := FillSet(first, init, width).value;
    var ids := Assigned(first, init).value.0;
    var v := CommonView(rop);
    FillSetNext(first, rops, width);
    if v in available {
      var id := available[v];
      AssignedNext(first, rops);
      if id < |cells| && cells[id] == [] {
        assert init + [rop] == rops;
        PlacedOne(cells, init, ids, rop, id);
      } else {
        FitsNot(cells, init, ids, id, width);
      }
    }
  }

  /** One more readout plane, for a view with numbers left, gets the next
   *  number of that view. */
  lemma {:induction false} AssignedNext(first: map<View, nat>, rops: seq<seq<Plane>>)
    requires rops != []
    requires var init := rops[..|rops| - 1];
             Assigned(first, init).Ok? && CommonView(rops[|rops| - 1]) in Assigned(first, init).value.1
    ensures var init, v := rops[..|rops| - 1], CommonView(rops[|rops| - 1]);
            var (ids, available) := Assigned(first, init).value;
            Assigned(first, rops) == Ok((ids + [available[v]], available[v := available[v] + 1]))
  {
  }

  /** One more readout plane goes into the cell of its number when that
   *  cell exists and is free, and fails the filling otherwise. */
  lemma {:induction false} FillSetNext(first: map<View, nat>, rops: seq<seq<Plane>>, width: nat)
    requires rops != [] && FillSet(first, rops[..|rops| - 1], width).Ok?
    ensures var rop := rops[|rops| - 1];
            var v := CommonView(rop);
            var (cells, available) := FillSet(first, rops[..|rops| - 1], width).value;
            if v in available && available[v] < |cells| && cells[available[v]] == []
            then FillSet(first, rops, width) == Ok((cells[available[v] := rop], available[v := available[v] + 1]))
            else FillSet(first, rops, width).Err?
  {
  }

  /** A number past the table or whose cell is taken does not fit. */
  lemma {:induction false} FitsNot(cells: seq<seq<Plane>>, rops: seq<seq<Plane>>, ids: seq<nat>, id: nat, width: nat)
    requires Placed(cells, rops, ids) && |cells| == width
    requires id >= |cells| || cells[id] != []
    ensures !Fits(ids + [id], width)
  {
    if id < |cells| {
      PlacedConflict(cells, rops, ids, id);
    } else {
      assert (ids + [id])[|ids|] == id;
    }
  }

  /** A number whose cell is taken repeats an earlier one. */
  lemma {:induction false} PlacedConflict(cells: seq<seq<Plane>>, rops: seq<seq<Plane>>, ids: seq<nat>, id: nat)
    requires Placed(cells, rops, ids)
    requires id < |cells| && cells[id] != []
    ensures !Fits(ids + [id], |cells|)
  {
    var i :| 0 <= i < |ids| && ids[i] == id;
    assert (ids + [id])[i] == (ids + [id])[|ids|];
  }

  /** Placing a readout plane in a free cell extends the placement. */
  lemma {:induction false} PlacedOne(cells: seq<seq<Plane>>, rops: seq<seq<Plane>>, ids: seq<nat>, rop: seq<Plane>, id: nat)
    requires Placed(cells, rops, ids) && Fits(ids, |cells|)
    requires forall i :: 0 <= i < |rops| ==> rops[i] != []
    requires id < |cells| && cells[id] == []
    ensures Fits(ids + [id], |cells|)
    ensures Placed(cells[id := rop], rops + [rop], ids + [id])
  {
    forall i | 0 <= i < |ids|
      ensures ids[i] != id
    {
      assert cells[ids[i]] == rops[i];
    }
    var cells', rops', ids' := cells[id := rop], rops + [rop], ids + [id];
    forall i | 0 <= i < |rops'|
      ensures ids'[i] < |cells'| && cells'[ids'[i]] == rops'[i]
    {
      if i < |rops| {
        assert ids'[i] == ids[i] && rops'[i] == rops[i];
      }
    }
    forall k | 0 <= k < |cells'| && cells'[k] != []
      ensures k in ids'
    {
      if k != id {
        assert k in ids;
      }
    }
  }

  /** Once a TPC set fails to fill, the readout planes after the failing
   *  one change nothing. */
  lemma {:induction false} FillSetStaysFailed(first: map<View, nat>, rops: seq<seq<Plane>>, width: nat, k: nat)
    requires k <= |rops| && FillSet(first, rops[..k], width).Err?
    ensures FillSet(first, rops, width) == FillSet(first, rops[..k], width)
    decreases |rops| - k
  {
    if k < |rops| {
      assert rops[..k + 1][..k] == rops[..k];
      FillSetStaysFailed(first, rops, width, k + 1);
    } else {
      assert rops[..k] == rops;
    }
  }

  // ---------------------------------------------------------------------------
  // Whole table

  /** The readout-plane cells of the TPC sets `sets` of one cryostat, in
   *  order; the first failure is the result. */
  function FillRow(first: map<View, nat>, sets: seq<seq<seq<Plane>>>, width: nat): (r: Result<seq<seq<seq<Plane>>>>)
    ensures r.Ok? ==> |r.value| == |sets|
  {
    if sets == [] then Ok([])
    else
      match FillRow(first, sets[..|sets| - 1], width)
      case Err(e) => Err(e)
      case Ok(row) =>
        match FillSet(first, sets[|sets| - 1], width)
        case Err(e) => Err(e)
        case Ok(state) => Ok(row + [state.0])
  }

  /** Each cell of a filled row is its TPC set filled on its own. */
  lemma {:induction false} FillRowIsPerSet(first: map<View, nat>, sets: seq<seq<seq<Plane>>>, width: nat)
    ensures FillRow(first, sets, width).Ok? <==> forall s :: 0 <= s < |sets| ==> FillSet(first, sets[s], width).Ok?
    ensures FillRow(first, sets, width).Ok? ==>
              forall s :: 0 <= s < |sets| ==> FillRow(first, sets, width).value[s] == FillSet(first, sets[s], width).value.0
  {
    if sets != [] {
      var init := sets[..|sets| - 1];
      FillRowIsPerSet(first, init, width);
      assert forall s :: 0 <= s < |init| ==> init[s] == sets[s];
    }
  }

  lemma {:induction false} FillRowStaysFailed(first: map<View, nat>, sets: seq<seq<seq<Plane>>>, width: nat, k: nat)
    requires k <= |sets| && FillRow(first, sets[..k], width).Err?
    ensures FillRow(first, sets, width) == FillRow(first, sets[..k], width)
    decreases |sets| - k
  {
    if k < |sets| {
      assert sets[..k + 1][..k] == sets[..k];
      FillRowStaysFailed(first, sets, width, k + 1);
    } else {
      assert sets[..k] == sets;
    }
  }

  /** The shape of the inputs of the fill: per cryostat, a TPC-set count no
   *  larger than the row of readout planes and the table width. */
  predicate Counted(tpcsetCount: seq<nat>, proto: seq<seq<seq<seq<Plane>>>>, setWidth: nat)
  {
    |tpcsetCount| == |proto|
    && forall c :: 0 <= c < |proto| ==> tpcsetCount[c] <= |proto[c]| && tpcsetCount[c] <= setWidth
  }

  /** The readout-plane table: for each cryostat, its TPC sets filled in
   *  order and the rest of its `setWidth` cells left empty. */
  function FillTable(first: map<View, nat>, tpcsetCount: seq<nat>, proto: seq<seq<seq<seq<Plane>>>>, setWidth: nat, width: nat)
    : (r: Result<seq<seq<seq<seq<Plane>>>>>)
    requires Counted(tpcsetCount, proto, setWidth)
    ensures r.Ok? ==> |r.value| == |proto|
  {
    if proto == [] then Ok([])
    else
      var c := |proto| - 1;
      match FillTable(first, tpcsetCount[..c], proto[..c], setWidth, width)
      case Err(e) => Err(e)
      case Ok(table) =>
        match FillRow(first, proto[c][..tpcsetCount[c]], width)
        case Err(e) => Err(e)
        case Ok(row) => Ok(table + [row + seq(setWidth - tpcsetCount[c], s => EmptyCells(width))])
  }

  lemma {:induction false} FillTableStaysFailed(first: map<View, nat>, tpcsetCount: seq<nat>, proto: seq<seq<seq<seq<Plane>>>>,
                                                setWidth: nat, width: nat, k: nat)
    requires Counted(tpcsetCount, proto, setWidth)
    requires k <= |proto| && FillTable(first, tpcsetCount[..k], proto[..k], setWidth, width).Err?
    ensures FillTable(first, tpcsetCount, proto, setWidth, width) == FillTable(first, tpcsetCount[..k], proto[..k], setWidth, width)
    decreases |proto| - k
  {
    if k < |proto| {
      assert proto[..k + 1][..k] == proto[..k];
      assert tpcsetCount[..k + 1][..k] == tpcsetCount[..k];
      FillTableStaysFailed(first, tpcsetCount, proto, setWidth, width, k + 1);
    } else {
      assert proto[..k] == proto && tpcsetCount[..k] == tpcsetCount;
    }
  }

  /** `table` has the dimensions of the readout-plane container (one row
   *  per cryostat, `setWidth` TPC sets) and each TPC set within the count
   *  is that set filled on its own; the others are empty. */
  ghost predicate PerSet(table: seq<seq<seq<seq<Plane>>>>, first: map<View, nat>, tpcsetCount: seq<nat>,
                         proto: seq<seq<seq<seq<Plane>>>>, setWidth: nat, width: nat)
    requires Counted(tpcsetCount, proto, setWidth)
  {
    |table| == |proto|
    && (forall c :: 0 <= c < |proto| ==> |table[c]| == setWidth)
    && (forall c, s :: 0 <= c < |proto| && 0 <= s < tpcsetCount[c] ==>
          FillSet(first, proto[c][s], width).Ok? && table[c][s] == FillSet(first, proto[c][s], width).value.0)
    && (forall c, s :: 0 <= c < |proto| && tpcsetCount[c] <= s < setWidth ==> table[c][s] == EmptyCells(width))
  }

  /** A filled table holds each TPC set filled on its own. */
  lemma {:induction false} FillTableIsPerSet(first: map<View, nat>, tpcsetCount: seq<nat>, proto: seq<seq<seq<seq<Plane>>>>,
                                             setWidth: nat, width: nat)
    requires Counted(tpcsetCount, proto, setWidth)
    requires FillTable(first, tpcsetCount, proto, setWidth, width).Ok?
    ensures PerSet(FillTable(first, tpcsetCount, proto, setWidth, width).value, first, tpcsetCount, proto, setWidth, width)
  {
    if proto != [] {
      var n := |proto| - 1;
      FillTableIsPerSet(first, tpcsetCount[..n], proto[..n], setWidth, width);
      PerSetAppend(FillTable(first, tpcsetCount[..n], proto[..n], setWidth, width).value,
                   FillRow(first, proto[n][..tpcsetCount[n]], width).value, first, tpcsetCount, proto, setWidth, width);
    }
  }

  lemma {:induction false} PerSetAppend(table: seq<seq<seq<seq<Plane>>>>, row: seq<seq<seq<Plane>>>, first: map<View, nat>, tpcsetCount: seq<nat>,
                     proto: seq<seq<seq<seq<Plane>>>>, setWidth: nat, width: nat)
    requires Counted(tpcsetCount, proto, setWidth) && proto != []
    requires var n := |proto| - 1;
             && PerSet(table, first, tpcsetCount[..n], proto[..n], setWidth, width)
             && FillRow(first, proto[n][..tpcsetCount[n]], width) == Ok(row)
    ensures var n := |proto| - 1;
            PerSet(table + [row + seq(setWidth - tpcsetCount[n], s => EmptyCells(width))], first, tpcsetCount, proto, setWidth, width)
  {
    var n := |proto| - 1;
    var sets := proto[n][..tpcsetCount[n]];
    var padded := row + seq(setWidth - tpcsetCount[n], s => EmptyCells(width));
    var table' := table + [padded];
    PaddedRow(first, sets, row, setWidth, width);
    forall c | 0 <= c < n
      ensures table'[c] == table[c] && proto[c] == proto[..n][c] && tpcsetCount[c] == tpcsetCount[..n][c]
    {
    }
    assert table'[n] == padded;
    forall s | 0 <= s < tpcsetCount[n]
      ensures sets[s] == proto[n][s]
    {
    }
  }

  /** A filled row of TPC sets padded with empty ones up to `setWidth`. */
  lemma {:induction false} PaddedRow(first: map<View, nat>, sets: seq<seq<seq<Plane>>>, row: seq<seq<seq<Plane>>>, setWidth: nat, width: nat)
    requires FillRow(first, sets, width) == Ok(row) && |sets| <= setWidth
    ensures var padded := row + seq(setWidth - |sets|, s => EmptyCells(width));
            && |padded| == setWidth
            && (forall s :: 0 <= s < |sets| ==>
                  FillSet(first, sets[s], width).Ok? && padded[s] == FillSet(first, sets[s], width).value.0)
            && (forall s :: |sets| <= s < setWidth ==> padded[s] == EmptyCells(width))
  {
    FillRowIsPerSet(first, sets, width);
  }

  /** The number of readout planes of each TPC set, zero past the count. */
  function ROPcountTable(tpcsetCount: seq<nat>, proto: seq<seq<seq<seq<Plane>>>>, setWidth: nat): (table: seq<seq<nat>>)
    requires Counted(tpcsetCount, proto, setWidth)
    ensures |table| == |proto|
    ensures forall c :: 0 <= c < |proto| ==> |table[c]| == setWidth
  {
    seq(|proto|, c requires 0 <= c < |proto| =>
      seq(setWidth, s requires 0 <= s < setWidth => if s < tpcsetCount[c] then |proto[c][s]| else 0))
  }

  // ---------------------------------------------------------------------------
  // Sorting the reference TPC set

  /** The sorting key of `sortByNormalCoordinate`: readout planes whose first
   *  wire plane lies farther along the normal of `reference` come first. */
  function NormalKey(distance: (Plane, Plane) -> real, reference: Plane): (key: seq<Plane> -> real)
    ensures forall rop :: rop != [] ==> key(rop) == -distance(reference, rop[0])
  {
    rop => if rop == [] then 0.0 else -distance(reference, rop[0])
  }

  /** `sortByNormalCoordinate`: the readout planes, none of which may be
   *  empty, in order of decreasing distance of their first wire plane from
   *  the first wire plane of the first readout plane; stable.  The distance
   *  (`PlaneGeo::DistanceFromPlane` of the plane centre) is a parameter. */
  function NormalSorted(rops: seq<seq<Plane>>, distance: (Plane, Plane) -> real): Result<seq<seq<Plane>>>
  {
    if rops == [] then Err(NothingToSort)
    else if exists i :: 0 <= i < |rops| && rops[i] == [] then Err(EmptyROP)
    else Ok(OrderBy(rops, NormalKey(distance, rops[0][0])))
  }

  /** Sorting keeps the readout planes, puts the one farthest from the
   *  cathode-side reference first, and keeps the order of equally far
   *  readout planes. */
  lemma {:induction false} NormalSortedOrder(rops: seq<seq<Plane>>, distance: (Plane, Plane) -> real)
    requires NormalSorted(rops, distance).Ok?
    ensures var sorted := NormalSorted(rops, distance).value;
            && multiset(sorted) == multiset(rops)
            && (forall i :: 0 <= i < |sorted| ==> sorted[i] != [])
            && (forall i, j :: 0 <= i < j < |sorted| ==> distance(rops[0][0], sorted[i][0]) >= distance(rops[0][0], sorted[j][0]))
  {
    var key := NormalKey(distance, rops[0][0]);
    var sorted := OrderBy(rops, key);
    forall i | 0 <= i < |sorted|
      ensures sorted[i] != []
    {
      assert sorted[i] in multiset(rops);
    }
  }

  /** The ordering among equally far readout planes is their input order. */
  lemma {:induction false} NormalSortedIsStable(rops: seq<seq<Plane>>, distance: (Plane, Plane) -> real, k: real)
    requires NormalSorted(rops, distance).Ok?
    ensures var key := NormalKey(distance, rops[0][0]);
            WithKey(NormalSorted(rops, distance).value, key, k) == WithKey(rops, key, k)
  {
    OrderByIsStable(rops, NormalKey(distance, rops[0][0]), k);
  }

  /** `sortByNormalCoordinate` with its `checkNormalDirection` scan for empty
   *  readout planes. */
  method SortByNormalCoordinate(rops: seq<seq<Plane>>, distance: (Plane, Plane) -> real) returns (r: Result<seq<seq<Plane>>>)
    ensures r == NormalSorted(rops, distance)
  {
    if |rops| == 0 {
      return Err(NothingToSort);
    }
    for i := 0 to |rops|
      invariant forall j :: 0 <= j < i ==> rops[j] != []
    {
      if rops[i] == [] {
        return Err(EmptyROP);
      }
    }
    var refPlane := rops[0][0];
    return Ok(OrderBy(rops, NormalKey(distance, refPlane)));
  }

  /** The view of the readout plane nearest the cathode in the first TPC set
   *  books the block of numbers starting at 0. */
  lemma {:induction false} CathodeViewFirst(rops: seq<seq<Plane>>, distance: (Plane, Plane) -> real)
    requires NormalSorted(rops, distance).Ok?
    ensures var sorted := NormalSorted(rops, distance).value;
            && PreferredRanges(sorted).Ok?
            && CommonView(sorted[0]) in PreferredRanges(sorted).value
            && PreferredRanges(sorted).value[CommonView(sorted[0])] == 0
  {
    var sorted := NormalSorted(rops, distance).value;
    NormalSortedOrder(rops, distance);
    BookingSucceeds(sorted);
    BookingFirstAtZero(sorted, ViewCounts(sorted));
  }

  // ---------------------------------------------------------------------------
  // When numbering cannot clash

  /** A TPC set with no more readout planes on any view than the reference
   *  TPC set is numbered without a clash, in a table as wide as the
   *  reference has readout planes. */
  lemma {:induction false} ConsistentSetFills(reference: seq<seq<Plane>>, rops: seq<seq<Plane>>, width: nat)
    requires forall i :: 0 <= i < |reference| ==> reference[i] != []
    requires forall i :: 0 <= i < |rops| ==> rops[i] != []
    requires forall v :: CountOfView(rops, v) <= CountOfView(reference, v)
    requires |reference| <= width
    ensures PreferredRanges(reference).Ok?
    ensures FillSet(PreferredRanges(reference).value, rops, width).Ok?
  {
    var counts := ViewCounts(reference);
    BookingSucceeds(reference);
    var b := Book(reference, counts).value;
    var first := b.first;
    BookingViews(reference, counts);
    forall i | 0 <= i < |rops|
      ensures CommonView(rops[i]) in first
    {
      var v := CommonView(rops[i]);
      CountPositive(rops, i);
      CountWitness(reference, v);
    }
    AssignedOk(first, rops);
    DistinctNumbersInTPCset(reference, rops);
    AssignedHandsOut(first, rops);
    BookingBlocks(reference, counts);
    BookedWithin(reference);
    var (ids, available) := Assigned(first, rops).value;
    forall i | 0 <= i < |ids|
      ensures ids[i] < width
    {
      var v := CommonView(rops[i]);
      ViewCountsAreCounts(reference, v);
      CountPositive(rops, i);
    }
    FillSetMeans(first, rops, width);
  }

  /** The table fills when each of its TPC sets does. */
  lemma {:induction false} FillTableOk(first: map<View, nat>, tpcsetCount: seq<nat>, proto: seq<seq<seq<seq<Plane>>>>,
                                       setWidth: nat, width: nat)
    requires Counted(tpcsetCount, proto, setWidth)
    requires forall c, s :: 0 <= c < |proto| && 0 <= s < tpcsetCount[c] ==> FillSet(first, proto[c][s], width).Ok?
    ensures FillTable(first, tpcsetCount, proto, setWidth, width).Ok?
  {
    if proto != [] {
      var n := |proto| - 1;
      assert forall c :: 0 <= c < n ==> proto[..n][c] == proto[c] && tpcsetCount[..n][c] == tpcsetCount[c];
      FillTableOk(first, tpcsetCount[..n], proto[..n], setWidth, width);
      FillRowIsPerSet(first, proto[n][..tpcsetCount[n]], width);
    }
  }

  /** The numbering of `fillPlanesInROP` never clashes when every TPC set
   *  has, view by view, no more readout planes than the first one (the
   *  condition `ROPnumberDispatcher` documents), the first TPC set has
   *  readout planes, none is empty and the table is as wide as the first
   *  TPC set. */
  lemma {:induction false} FilledROPsSucceed(tpcsetCount: seq<nat>, proto: seq<seq<seq<seq<Plane>>>>, setWidth: nat, width: nat,
                          distance: (Plane, Plane) -> real)
    requires Counted(tpcsetCount, proto, setWidth)
    requires proto != [] && proto[0] != [] && proto[0][0] != []
    requires forall i :: 0 <= i < |proto[0][0]| ==> proto[0][0][i] != []
    requires forall c, s, i :: 0 <= c < |proto| && 0 <= s < tpcsetCount[c] && 0 <= i < |proto[c][s]| ==> proto[c][s][i] != []
    requires forall c, s, v :: 0 <= c < |proto| && 0 <= s < tpcsetCount[c] ==> CountOfView(proto[c][s], v) <= CountOfView(proto[0][0], v)
    requires |proto[0][0]| <= width
    ensures FilledROPs(tpcsetCount, proto, setWidth, width, distance).Ok?
  {
    var reference := proto[0][0];
    var sorted := NormalSorted(reference, distance).value;
    NormalSortedOrder(reference, distance);
    forall v
      ensures CountOfView(sorted, v) == CountOfView(reference, v)
    {
      CountOfViewPermutation(sorted, reference, v);
    }
    forall c, s | 0 <= c < |proto| && 0 <= s < tpcsetCount[c]
      ensures PreferredRanges(sorted).Ok? && FillSet(PreferredRanges(sorted).value, proto[c][s], width).Ok?
    {
      ConsistentSetFills(sorted, proto[c][s], width);
    }
    BookingSucceeds(sorted);
    FillTableOk(PreferredRanges(sorted).value, tpcsetCount, proto, setWidth, width);
  }

  // ---------------------------------------------------------------------------
  // `fillPlanesInROP`

  /** The readout-plane counts and the readout-plane table of
   *  `fillPlanesInROP`, from the readout planes assigned to each TPC set
   *  (`proto`, a table `setWidth` wide) and the number of TPC sets of each
   *  cryostat; the table is `width` readout planes wide.  The first TPC set
   *  must exist. */
  function FilledROPs(tpcsetCount: seq<nat>, proto: seq<seq<seq<seq<Plane>>>>, setWidth: nat, width: nat,
                      distance: (Plane, Plane) -> real): Result<(seq<seq<nat>>, seq<seq<seq<seq<Plane>>>>)>
    requires Counted(tpcsetCount, proto, setWidth)
  {
    if proto == [] || proto[0] == [] then Err(NoTPCset)
    else
      match NormalSorted(proto[0][0], distance)
      case Err(e) => Err(e)
      case Ok(sorted) =>
        match PreferredRanges(sorted)
        case Err(e) => Err(e)
        case Ok(first) =>
          match FillTable(first, tpcsetCount, proto, setWidth, width)
          case Err(e) => Err(e)
          case Ok(planes) => Ok((ROPcountTable(tpcsetCount, proto, setWidth), planes))
  }

  /** The inner loop of `fillPlanesInROP`: the readout planes of one TPC
   *  set numbered by `dispatcher`, freshly reset, and placed in `width`
   *  cells. */
  method FillTPCset(dispatcher: ROPnumberDispatcher, rops: seq<seq<Plane>>, width: nat)
    returns (r: Result<seq<seq<Plane>>>)
    requires dispatcher.availableROPno == dispatcher.firstROPno
    modifies dispatcher
    ensures FillSet(dispatcher.firstROPno, rops, width).Ok? ==>
              r == Ok(FillSet(dispatcher.firstROPno, rops, width).value.0)
    ensures FillSet(dispatcher.firstROPno, rops, width).Err? ==>
              r == Err(FillSet(dispatcher.firstROPno, rops, width).error)
  {
    var cells := EmptyCells(width);
    for k := 0 to |rops|
      invariant FillSet(dispatcher.firstROPno, rops[..k], width) == Ok((cells, dispatcher.availableROPno))
    {
      assert rops[..k + 1][..k] == rops[..k];
      var id := dispatcher.AssignID(rops[k]);
      if id.Err? || id.value >= |cells| || cells[id.value] != [] {
        FillSetStaysFailed(dispatcher.firstROPno, rops, width, k + 1);
        return Err(if id.Err? then id.error else if id.value >= |cells| then ROPIDOutOfRange else AlreadyAssigned);
      }
      cells := cells[id.value := rops[k]];
    }
    assert rops[..|rops|] == rops;
    return Ok(cells);
  }

  /** The loop of `fillPlanesInROP` over the TPC sets of cryostat `c`: each
   *  TPC set is served by `dispatcher` from the start of every block; its
   *  readout-plane count is recorded as well. */
  method FillCryostat(dispatcher: ROPnumberDispatcher, c: nat, sets: seq<seq<seq<Plane>>>, width: nat)
    returns (counts: seq<nat>, r: Result<seq<seq<seq<Plane>>>>)
    modifies dispatcher
    ensures |counts| == |sets| && forall s :: 0 <= s < |sets| ==> counts[s] == |sets[s]|
    ensures r == FillRow(dispatcher.firstROPno, sets, width)
  {
    counts := [];
    var row: seq<seq<seq<Plane>>> := [];
    for s := 0 to |sets|
      invariant |counts| == s && forall k :: 0 <= k < s ==> counts[k] == |sets[k]|
      invariant FillRow(dispatcher.firstROPno, sets[..s], width) == Ok(row)
    {
      assert sets[..s + 1][..s] == sets[..s];
      counts := counts + [|sets[s]|];
      dispatcher.SetTPCset(TPCsetID(c, s));
      var cells := FillTPCset(dispatcher, sets[s], width);
      if cells.Err? {
        FillRowStaysFailed(dispatcher.firstROPno, sets, width, s + 1);
        counts := seq(|sets|, k requires 0 <= k < |sets| => |sets[k]|);
        return counts, Err(cells.error);
      }
      row := row + [cells.value];
    }
    assert sets[..|sets|] == sets;
    return counts, Ok(row);
  }

  lemma {:induction false} ROPcountStep(tpcsetCount: seq<nat>, proto: seq<seq<seq<seq<Plane>>>>, setWidth: nat, c: nat, counts: seq<nat>)
    requires Counted(tpcsetCount, proto, setWidth) && c < |proto|
    requires |counts| == tpcsetCount[c] && forall s :: 0 <= s < tpcsetCount[c] ==> counts[s] == |proto[c][s]|
    ensures Counted(tpcsetCount[..c], proto[..c], setWidth) && Counted(tpcsetCount[..c + 1], proto[..c + 1], setWidth)
    ensures ROPcountTable(tpcsetCount[..c + 1], proto[..c + 1], setWidth)
            == ROPcountTable(tpcsetCount[..c], proto[..c], setWidth) + [counts + seq(setWidth - tpcsetCount[c], s => 0)]
  {
    var before := ROPcountTable(tpcsetCount[..c], proto[..c], setWidth);
    var after := ROPcountTable(tpcsetCount[..c + 1], proto[..c + 1], setWidth);
    assert forall k :: 0 <= k < c ==> after[k] == before[k];
    assert after[c] == counts + seq(setWidth - tpcsetCount[c], s => 0);
  }

  lemma {:induction false} FillTableStep(first: map<View, nat>, tpcsetCount: seq<nat>, proto: seq<seq<seq<seq<Plane>>>>,
                      setWidth: nat, width: nat, c: nat)
    requires Counted(tpcsetCount, proto, setWidth) && c < |proto|
    ensures Counted(tpcsetCount[..c], proto[..c], setWidth) && Counted(tpcsetCount[..c + 1], proto[..c + 1], setWidth)
    ensures FillTable(first, tpcsetCount[..c + 1], proto[..c + 1], setWidth, width)
            == match FillTable(first, tpcsetCount[..c], proto[..c], setWidth, width)
               case Err(e) => Err(e)
               case Ok(table) =>
                 match FillRow(first, proto[c][..tpcsetCount[c]], width)
                 case Err(e) => Err(e)
                 case Ok(row) => Ok(table + [row + seq(setWidth - tpcsetCount[c], s => EmptyCells(width))])
  {
    assert proto[..c + 1][..c] == proto[..c] && tpcsetCount[..c + 1][..c] == tpcsetCount[..c];
  }

  /** The loops of `fillPlanesInROP` over cryostats and their TPC sets. */
  method FillCryostats(dispatcher: ROPnumberDispatcher, tpcsetCount: seq<nat>, proto: seq<seq<seq<seq<Plane>>>>,
                       setWidth: nat, width: nat)
    returns (r: Result<(seq<seq<nat>>, seq<seq<seq<seq<Plane>>>>)>)
    requires Counted(tpcsetCount, proto, setWidth)
    modifies dispatcher
    ensures FillTable(dispatcher.firstROPno, tpcsetCount, proto, setWidth, width).Err? ==>
              r == Err(FillTable(dispatcher.firstROPno, tpcsetCount, proto, setWidth, width).error)
    ensures FillTable(dispatcher.firstROPno, tpcsetCount, proto, setWidth, width).Ok? ==>
              r == Ok((ROPcountTable(tpcsetCount, proto, setWidth), FillTable(dispatcher.firstROPno, tpcsetCount, proto, setWidth, width).value))
  {
    var first := dispatcher.firstROPno;
    var ropCount: seq<seq<nat>> := [];
    var ropPlanes: seq<seq<seq<seq<Plane>>>> := [];
    for c := 0 to |proto|
      invariant Counted(tpcsetCount[..c], proto[..c], setWidth)
      invariant FillTable(first, tpcsetCount[..c], proto[..c], setWidth, width) == Ok(ropPlanes)
      invariant ropCount == ROPcountTable(tpcsetCount[..c], proto[..c], setWidth)
    {
      var counts, row := FillCryostat(dispatcher, c, proto[c][..tpcsetCount[c]], width);
      ROPcountStep(tpcsetCount, proto, setWidth, c, counts);
      FillTableStep(first, tpcsetCount, proto, setWidth, width, c);
      if row.Err? {
        FillTableStaysFailed(first, tpcsetCount, proto, setWidth, width, c + 1);
        return Err(row.error);
      }
      ropPlanes := ropPlanes + [row.value + seq(setWidth - tpcsetCount[c], s => EmptyCells(width))];
      ropCount := ropCount + [counts + seq(setWidth - tpcsetCount[c], s => 0)];
    }
    assert proto[..|proto|] == proto && tpcsetCount[..|proto|] == tpcsetCount;
    return Ok((ropCount, ropPlanes));
  }

  /** `fillPlanesInROP`: the view blocks are booked from the readout planes
   *  of the first TPC set sorted by normal coordinate, then every TPC set of
   *  every cryostat is numbered and placed in order. */
  method FillPlanesInROP(tpcsetCount: seq<nat>, proto: seq<seq<seq<seq<Plane>>>>, setWidth: nat, width: nat,
                         distance: (Plane, Plane) -> real)
    returns (r: Result<(seq<seq<nat>>, seq<seq<seq<seq<Plane>>>>)>)
    requires Counted(tpcsetCount, proto, setWidth)
    ensures r == FilledROPs(tpcsetCount, proto, setWidth, width, distance)
  {
    if |proto| == 0 || |proto[0]| == 0 {
      return Err(NoTPCset);
    }
    var sortedTPCset0 := SortByNormalCoordinate(proto[0][0], distance);
    if sortedTPCset0.Err? {
      return Err(sortedTPCset0.error);
    }
    var firstROPno := PreferredROPrangesByView(sortedTPCset0.value);
    if firstROPno.Err? {
      return Err(firstROPno.error);
    }
    var dispatcher := new ROPnumberDispatcher(firstROPno.value, TPCsetID(0, 0));
    r := FillCryostats(dispatcher, tpcsetCount, proto, setWidth, width);
  }
}
