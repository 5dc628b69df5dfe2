/** The channel numbering of the ICARUS TPC readout (`fillChannelToWireMap`,
 *  the same in `ICARUSWireReadoutGeom`, `WireReadoutGeomICARUS` and
 *  `ICARUSChannelMapAlg`), as functions on values:
 *  - readout planes take consecutive blocks of channels from channel 0,
 *    cryostat by cryostat, TPC set by TPC set;
 *  - a block is `pre` wireless channels, then the channels of the wires of
 *    its wire planes, then `post` wireless channels;
 *  - each later wire plane of a readout plane starts so that its wire
 *    nearest to the last wire of the plane before it gets that wire's
 *    channel.
 *  Channel numbers are unbounded integers here. */
module ChannelLayout {
  import opened Wrappers
  import opened GeoTypes
  import opened ReadoutMaps
  import BinaryDump
  import Builder = ROPandTPCsetBuildingAlgorithm

  /** `raw::InvalidChannelID`: the largest 32-bit channel number. */
  const InvalidChannelID: nat := 0xFFFF_FFFF

  /** `ChannelRange_t`: the channels from `begin` up to, not including, `end`. */
  datatype ChannelRange = ChannelRange(begin: int, end: int)
  {
    predicate Contains(channel: int)
    {
      begin <= channel < end
    }
  }

  /** `PlaneInfo_t`: the channels of a wire plane and its readout plane. */
  datatype PlaneInfo = PlaneInfo(channelRange: ChannelRange, rop: ROPID)
  {
    function FirstChannel(): int
    {
      channelRange.begin
    }

    function LastChannel(): int
    {
      channelRange.end - 1
    }

    function EndChannel(): int
    {
      channelRange.end
    }

    /** The channel of wire `w` of the plane. */
    function WireChannel(w: int): int
    {
      FirstChannel() + w
    }
  }

  /** A plane holds its channels from the first to the last one, and not
   *  its end channel. */
  lemma {:induction false} PlaneInfoBounds(info: PlaneInfo, channel: int)
    ensures info.channelRange.Contains(channel) <==> info.FirstChannel() <= channel <= info.LastChannel()
    ensures !info.channelRange.Contains(info.EndChannel())
    ensures info.EndChannel() == info.LastChannel() + 1
  {
  }

  // ---------------------------------------------------------------------------
  // Plane types and signal types

  /** `PlaneType_t`, a `std::size_t`. */
  type PlaneType = nat

  const FirstInductionType: PlaneType := 0
  const SecondInductionType: PlaneType := 1
  const CollectionType: PlaneType := 2
  /** `kUnknownType`: the largest 64-bit value. */
  const UnknownType: PlaneType := 0xFFFF_FFFF_FFFF_FFFF

  /** `findPlaneType`: the type of a readout plane is the plane number of its
   *  first wire plane, when that is one of the three known types. */
  function FindPlaneType(planes: seq<Plane>): (planeType: PlaneType)
    ensures planeType < 3 <==> planes != [] && planes[0].id.plane < 3
    ensures planeType < 3 ==> planeType == planes[0].id.plane
    ensures planeType >= 3 ==> planeType == UnknownType
  {
    var planeTypes := [FirstInductionType, SecondInductionType, CollectionType];
    if planes == [] then UnknownType
    else if planes[0].id.plane < |planeTypes| then planeTypes[planes[0].id.plane]
    else UnknownType
  }

  /** `geo::SigType_t`. */
  datatype SigType = Induction | Collection | MysteryType

  /** The signal type of a readout plane type (`SignalTypeForChannelImpl`). */
  function SignalTypeOf(planeType: PlaneType): (sigType: SigType)
    ensures sigType == Induction <==> planeType == FirstInductionType || planeType == SecondInductionType
    ensures sigType == Collection <==> planeType == CollectionType
  {
    if planeType == FirstInductionType || planeType == SecondInductionType then Induction
    else if planeType == CollectionType then Collection
    else MysteryType
  }

  /** `PlaneTypeName`. */
  function PlaneTypeName(planeType: PlaneType): (name: string)
    ensures planeType == CollectionType ==> name == "collection induction"
    ensures planeType != FirstInductionType && planeType != SecondInductionType && planeType != CollectionType
            && planeType != UnknownType
            ==> name == "unsupported (" + BinaryDump.DecimalText(planeType) + ")"
  {
    if planeType == FirstInductionType then "first induction"
    else if planeType == SecondInductionType then "second induction"
    else if planeType == CollectionType then "collection induction"
    else if planeType == UnknownType then "unknown"
    else "unsupported (" + BinaryDump.DecimalText(planeType) + ")"
  }

  /** The three plane types and the unknown type have names of their own,
   *  which no other value shares. */
  lemma {:induction false} PlaneTypeNamesDiffer(known: PlaneType, other: PlaneType)
    requires known < 3 || known == UnknownType
    requires other != known
    ensures PlaneTypeName(known) != PlaneTypeName(other)
  {
    var name := PlaneTypeName(known);
    assert |name| > 2;
    if !(other < 3 || other == UnknownType) {
      var otherName := PlaneTypeName(other);
      assert otherName[2] == 's';
      assert name[2] != 's';
    }
  }

  // ---------------------------------------------------------------------------
  // Wireless channels

  /** The `WirelessChannels` configuration table; every entry is 0 unless
   *  configured. */
  datatype WirelessChannelConfig = WirelessChannelConfig(
    firstInductionPre: nat, firstInductionPost: nat,
    secondInductionEvenPre: nat, secondInductionEvenPost: nat,
    secondInductionOddPre: nat, secondInductionOddPost: nat,
    collectionEvenPre: nat, collectionEvenPost: nat,
    collectionOddPre: nat, collectionOddPost: nat)

  const DefaultWirelessChannels: WirelessChannelConfig := WirelessChannelConfig(0, 0, 0, 0, 0, 0, 0, 0, 0, 0)

  /** `WirelessChannelCounts_t`: for even and for odd TPC sets, the
   *  `(pre, post)` wireless channel counts of each plane type. */
  type WirelessChannelCounts = t: seq<seq<(nat, nat)>> | |t| == 2 && |t[0]| == 3 && |t[1]| == 3
    witness [[(0, 0), (0, 0), (0, 0)], [(0, 0), (0, 0), (0, 0)]]

  /** `extractWirelessChannelParams`. */
  function ExtractWirelessChannelParams(config: WirelessChannelConfig): WirelessChannelCounts
  {
    [ [ (config.firstInductionPre, config.firstInductionPost),
        (config.secondInductionEvenPre, config.secondInductionEvenPost),
        (config.collectionEvenPre, config.collectionEvenPost) ],
      [ (config.firstInductionPre, config.firstInductionPost),
        (config.secondInductionOddPre, config.secondInductionOddPost),
        (config.collectionOddPre, config.collectionOddPost) ] ]
  }

  /** What `std::array::at` throws for a plane type beyond the table. */
  const PlaneTypeOutOfRange := "array::at: plane type out of range"

  /** The wireless channel counts of a readout plane: the table of the
   *  parity of its TPC set (`TPCset & 1`), then the entry of its plane type
   *  (`at`, which throws for the unknown type). */
  function WirelessCountsFor(counts: WirelessChannelCounts, tpcset: nat, planeType: PlaneType): (r: Result<(nat, nat)>)
    ensures r.Ok? <==> planeType < 3
  {
    var ofTPCset := counts[tpcset % 2];
    if planeType < |ofTPCset| then Ok(ofTPCset[planeType]) else Err(PlaneTypeOutOfRange)
  }

  /** Which configuration entries a readout plane gets: first induction
   *  planes the same pair in even and odd TPC sets, second induction and
   *  collection planes the pair of the parity of their TPC set. */
  lemma {:induction false} WirelessCountsOfConfig(config: WirelessChannelConfig, tpcset: nat, planeType: PlaneType)
    ensures var r := WirelessCountsFor(ExtractWirelessChannelParams(config), tpcset, planeType);
            && (planeType == FirstInductionType ==> r == Ok((config.firstInductionPre, config.firstInductionPost)))
            && (planeType == SecondInductionType && tpcset % 2 == 0
                ==> r == Ok((config.secondInductionEvenPre, config.secondInductionEvenPost)))
            && (planeType == SecondInductionType && tpcset % 2 == 1
                ==> r == Ok((config.secondInductionOddPre, config.secondInductionOddPost)))
            && (planeType == CollectionType && tpcset % 2 == 0
                ==> r == Ok((config.collectionEvenPre, config.collectionEvenPost)))
            && (planeType == CollectionType && tpcset % 2 == 1
                ==> r == Ok((config.collectionOddPre, config.collectionOddPost)))
            && (planeType >= 3 ==> r == Err(PlaneTypeOutOfRange))
  {
  }

  /** With the default configuration no readout plane has wireless
   *  channels. */
  lemma {:induction false} DefaultHasNoWirelessChannels(tpcset: nat, planeType: PlaneType)
    requires planeType < 3
    ensures WirelessCountsFor(ExtractWirelessChannelParams(DefaultWirelessChannels), tpcset, planeType) == Ok((0, 0))
  {
  }

  // ---------------------------------------------------------------------------
  // The readout tables the numbering reads

  /** `TPCsetCount(cid)`; a cryostat beyond the table has none. */
  function SetCountOf(tables: Builder.Results, c: nat): nat
  {
    if c < |tables.tpcsetCount| then tables.tpcsetCount[c] else 0
  }

  /** `ROPcount(sid)`; a TPC set beyond the table has none. */
  function ROPcountOf(tables: Builder.Results, c: nat, s: nat): nat
  {
    if c < |tables.ropCount| && s < |tables.ropCount[c]| then tables.ropCount[c][s] else 0
  }

  /** `ROPplanes(rid)`; a readout plane beyond the table has no planes. */
  function PlanesOf(tables: Builder.Results, rid: ROPID): seq<Plane>
  {
    var planes := tables.ropPlanes;
    if rid.cryostat < |planes| && rid.tpcset < |planes[rid.cryostat]| && rid.rop < |planes[rid.cryostat][rid.tpcset]|
    then planes[rid.cryostat][rid.tpcset][rid.rop]
    else []
  }

  /** `TPCsetTPCs(sid)`; a TPC set beyond the table has no TPCs. */
  function TPCsOf(tables: Builder.Results, sid: TPCsetID): seq<TPCID>
  {
    var table := tables.tpcsetTPCs;
    if sid.cryostat < |table| && sid.tpcset < |table[sid.cryostat]| then table[sid.cryostat][sid.tpcset] else []
  }

  /** The wireless channel counts of a readout plane of the tables. */
  function ROPcounts(tables: Builder.Results, counts: WirelessChannelCounts, rid: ROPID): Result<(nat, nat)>
  {
    WirelessCountsFor(counts, rid.tpcset, FindPlaneType(PlanesOf(tables, rid)))
  }

  // ---------------------------------------------------------------------------
  // The channels of the wire planes of one readout plane

  /** The channel ranges of the first `n` wire planes of a readout plane
   *  whose first wire plane starts at `start`: the first plane takes one
   *  channel per wire from `start`, each later plane starts `matchedWire`
   *  channels before the last channel of the plane before it. */
  function PlaneRanges(start: int, planes: seq<Plane>, n: nat): (ranges: seq<ChannelRange>)
    requires 1 <= n <= |planes|
    ensures |ranges| == n
    decreases n
  {
    if n == 1 then [ChannelRange(start, start + planes[0].nWires)]
    else
      var ranges := PlaneRanges(start, planes, n - 1);
      var begin := (ranges[n - 2].end - 1) - planes[n - 1].matchedWire;
      ranges + [ChannelRange(begin, begin + planes[n - 1].nWires)]
  }

  /** The first plane covers `nWires` channels from `start`; every plane has
   *  one channel per wire; the matched wire of each later plane gets the
   *  last channel of the plane before it. */
  lemma {:induction false} PlaneRangesMeans(start: int, planes: seq<Plane>, n: nat)
    requires 1 <= n <= |planes|
    ensures PlaneRanges(start, planes, n)[0] == ChannelRange(start, start + planes[0].nWires)
    ensures forall i :: 0 <= i < n ==>
              PlaneRanges(start, planes, n)[i].end == PlaneRanges(start, planes, n)[i].begin + planes[i].nWires
    ensures forall i, j {:trigger PlaneRanges(start, planes, n)[i], PlaneRanges(start, planes, n)[j]} ::
              0 <= i && j == i + 1 < n ==>
              PlaneRanges(start, planes, n)[j].begin + planes[j].matchedWire == PlaneRanges(start, planes, n)[i].end - 1
  {
    if n > 1 {
      PlaneRangesMeans(start, planes, n - 1);
      assert PlaneRanges(start, planes, n)[..n - 1] == PlaneRanges(start, planes, n - 1);
    }
  }

  lemma {:induction false} FirstPlaneRange(start: int, planes: seq<Plane>, n: nat)
    requires 1 <= n <= |planes|
    ensures PlaneRanges(start, planes, n)[0] == ChannelRange(start, start + planes[0].nWires)
  {
    if n > 1 {
      FirstPlaneRange(start, planes, n - 1);
    }
  }

  /** Moving the start moves every range by as much. */
  lemma {:induction false} PlaneRangesShift(start: int, planes: seq<Plane>, n: nat)
    requires 1 <= n <= |planes|
    ensures forall i :: 0 <= i < n ==>
              PlaneRanges(start, planes, n)[i].begin == PlaneRanges(0, planes, n)[i].begin + start
              && PlaneRanges(start, planes, n)[i].end == PlaneRanges(0, planes, n)[i].end + start
  {
    if n > 1 {
      PlaneRangesShift(start, planes, n - 1);
      assert PlaneRanges(start, planes, n)[..n - 1] == PlaneRanges(start, planes, n - 1);
      assert PlaneRanges(0, planes, n)[..n - 1] == PlaneRanges(0, planes, n - 1);
    }
  }

  /** The wire planes of a readout plane line up: the matched wire of each
   *  later plane is one of its wires, and no plane starts before the first
   *  one does. */
  predicate Aligned(planes: seq<Plane>)
    requires planes != []
  {
    var ranges := PlaneRanges(0, planes, |planes|);
    forall i :: 0 < i < |planes| ==> planes[i].matchedWire < planes[i].nWires && ranges[i].begin >= 0
  }

  /** When each matched wire is a wire of its plane, no plane ends after the
   *  last one. */
  lemma {:induction false} EndsGrow(start: int, planes: seq<Plane>, n: nat)
    requires 1 <= n <= |planes|
    requires forall i :: 0 < i < n ==> planes[i].matchedWire < planes[i].nWires
    ensures forall i :: 0 <= i < n ==> PlaneRanges(start, planes, n)[i].end <= PlaneRanges(start, planes, n)[n - 1].end
  {
    if n > 1 {
      EndsGrow(start, planes, n - 1);
      PlaneRangesMeans(start, planes, n);
      var ranges := PlaneRanges(start, planes, n);
      var prefix := PlaneRanges(start, planes, n - 1);
      assert ranges[..n - 1] == prefix;
      assert ranges[n - 2].end <= ranges[n - 1].end;
      forall i | 0 <= i < n
        ensures ranges[i].end <= ranges[n - 1].end
      {
        if i < n - 1 {
          assert ranges[i] == prefix[i] && ranges[n - 2] == prefix[n - 2];
        }
      }
    }
  }

  /** The planes of an aligned readout plane lie between the first channel
   *  of its first plane and the end of its last plane. */
  lemma {:induction false} RangesInside(start: int, planes: seq<Plane>)
    requires planes != [] && Aligned(planes)
    ensures forall i :: 0 <= i < |planes| ==>
              && start <= PlaneRanges(start, planes, |planes|)[i].begin
              && PlaneRanges(start, planes, |planes|)[i].end <= PlaneRanges(start, planes, |planes|)[|planes| - 1].end
  {
    EndsGrow(start, planes, |planes|);
    PlaneRangesShift(start, planes, |planes|);
    PlaneRangesMeans(start, planes, |planes|);
  }

  // ---------------------------------------------------------------------------
  // The blocks of channels of the readout planes

  /** `ChannelsInROPStruct`: the block of channels of a readout plane. */
  datatype ROPChannels = ROPChannels(rop: ROPID, firstChannel: int, nChannels: int)
  {
    predicate Holds(channel: int)
    {
      firstChannel <= channel < firstChannel + nChannels
    }
  }

  /** `ChannelToWireMap`: the blocks of channels in the order they were
   *  added, and the end of the numbering. */
  datatype ChannelToWireMap = ChannelToWireMap(rops: seq<ROPChannels>, endChannel: int)

  /** `ChannelToWireMap::find(channel)`: the block holding a channel. */
  function FindChannel(rops: seq<ROPChannels>, channel: int): (r: Option<ROPChannels>)
    ensures r.Some? ==> r.value in rops && r.value.Holds(channel)
    ensures r.None? ==> forall b :: b in rops ==> !b.Holds(channel)
  {
    if rops == [] then None
    else if rops[0].Holds(channel) then Some(rops[0])
    else FindChannel(rops[1..], channel)
  }

  /** `ChannelToWireMap::find(ropid)`: the block of a readout plane. */
  function FindROP(rops: seq<ROPChannels>, rid: ROPID): (r: Option<ROPChannels>)
    ensures r.Some? ==> r.value in rops && r.value.rop == rid
    ensures r.None? ==> forall b :: b in rops ==> b.rop != rid
    ensures forall i :: 0 <= i < |rops| && rops[i].rop == rid && (forall j :: 0 <= j < i ==> rops[j].rop != rid)
              ==> r == Some(rops[i])
  {
    if rops == [] then None
    else if rops[0].rop == rid then Some(rops[0])
    else FindROP(rops[1..], rid)
  }

  /** The total of the block sizes. */
  function SumChannels(rops: seq<ROPChannels>): int
  {
    if rops == [] then 0 else SumChannels(rops[..|rops| - 1]) + rops[|rops| - 1].nChannels
  }

  /** The blocks lie one after the other from channel 0, and the last one
   *  ends at `end`. */
  predicate Tiled(rops: seq<ROPChannels>, end: int)
    decreases |rops|
  {
    if rops == [] then end == 0
    else Tiled(rops[..|rops| - 1], rops[|rops| - 1].firstChannel)
         && end == rops[|rops| - 1].firstChannel + rops[|rops| - 1].nChannels
  }

  predicate NonNegative(rops: seq<ROPChannels>)
  {
    forall k :: 0 <= k < |rops| ==> rops[k].nChannels >= 0
  }

  /** Tiled blocks start at channel 0, each where the one before ends, and
   *  the end of the numbering is the total of their sizes. */
  lemma {:induction false} TiledMeans(rops: seq<ROPChannels>, end: int)
    requires Tiled(rops, end)
    ensures rops != [] ==> rops[0].firstChannel == 0
    ensures forall j, k {:trigger rops[j], rops[k]} :: 0 <= j && k == j + 1 < |rops| ==>
              rops[k].firstChannel == rops[j].firstChannel + rops[j].nChannels
    ensures end == SumChannels(rops)
    decreases |rops|
  {
    if rops != [] {
      var init := rops[..|rops| - 1];
      TiledMeans(init, rops[|rops| - 1].firstChannel);
      assert forall k :: 0 <= k < |init| ==> init[k] == rops[k];
    }
  }

  /** Tiled blocks of no negative size do not overlap. */
  lemma {:induction false} TiledApart(rops: seq<ROPChannels>, end: int, j: nat, k: nat)
    requires Tiled(rops, end) && NonNegative(rops)
    requires j < k < |rops|
    ensures rops[j].firstChannel + rops[j].nChannels <= rops[k].firstChannel
    decreases k
  {
    TiledMeans(rops, end);
    if j < k - 1 {
      TiledApart(rops, end, j, k - 1);
    }
  }

  /** A channel is in a block of a tiling exactly when it is below its end. */
  lemma {:induction false} TiledCovers(rops: seq<ROPChannels>, end: int, channel: int)
    requires Tiled(rops, end) && NonNegative(rops)
    ensures 0 <= end
    ensures (exists k :: 0 <= k < |rops| && rops[k].Holds(channel)) <==> 0 <= channel < end
    decreases |rops|
  {
    if rops != [] {
      var init := rops[..|rops| - 1];
      var last := rops[|rops| - 1];
      assert NonNegative(init) by {
        assert forall k :: 0 <= k < |init| ==> init[k] == rops[k];
      }
      TiledCovers(init, last.firstChannel, channel);
      if exists k :: 0 <= k < |rops| && rops[k].Holds(channel) {
        var k :| 0 <= k < |rops| && rops[k].Holds(channel);
        if k < |init| {
          assert init[k] == rops[k];
        }
      }
      if 0 <= channel < last.firstChannel {
        var k :| 0 <= k < |init| && init[k].Holds(channel);
        assert rops[k] == init[k];
      } else if last.firstChannel <= channel < end {
        assert rops[|rops| - 1].Holds(channel);
      }
    }
  }

  // ---------------------------------------------------------------------------
  // Filling the map

  /** The numbering part way through: the next free channel, the blocks so
   *  far and the channels of the wire planes so far. */
  datatype Layout = Layout(nextChannel: int, rops: seq<ROPChannels>, planeInfo: map<PlaneID, PlaneInfo>)

  /** The plane information after storing the first `|ranges|` planes of a
   *  readout plane, each over whatever was stored for its ID before. */
  function Record(planeInfo: map<PlaneID, PlaneInfo>, planes: seq<Plane>, ranges: seq<ChannelRange>, rid: ROPID)
    : map<PlaneID, PlaneInfo>
    requires |ranges| <= |planes|
    decreases |ranges|
  {
    if ranges == [] then planeInfo
    else
      var n := |ranges| - 1;
      Record(planeInfo, planes, ranges[..n], rid)[planes[n].id := PlaneInfo(ranges[n], rid)]
  }

  /** A stored plane is one that was there before, unchanged, or one of the
   *  stored planes, with its range and the readout plane. */
  lemma {:induction false} RecordMeans(planeInfo: map<PlaneID, PlaneInfo>, planes: seq<Plane>, ranges: seq<ChannelRange>,
                                       rid: ROPID, pid: PlaneID)
    requires |ranges| <= |planes|
    ensures pid in Record(planeInfo, planes, ranges, rid)
            <==> pid in planeInfo || exists i :: 0 <= i < |ranges| && planes[i].id == pid
    ensures pid in Record(planeInfo, planes, ranges, rid) ==>
              (pid in planeInfo && Record(planeInfo, planes, ranges, rid)[pid] == planeInfo[pid])
              || exists i :: 0 <= i < |ranges| && planes[i].id == pid
                             && Record(planeInfo, planes, ranges, rid)[pid] == PlaneInfo(ranges[i], rid)
    decreases |ranges|
  {
    if ranges != [] {
      var n := |ranges| - 1;
      RecordMeans(planeInfo, planes, ranges[..n], rid, pid);
    }
  }

  /** One readout plane: its block starts at the next free channel; its
   *  first wire plane starts after `pre` wireless channels, and the block
   *  ends `post` wireless channels after its last wire plane. */
  function PlaceROP(st: Layout, rid: ROPID, planes: seq<Plane>, counts: (nat, nat)): Layout
    requires planes != []
  {
    var next := BlockEnd(st.nextChannel + counts.0, planes, counts.1);
    Layout(next, st.rops + [ROPChannels(rid, st.nextChannel, next - st.nextChannel)],
           Record(st.planeInfo, planes, PlaneRanges(st.nextChannel + counts.0, planes, |planes|), rid))
  }

  /** The end of a block whose first plane starts at `start` and which
   *  ends with `post` wireless channels. */
  function BlockEnd(start: int, planes: seq<Plane>, post: nat): int
    requires planes != []
  {
    PlaneRanges(start, planes, |planes|)[|planes| - 1].end + post
  }

  /** One readout plane of the tables, or the exception of `at` when its
   *  plane type is unknown. */
  function ROPstep(tables: Builder.Results, counts: WirelessChannelCounts, st: Layout, rid: ROPID): Result<Layout>
  {
    match ROPcounts(tables, counts, rid)
    case Err(e) => Err(e)
    case Ok(pair) => Ok(PlaceROP(st, rid, PlanesOf(tables, rid), pair))
  }

  /** The readout planes of TPC set `s` of cryostat `c`, from number `r` on. */
  function FillROPsFrom(tables: Builder.Results, counts: WirelessChannelCounts, st: Layout, c: nat, s: nat, r: nat)
    : Result<Layout>
    decreases ROPcountOf(tables, c, s) - r
  {
    if r >= ROPcountOf(tables, c, s) then Ok(st)
    else
      match ROPstep(tables, counts, st, ROPID(c, s, r))
      case Err(e) => Err(e)
      case Ok(next) => FillROPsFrom(tables, counts, next, c, s, r + 1)
  }

  /** The TPC sets of cryostat `c`, from number `s` on. */
  function FillTPCsetsFrom(tables: Builder.Results, counts: WirelessChannelCounts, st: Layout, c: nat, s: nat)
    : Result<Layout>
    decreases SetCountOf(tables, c) - s
  {
    if s >= SetCountOf(tables, c) then Ok(st)
    else
      match FillROPsFrom(tables, counts, st, c, s, 0)
      case Err(e) => Err(e)
      case Ok(next) => FillTPCsetsFrom(tables, counts, next, c, s + 1)
  }

  /** The cryostats from number `c` on. */
  function FillCryostatsFrom(tables: Builder.Results, counts: WirelessChannelCounts, st: Layout, nCryostats: nat, c: nat)
    : Result<Layout>
    decreases nCryostats - c
  {
    if c >= nCryostats then Ok(st)
    else
      match FillTPCsetsFrom(tables, counts, st, c, 0)
      case Err(e) => Err(e)
      case Ok(next) => FillCryostatsFrom(tables, counts, next, nCryostats, c + 1)
  }

  /** The whole numbering, from channel 0 with no blocks and no planes. */
  function ChannelLayout(tables: Builder.Results, counts: WirelessChannelCounts, nCryostats: nat): Result<Layout>
  {
    FillCryostatsFrom(tables, counts, Layout(0, [], map[]), nCryostats, 0)
  }

  // ---------------------------------------------------------------------------
  // What the numbering keeps true

  /** The block holds the range outside its wireless channels. */
  predicate InWiredPart(tables: Builder.Results, counts: WirelessChannelCounts, b: ROPChannels, range: ChannelRange)
  {
    var pair := ROPcounts(tables, counts, b.rop);
    && pair.Ok?
    && b.firstChannel + pair.value.0 <= range.begin
    && range.end <= b.firstChannel + b.nChannels - pair.value.1
  }

  /** A wire plane was laid out in a block of its own readout plane, clear
   *  of the block's wireless channels. */
  ghost predicate Recorded(tables: Builder.Results, counts: WirelessChannelCounts, rops: seq<ROPChannels>,
                           pid: PlaneID, info: PlaneInfo)
  {
    && pid in IdsOf(PlanesOf(tables, info.rop))
    && exists k :: 0 <= k < |rops| && rops[k].rop == info.rop && InWiredPart(tables, counts, rops[k], info.channelRange)
  }

  /** The blocks tile the channels up to the next free one, and every wire
   *  plane so far lies in a block of its readout plane. */
  ghost predicate Consistent(tables: Builder.Results, counts: WirelessChannelCounts, st: Layout)
  {
    && Tiled(st.rops, st.nextChannel)
    && NonNegative(st.rops)
    && forall pid :: pid in st.planeInfo ==> Recorded(tables, counts, st.rops, pid, st.planeInfo[pid])
  }

  /** Every readout plane of the tables that has wire planes has them
   *  aligned. */
  ghost predicate AllAligned(tables: Builder.Results)
  {
    forall rid :: PlanesOf(tables, rid) != [] ==> Aligned(PlanesOf(tables, rid))
  }

  lemma {:induction false} RecordedGrows(tables: Builder.Results, counts: WirelessChannelCounts, rops: seq<ROPChannels>, b: ROPChannels,
                      pid: PlaneID, info: PlaneInfo)
    requires Recorded(tables, counts, rops, pid, info)
    ensures Recorded(tables, counts, rops + [b], pid, info)
  {
    var k :| 0 <= k < |rops| && rops[k].rop == info.rop && InWiredPart(tables, counts, rops[k], info.channelRange);
    assert (rops + [b])[k] == rops[k];
  }

  /** The block of an aligned readout plane is no smaller than its
   *  wireless channels and first plane, and holds every one of its planes
   *  outside its wireless channels. */
  lemma {:induction false} PlacedBlock(start: int, planes: seq<Plane>, post: nat)
    requires planes != [] && Aligned(planes)
    ensures BlockEnd(start, planes, post) >= start + planes[0].nWires + post
    ensures forall i :: 0 <= i < |planes| ==>
              && start <= PlaneRanges(start, planes, |planes|)[i].begin
              && PlaneRanges(start, planes, |planes|)[i].end <= BlockEnd(start, planes, post) - post
  {
    RangesInside(start, planes);
    FirstPlaneRange(start, planes, |planes|);
  }

  /** Adding a block of no negative size where the tiling ends keeps it a
   *  tiling. */
  lemma {:induction false} TiledGrows(rops: seq<ROPChannels>, end: int, b: ROPChannels)
    requires Tiled(rops, end) && NonNegative(rops)
    requires b.firstChannel == end && b.nChannels >= 0
    ensures Tiled(rops + [b], end + b.nChannels) && NonNegative(rops + [b])
  {
    assert (rops + [b])[..|rops|] == rops;
    assert forall k :: 0 <= k < |rops| ==> (rops + [b])[k] == rops[k];
  }

  /** A wire plane of a readout plane just laid out is recorded in its
   *  block. */
  lemma {:induction false} NewPlaneRecorded(tables: Builder.Results, counts: WirelessChannelCounts, st: Layout, rid: ROPID, i: nat)
    requires ROPcounts(tables, counts, rid).Ok? && PlanesOf(tables, rid) != [] && Aligned(PlanesOf(tables, rid))
    requires i < |PlanesOf(tables, rid)|
    ensures var planes := PlanesOf(tables, rid);
            var pair := ROPcounts(tables, counts, rid).value;
            Recorded(tables, counts, PlaceROP(st, rid, planes, pair).rops, planes[i].id,
                     PlaneInfo(PlaneRanges(st.nextChannel + pair.0, planes, |planes|)[i], rid))
  {
    var planes := PlanesOf(tables, rid);
    var pair := ROPcounts(tables, counts, rid).value;
    var placed := PlaceROP(st, rid, planes, pair);
    var b := ROPChannels(rid, st.nextChannel, placed.nextChannel - st.nextChannel);
    var ranges := PlaneRanges(st.nextChannel + pair.0, planes, |planes|);
    PlacedBlock(st.nextChannel + pair.0, planes, pair.1);
    assert IdsOf(planes)[i] == planes[i].id;
    assert placed.rops[|st.rops|] == b;
    assert InWiredPart(tables, counts, b, ranges[i]);
  }

  /** A wire plane recorded before a readout plane is laid out stays
   *  recorded. */
  lemma {:induction false} OldPlaneRecorded(tables: Builder.Results, counts: WirelessChannelCounts, st: Layout, rid: ROPID,
                         planes: seq<Plane>, pair: (nat, nat), pid: PlaneID)
    requires planes != [] && Aligned(planes)
    requires pid in st.planeInfo && Recorded(tables, counts, st.rops, pid, st.planeInfo[pid])
    ensures Recorded(tables, counts, PlaceROP(st, rid, planes, pair).rops, pid, st.planeInfo[pid])
  {
    PlacedBlock(st.nextChannel + pair.0, planes, pair.1);
    RecordedGrows(tables, counts, st.rops,
                  ROPChannels(rid, st.nextChannel, PlaceROP(st, rid, planes, pair).nextChannel - st.nextChannel),
                  pid, st.planeInfo[pid]);
  }

  /** A plane stored by laying out an aligned readout plane is recorded. */
  lemma {:induction false} PlaceRecords(tables: Builder.Results, counts: WirelessChannelCounts, st: Layout, rid: ROPID, pid: PlaneID)
    requires pid in st.planeInfo ==> Recorded(tables, counts, st.rops, pid, st.planeInfo[pid])
    requires ROPcounts(tables, counts, rid).Ok? && PlanesOf(tables, rid) != [] && Aligned(PlanesOf(tables, rid))
    requires pid in PlaceROP(st, rid, PlanesOf(tables, rid), ROPcounts(tables, counts, rid).value).planeInfo
    ensures Recorded(tables, counts, PlaceROP(st, rid, PlanesOf(tables, rid), ROPcounts(tables, counts, rid).value).rops,
                     pid, PlaceROP(st, rid, PlanesOf(tables, rid), ROPcounts(tables, counts, rid).value).planeInfo[pid])
  {
    var planes := PlanesOf(tables, rid);
    var pair := ROPcounts(tables, counts, rid).value;
    var placed := PlaceROP(st, rid, planes, pair);
    var ranges := PlaneRanges(st.nextChannel + pair.0, planes, |planes|);
    RecordMeans(st.planeInfo, planes, ranges, rid, pid);
    if pid in st.planeInfo && placed.planeInfo[pid] == st.planeInfo[pid] {
      OldPlaneRecorded(tables, counts, st, rid, planes, pair, pid);
    } else {
      var i :| 0 <= i < |ranges| && planes[i].id == pid && placed.planeInfo[pid] == PlaneInfo(ranges[i], rid);
      NewPlaneRecorded(tables, counts, st, rid, i);
    }
  }

  /** Laying out an aligned readout plane keeps the layout consistent. */
  lemma {:induction false} PlaceKeeps(tables: Builder.Results, counts: WirelessChannelCounts, st: Layout, rid: ROPID)
    requires Consistent(tables, counts, st)
    requires ROPcounts(tables, counts, rid).Ok? && AllAligned(tables)
    ensures PlanesOf(tables, rid) != []
    ensures Consistent(tables, counts, PlaceROP(st, rid, PlanesOf(tables, rid), ROPcounts(tables, counts, rid).value))
  {
    var planes := PlanesOf(tables, rid);
    var pair := ROPcounts(tables, counts, rid).value;
    var placed := PlaceROP(st, rid, planes, pair);
    PlacedBlock(st.nextChannel + pair.0, planes, pair.1);
    TiledGrows(st.rops, st.nextChannel, ROPChannels(rid, st.nextChannel, placed.nextChannel - st.nextChannel));
    assert Aligned(planes);
    forall pid | pid in placed.planeInfo
      ensures Recorded(tables, counts, placed.rops, pid, placed.planeInfo[pid])
    {
      PlaceRecords(tables, counts, st, rid, pid);
    }
  }

  lemma {:induction false} FillROPsKeeps(tables: Builder.Results, counts: WirelessChannelCounts, st: Layout,
                                         c: nat, s: nat, r: nat)
    requires AllAligned(tables) && Consistent(tables, counts, st)
    requires FillROPsFrom(tables, counts, st, c, s, r).Ok?
    ensures Consistent(tables, counts, FillROPsFrom(tables, counts, st, c, s, r).value)
    decreases ROPcountOf(tables, c, s) - r
  {
    if r < ROPcountOf(tables, c, s) {
      var rid := ROPID(c, s, r);
      PlaceKeeps(tables, counts, st, rid);
      FillROPsKeeps(tables, counts, ROPstep(tables, counts, st, rid).value, c, s, r + 1);
    }
  }

  lemma {:induction false} FillTPCsetsKeeps(tables: Builder.Results, counts: WirelessChannelCounts, st: Layout,
                                            c: nat, s: nat)
    requires AllAligned(tables) && Consistent(tables, counts, st)
    requires FillTPCsetsFrom(tables, counts, st, c, s).Ok?
    ensures Consistent(tables, counts, FillTPCsetsFrom(tables, counts, st, c, s).value)
    decreases SetCountOf(tables, c) - s
  {
    if s < SetCountOf(tables, c) {
      FillROPsKeeps(tables, counts, st, c, s, 0);
      FillTPCsetsKeeps(tables, counts, FillROPsFrom(tables, counts, st, c, s, 0).value, c, s + 1);
    }
  }

  lemma {:induction false} FillCryostatsKeeps(tables: Builder.Results, counts: WirelessChannelCounts, st: Layout,
                                              nCryostats: nat, c: nat)
    requires AllAligned(tables) && Consistent(tables, counts, st)
    requires FillCryostatsFrom(tables, counts, st, nCryostats, c).Ok?
    ensures Consistent(tables, counts, FillCryostatsFrom(tables, counts, st, nCryostats, c).value)
    decreases nCryostats - c
  {
    if c < nCryostats {
      FillTPCsetsKeeps(tables, counts, st, c, 0);
      FillCryostatsKeeps(tables, counts, FillTPCsetsFrom(tables, counts, st, c, 0).value, nCryostats, c + 1);
    }
  }

  /** With aligned readout planes, the numbering tiles the channels from 0
   *  to its end, and lays every wire plane out in the block of its own
   *  readout plane, clear of the wireless channels. */
  lemma {:induction false} LayoutIsConsistent(tables: Builder.Results, counts: WirelessChannelCounts, nCryostats: nat)
    requires AllAligned(tables)
    requires ChannelLayout(tables, counts, nCryostats).Ok?
    ensures Consistent(tables, counts, ChannelLayout(tables, counts, nCryostats).value)
  {
    FillCryostatsKeeps(tables, counts, Layout(0, [], map[]), nCryostats, 0);
  }

  // ---------------------------------------------------------------------------
  // From channels back to wires

  /** `WireID`: a wire of a wire plane. */
  datatype WireID = WireID(plane: PlaneID, wire: nat)

  /** The loop of `ChannelToWire` over the first `n` wire planes of a readout
   *  plane: one wire for each plane whose range holds the channel. */
  function Segments(planes: seq<Plane>, planeInfo: map<PlaneID, PlaneInfo>, channel: int, n: nat): seq<WireID>
    requires n <= |planes|
  {
    if n == 0 then []
    else
      var segments := Segments(planes, planeInfo, channel, n - 1);
      var pid := planes[n - 1].id;
      if pid in planeInfo && planeInfo[pid].channelRange.Contains(channel)
      then segments + [WireID(pid, channel - planeInfo[pid].FirstChannel())]
      else segments
  }

  /** A wire is in the list exactly when its plane is one of the planes and
   *  holds the channel, and the wire is the channel's offset in the plane. */
  lemma {:induction false} SegmentsMeans(planes: seq<Plane>, planeInfo: map<PlaneID, PlaneInfo>, channel: int, n: nat,
                                         wid: WireID)
    requires n <= |planes|
    ensures wid in Segments(planes, planeInfo, channel, n) <==>
              && (exists i :: 0 <= i < n && planes[i].id == wid.plane)
              && wid.plane in planeInfo && planeInfo[wid.plane].channelRange.Contains(channel)
              && wid.wire == channel - planeInfo[wid.plane].FirstChannel()
  {
    if n > 0 {
      SegmentsMeans(planes, planeInfo, channel, n - 1, wid);
    }
  }

  const InvalidChannelRequested := "invalid channel requested"

  /** `ChannelToWire`: the wires of the readout plane holding the channel
   *  that have that channel; an exception for a channel in no block. */
  function ChannelToWireOf(rops: seq<ROPChannels>, tables: Builder.Results, planeInfo: map<PlaneID, PlaneInfo>, channel: int)
    : (r: Result<seq<WireID>>)
    ensures r.Err? <==> forall b :: b in rops ==> !b.Holds(channel)
    ensures r.Ok? ==> forall wid :: wid in r.value ==>
              && wid.plane in planeInfo && planeInfo[wid.plane].channelRange.Contains(channel)
              && wid.wire == channel - planeInfo[wid.plane].FirstChannel()
  {
    match FindChannel(rops, channel)
    case None => Err(InvalidChannelRequested)
    case Some(b) =>
      var planes := PlanesOf(tables, b.rop);
      SegmentsHoldChannel(planes, planeInfo, channel, |planes|);
      Ok(Segments(planes, planeInfo, channel, |planes|))
  }

  /** Every wire listed has the channel: its plane's range holds it, and
   *  the wire is the channel's offset in that range. */
  lemma {:induction false} SegmentsHoldChannel(planes: seq<Plane>, planeInfo: map<PlaneID, PlaneInfo>, channel: int, n: nat)
    requires n <= |planes|
    ensures forall wid :: wid in Segments(planes, planeInfo, channel, n) ==>
              && wid.plane in planeInfo && planeInfo[wid.plane].channelRange.Contains(channel)
              && wid.wire == channel - planeInfo[wid.plane].FirstChannel()
  {
    if n > 0 {
      SegmentsHoldChannel(planes, planeInfo, channel, n - 1);
    }
  }

  /** With tiled blocks, the channel is found in the one block holding it. */
  lemma {:induction false} FoundIsTheBlock(rops: seq<ROPChannels>, end: int, k: nat, channel: int)
    requires Tiled(rops, end) && NonNegative(rops)
    requires k < |rops| && rops[k].Holds(channel)
    ensures FindChannel(rops, channel) == Some(rops[k])
  {
    var found := FindChannel(rops, channel);
    assert rops[k] in rops;
    var j :| 0 <= j < |rops| && rops[j] == found.value;
    if j < k {
      TiledApart(rops, end, j, k);
    } else if k < j {
      TiledApart(rops, end, k, j);
    }
  }

  /** Only channels below the end of the numbering have wires to look up:
   *  any other channel makes `ChannelToWire` throw. */
  lemma {:induction false} ChannelToWireFailsOutside(tables: Builder.Results, counts: WirelessChannelCounts, st: Layout, channel: int)
    requires Consistent(tables, counts, st)
    ensures ChannelToWireOf(st.rops, tables, st.planeInfo, channel).Err?
            <==> !(0 <= channel < st.nextChannel)
  {
    TiledCovers(st.rops, st.nextChannel, channel);
    if 0 <= channel < st.nextChannel {
      var k :| 0 <= k < |st.rops| && st.rops[k].Holds(channel);
      assert st.rops[k] in st.rops;
    }
  }

  /** The block of the readout plane of a laid-out wire plane, which
   *  holds all of the plane's channels. */
  lemma {:induction false} BlockOfPlane(tables: Builder.Results, counts: WirelessChannelCounts, st: Layout, pid: PlaneID) returns (k: nat)
    requires Consistent(tables, counts, st)
    requires pid in st.planeInfo
    ensures k < |st.rops| && st.rops[k].rop == st.planeInfo[pid].rop
    ensures forall channel :: st.planeInfo[pid].channelRange.Contains(channel) ==> st.rops[k].Holds(channel)
    ensures pid in IdsOf(PlanesOf(tables, st.planeInfo[pid].rop))
  {
    var info := st.planeInfo[pid];
    assert Recorded(tables, counts, st.rops, pid, info);
    k :| 0 <= k < |st.rops| && st.rops[k].rop == info.rop && InWiredPart(tables, counts, st.rops[k], info.channelRange);
  }

  /** The round trip: the channel of wire `w` of a laid-out plane (its first
   *  channel plus `w`, as `PlaneWireToChannel` computes it) leads back to
   *  that wire. */
  lemma {:induction false} WireChannelRoundTrip(tables: Builder.Results, counts: WirelessChannelCounts, st: Layout, pid: PlaneID, w: nat)
    returns (wires: seq<WireID>)
    requires Consistent(tables, counts, st)
    requires pid in st.planeInfo && w < st.planeInfo[pid].EndChannel() - st.planeInfo[pid].FirstChannel()
    ensures ChannelToWireOf(st.rops, tables, st.planeInfo,
                            st.planeInfo[pid].WireChannel(w)) == Ok(wires)
    ensures WireID(pid, w) in wires
  {
    var k := BlockOfPlane(tables, counts, st, pid);
    wires := WiresOfPlaneChannel(tables, st, pid, k, w);
  }

  lemma {:induction false} WiresOfPlaneChannel(tables: Builder.Results, st: Layout, pid: PlaneID, k: nat, w: nat)
    returns (wires: seq<WireID>)
    requires Tiled(st.rops, st.nextChannel) && NonNegative(st.rops)
    requires pid in st.planeInfo && w < st.planeInfo[pid].EndChannel() - st.planeInfo[pid].FirstChannel()
    requires k < |st.rops| && st.rops[k].rop == st.planeInfo[pid].rop
    requires st.rops[k].Holds(st.planeInfo[pid].WireChannel(w))
    requires pid in IdsOf(PlanesOf(tables, st.planeInfo[pid].rop))
    ensures ChannelToWireOf(st.rops, tables, st.planeInfo,
                            st.planeInfo[pid].WireChannel(w)) == Ok(wires)
    ensures WireID(pid, w) in wires
  {
    var info := st.planeInfo[pid];
    var channel := info.WireChannel(w);
    FoundIsTheBlock(st.rops, st.nextChannel, k, channel);
    var planes := PlanesOf(tables, info.rop);
    var i :| 0 <= i < |planes| && IdsOf(planes)[i] == pid;
    assert planes[i].id == pid;
    SegmentsMeans(planes, st.planeInfo, channel, |planes|, WireID(pid, w));
    wires := Segments(planes, st.planeInfo, channel, |planes|);
  }

  /** The wireless channels of a block, before its first plane's `pre`
   *  offset or among its last `post` channels, belong to its readout plane
   *  but map to no wire. */
  lemma {:induction false} WirelessChannelsHaveNoWires(tables: Builder.Results, counts: WirelessChannelCounts, st: Layout, k: nat,
                                    channel: int)
    requires Consistent(tables, counts, st)
    requires k < |st.rops| && st.rops[k].Holds(channel) && ROPcounts(tables, counts, st.rops[k].rop).Ok?
    requires var pair := ROPcounts(tables, counts, st.rops[k].rop).value;
             channel < st.rops[k].firstChannel + pair.0 || channel >= st.rops[k].firstChannel + st.rops[k].nChannels - pair.1
    ensures ChannelToWireOf(st.rops, tables, st.planeInfo, channel) == Ok([])
  {
    FoundIsTheBlock(st.rops, st.nextChannel, k, channel);
    var planes := PlanesOf(tables, st.rops[k].rop);
    var segments := Segments(planes, st.planeInfo, channel, |planes|);
    if segments != [] {
      var wid := segments[0];
      SegmentsMeans(planes, st.planeInfo, channel, |planes|, wid);
      var info := st.planeInfo[wid.plane];
      var j :| 0 <= j < |st.rops| && st.rops[j].rop == info.rop
               && InWiredPart(tables, counts, st.rops[j], info.channelRange);
      WiredChannelBlock(tables, counts, st.rops, st.nextChannel, j, k, info.channelRange, channel);
      assert false;
    }
  }

  /** A channel of a plane laid out in the wired part of one block is in
   *  no other block, and lies in that block's wired part. */
  lemma {:induction false} WiredChannelBlock(tables: Builder.Results, counts: WirelessChannelCounts, rops: seq<ROPChannels>, end: int,
                          j: nat, k: nat, range: ChannelRange, channel: int)
    requires Tiled(rops, end) && NonNegative(rops)
    requires j < |rops| && k < |rops|
    requires InWiredPart(tables, counts, rops[j], range) && range.Contains(channel) && rops[k].Holds(channel)
    ensures j == k
    ensures var pair := ROPcounts(tables, counts, rops[k].rop).value;
            rops[k].firstChannel + pair.0 <= channel < rops[k].firstChannel + rops[k].nChannels - pair.1
  {
    if j < k {
      TiledApart(rops, end, j, k);
    } else if k < j {
      TiledApart(rops, end, k, j);
    }
  }
}
