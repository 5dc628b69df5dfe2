/** The ICARUS wire readout mapping (`ICARUSWireReadoutGeom`; the same code
 *  is in `WireReadoutGeomICARUS` and, under the older interface with
 *  `Initialize`/`Uninitialize`, in `ICARUSChannelMapAlg`):
 *  - the readout tables kept from the readout plane builder;
 *  - the nested loops of `fillChannelToWireMap`, proved to compute the
 *    channel numbering of `ChannelLayout`;
 *  - the mapping object, its set-up and tear-down, and its queries. */
module ICARUSChannelMapping {
  import opened Wrappers
  import opened GeoTypes
  import opened ReadoutMaps
  import opened ChannelLayout
  import Builder = ROPandTPCsetBuildingAlgorithm

  // ---------------------------------------------------------------------------
  // The loops of `fillChannelToWireMap`

  /** The body of the readout plane loop: the first wire plane after `pre`
   *  wireless channels, each later one anchored on the plane before it,
   *  then `post` wireless channels and the block of the readout plane. */
  method FillROP(st: Layout, rid: ROPID, planes: seq<Plane>, counts: (nat, nat)) returns (placed: Layout)
    requires planes != []
    ensures placed == PlaceROP(st, rid, planes, counts)
  {
    var firstROPchannel := st.nextChannel;
    var nextChannel := firstROPchannel + counts.0 + planes[0].nWires;
    var first := ChannelRange(firstROPchannel + counts.0, nextChannel);
    var planeInfo := st.planeInfo[planes[0].id := PlaneInfo(first, rid)];
    ghost var ranges := [first];
    assert ranges[..0] == [];
    var i := 1;
    while i < |planes|
      invariant 1 <= i <= |planes|
      invariant ranges == PlaneRanges(firstROPchannel + counts.0, planes, i)
      invariant nextChannel == ranges[i - 1].end
      invariant planeInfo == Record(st.planeInfo, planes, ranges, rid)
    {
      var firstChannel := (nextChannel - 1) - planes[i].matchedWire;
      nextChannel := firstChannel + planes[i].nWires;
      var range := ChannelRange(firstChannel, nextChannel);
      planeInfo := planeInfo[planes[i].id := PlaneInfo(range, rid)];
      assert (ranges + [range])[..i] == ranges;
      ranges := ranges + [range];
      i := i + 1;
    }
    nextChannel := nextChannel + counts.1;
    placed := Layout(nextChannel, st.rops + [ROPChannels(rid, firstROPchannel, nextChannel - firstROPchannel)], planeInfo);
  }

  /** The loop over the readout planes of TPC set `s` of cryostat `c`: the
   *  wireless channel table of the parity of the TPC set, then for each
   *  readout plane its plane type, the exception of `at` for an unknown
   *  type, and the block. */
  method FillROPs(tables: Builder.Results, counts: WirelessChannelCounts, st0: Layout, c: nat, s: nat)
    returns (r: Result<Layout>)
    ensures r == FillROPsFrom(tables, counts, st0, c, s, 0)
  {
    var tpcsetChannelCounts := counts[s % 2];
    var nROPs := ROPcountOf(tables, c, s);
    var st := st0;
    var rop: nat := 0;
    while rop < nROPs
      invariant FillROPsFrom(tables, counts, st, c, s, rop) == FillROPsFrom(tables, counts, st0, c, s, 0)
      decreases nROPs - rop
    {
      var rid := ROPID(c, s, rop);
      var planes := PlanesOf(tables, rid);
      var planeType := FindPlaneType(planes);
      if planeType >= |tpcsetChannelCounts| {
        return Err(PlaneTypeOutOfRange);
      }
      st := FillROP(st, rid, planes, tpcsetChannelCounts[planeType]);
      rop := rop + 1;
    }
    r := Ok(st);
  }

  /** The loop over the TPC sets of cryostat `c`. */
  method FillTPCsets(tables: Builder.Results, counts: WirelessChannelCounts, st0: Layout, c: nat)
    returns (r: Result<Layout>)
    ensures r == FillTPCsetsFrom(tables, counts, st0, c, 0)
  {
    var nTPCsets := SetCountOf(tables, c);
    var st := st0;
    var s: nat := 0;
    while s < nTPCsets
      invariant FillTPCsetsFrom(tables, counts, st, c, s) == FillTPCsetsFrom(tables, counts, st0, c, 0)
      decreases nTPCsets - s
    {
      var filled := FillROPs(tables, counts, st, c, s);
      if filled.Err? {
        return Err(filled.error);
      }
      st := filled.value;
      s := s + 1;
    }
    r := Ok(st);
  }

  /** The loop over the cryostats, from the given numbering state. */
  method FillCryostats(tables: Builder.Results, counts: WirelessChannelCounts, st0: Layout, nCryostats: nat)
    returns (r: Result<Layout>)
    ensures r == FillCryostatsFrom(tables, counts, st0, nCryostats, 0)
  {
    var st := st0;
    var c: nat := 0;
    while c < nCryostats
      invariant FillCryostatsFrom(tables, counts, st, nCryostats, c) == FillCryostatsFrom(tables, counts, st0, nCryostats, 0)
      decreases nCryostats - c
    {
      var filled := FillTPCsets(tables, counts, st, c);
      if filled.Err? {
        return Err(filled.error);
      }
      st := filled.value;
      c := c + 1;
    }
    r := Ok(st);
  }

  /** The loops from channel 0 with nothing numbered yet compute the
   *  numbering, and when every readout plane has its wire planes aligned
   *  the numbering tiles the channels and keeps every wire plane inside
   *  the wired part of its block. */
  method FillFromScratch(tables: Builder.Results, counts: WirelessChannelCounts, nCryostats: nat)
    returns (r: Result<Layout>)
    ensures r == ChannelLayout.ChannelLayout(tables, counts, nCryostats)
    ensures r.Ok? && AllAligned(tables) ==> ChannelLayout.Consistent(tables, counts, r.value)
  {
    r := FillCryostats(tables, counts, Layout(0, [], map[]), nCryostats);
    if r.Ok? && AllAligned(tables) {
      LayoutIsConsistent(tables, counts, nCryostats);
    }
  }

  // ---------------------------------------------------------------------------
  // The readout tables

  /** `ReadoutMappingInfo_t`: the six containers filled by the readout
   *  plane builder. */
  class ReadoutMappingInfo {
    var tpcsetCount: seq<nat>
    var tpcsetTPCs: seq<seq<seq<TPCID>>>
    var ropCount: seq<seq<nat>>
    var ropPlanes: seq<seq<seq<seq<Plane>>>>
    var tpcToTPCset: map<TPCID, TPCsetID>
    var planeToROP: map<PlaneID, ROPID>

    /** The six containers as one value. */
    function Tables(): Builder.Results
      reads this
    {
      Builder.Results(tpcsetCount, tpcsetTPCs, ropCount, ropPlanes, tpcToTPCset, planeToROP)
    }

    /** `operator bool`: all six containers are filled; a set object has
     *  at least one cryostat and is not cleared. */
    predicate IsSet(): (filled: bool)
      reads this
      ensures filled ==> NCryostats() > 0 && !Cleared()
    {
      && tpcsetCount != [] && tpcsetTPCs != [] && ropCount != [] && ropPlanes != []
      && tpcToTPCset != map[] && planeToROP != map[]
    }

    /** All six containers empty. */
    predicate Cleared()
      reads this
    {
      Tables() == Builder.Results([], [], [], [], map[], map[])
    }

    /** The two maps are the inverses of the two tables. */
    predicate Indexed()
      reads this
    {
      tpcToTPCset == TPCtoTPCset(tpcsetTPCs) && planeToROP == PlaneToROP(ropPlanes)
    }

    /** The cryostat counts of the four tables agree, as `set` asserts. */
    predicate SameCryostats()
      reads this
    {
      |tpcsetTPCs| == |tpcsetCount| && |ropCount| == |tpcsetCount| && |ropPlanes| == |tpcsetCount|
    }

    /** The readout plane table is a grid of `sets` TPC sets by `rops`
     *  readout planes in every cryostat. */
    predicate Shaped(sets: nat, rops: nat)
      reads this
    {
      forall c :: 0 <= c < |ropPlanes| ==>
        |ropPlanes[c]| == sets && forall s :: 0 <= s < |ropPlanes[c]| ==> |ropPlanes[c][s]| == rops
    }

    /** `NCryostats`: the first dimension of the readout plane table, which
     *  is the cryostat count of every table when they agree. */
    function NCryostats(): (n: nat)
      reads this
      ensures SameCryostats() ==> n == |tpcsetCount| && n == |tpcsetTPCs| && n == |ropCount|
      ensures n == 0 <==> ropPlanes == []
    {
      |ropPlanes|
    }

    /** `MaxTPCsets`: the second dimension of the readout plane table. */
    function MaxTPCsets(): (n: nat)
      reads this
      ensures forall sets, rops :: ropPlanes != [] && Shaped(sets, rops) ==> n == sets
      ensures ropPlanes == [] ==> n == 0
    {
      if ropPlanes == [] then 0 else |ropPlanes[0]|
    }

    /** `MaxROPs`: the third dimension of the readout plane table. */
    function MaxROPs(): (n: nat)
      reads this
      ensures forall sets, rops :: ropPlanes != [] && sets > 0 && Shaped(sets, rops) ==> n == rops
      ensures ropPlanes == [] ==> n == 0
    {
      if ropPlanes == [] || ropPlanes[0] == [] then 0 else |ropPlanes[0][0]|
    }

    constructor()
      ensures Cleared() && !IsSet()
    {
      tpcsetCount, tpcsetTPCs, ropCount, ropPlanes := [], [], [], [];
      tpcToTPCset, planeToROP := map[], map[];
    }

    /** `set`: takes over the containers, which agree on the number of
     *  cryostats. */
    method Set(res: Builder.Results)
      requires |res.tpcsetTPCs| == |res.tpcsetCount| && |res.ropCount| == |res.tpcsetCount|
      requires |res.ropPlanes| == |res.tpcsetCount|
      modifies this
      ensures Tables() == res
      ensures NCryostats() == |res.tpcsetCount|
    {
      tpcsetCount, tpcsetTPCs, ropCount, ropPlanes := res.tpcsetCount, res.tpcsetTPCs, res.ropCount, res.ropPlanes;
      tpcToTPCset, planeToROP := res.tpcToTPCset, res.planeToROP;
    }

    /** `clear`: empties all six containers, which leaves the tables unset. */
    method Clear()
      modifies this
      ensures Cleared() && !IsSet()
    {
      tpcsetCount, tpcsetTPCs, ropCount, ropPlanes := [], [], [], [];
      tpcToTPCset, planeToROP := map[], map[];
    }
  }

  // ---------------------------------------------------------------------------
  // The mapping object

  const WireCoordinateUnsupported :=
    "ICARUSWireReadoutGeom does not support `WireCoordinate()` call."
    + "\nPlease update calling software to use geo::PlaneGeo::WireCoordinate()`:\n"
  const NearestWireIDUnsupported :=
    "ICARUSWireReadoutGeom does not support `NearestWireID()` call."
    + "\nPlease update calling software to use geo::PlaneGeo::NearestWireID()`:\n"
  const PlaneIDsUnsupported :=
    "ICARUSWireReadoutGeom does not support `PlaneIDs()` call."
    + "\nPlease update calling software to use geo::GeometryCore::IteratePlanes()`\n"

  /** `ICARUSWireReadoutGeom`: the wireless channel configuration, the
   *  readout tables, the blocks of channels and the channel range of each
   *  wire plane. */
  class ICARUSWireReadoutGeom {
    const wirelessChannelCounts: WirelessChannelCounts
    const readoutMapInfo: ReadoutMappingInfo
    var channelToWireMap: ChannelToWireMap
    var planeInfo: map<PlaneID, PlaneInfo>

    /** The numbering as a layout value. */
    function CurrentLayout(): Layout
      reads this
    {
      Layout(channelToWireMap.endChannel, channelToWireMap.rops, planeInfo)
    }

    /** The blocks tile the channels up to the end of the numbering and
     *  each numbered wire plane lies in the wired part of its block. */
    ghost predicate Numbered()
      reads this, readoutMapInfo
    {
      ChannelLayout.Consistent(readoutMapInfo.Tables(), wirelessChannelCounts, CurrentLayout())
    }

    /** The configuration and empty tables; `Initialize` fills them. */
    constructor(config: WirelessChannelConfig)
      ensures wirelessChannelCounts == ExtractWirelessChannelParams(config)
      ensures fresh(readoutMapInfo) && readoutMapInfo.Cleared()
      ensures channelToWireMap == ChannelToWireMap([], 0) && planeInfo == map[]
    {
      wirelessChannelCounts := ExtractWirelessChannelParams(config);
      readoutMapInfo := new ReadoutMappingInfo();
      channelToWireMap := ChannelToWireMap([], 0);
      planeInfo := map[];
    }

    /** `buildReadoutPlanes`: runs the builder and keeps its tables; the
     *  builder's exception leaves the tables as they were. */
    method BuildReadoutPlanes(cryostats: seq<seq<seq<Plane>>>, distance: (Plane, Plane) -> real)
      returns (r: Result<Builder.Results>)
      modifies readoutMapInfo
      ensures r == Builder.Build(cryostats, distance)
      ensures r.Ok? ==> readoutMapInfo.Tables() == r.value && readoutMapInfo.Indexed()
      ensures r.Ok? && cryostats != [] ==> readoutMapInfo.IsSet() && readoutMapInfo.NCryostats() == |cryostats|
      ensures r.Err? ==> unchanged(readoutMapInfo)
    {
      var builder := new Builder.ROPandTPCsetBuildingAlg();
      r := builder.Run(cryostats, distance);
      if r.Ok? {
        readoutMapInfo.Set(r.value);
        if cryostats != [] {
          Builder.BuildResultsAreNotEmpty(cryostats, distance);
        }
      }
    }

    /** `fillChannelToWireMap`: numbers the channels from 0 over the
     *  readout planes of the tables, adding the blocks after those already
     *  in the channel map.  On the exception of an unknown plane type the
     *  model leaves the numbering as it was; the code has by then already
     *  stored the planes and blocks numbered before the throw. */
    method FillChannelToWireMap(nCryostats: nat) returns (r: Result<()>)
      requires readoutMapInfo.IsSet() && nCryostats > 0 && planeInfo == map[]
      modifies this
      ensures var filled := FillCryostatsFrom(readoutMapInfo.Tables(), wirelessChannelCounts,
                                              Layout(0, old(channelToWireMap.rops), map[]), nCryostats, 0);
              && (r.Ok? <==> filled.Ok?)
              && (filled.Ok? ==> CurrentLayout() == filled.value)
              && (filled.Err? ==> r == Err(filled.error) && unchanged(this))
    {
      var filled := FillCryostats(readoutMapInfo.Tables(), wirelessChannelCounts,
                                  Layout(0, channelToWireMap.rops, planeInfo), nCryostats);
      if filled.Err? {
        return Err(filled.error);
      }
      channelToWireMap := ChannelToWireMap(filled.value.rops, filled.value.nextChannel);
      planeInfo := filled.value.planeInfo;
      r := Ok(());
    }

    /** `Initialize`: the readout tables first, then the numbering.  On a
     *  mapping that holds no blocks (a new or uninitialized one) with
     *  aligned wire planes, success leaves the channels numbered. */
    method Initialize(cryostats: seq<seq<seq<Plane>>>, distance: (Plane, Plane) -> real) returns (r: Result<()>)
      requires cryostats != [] && planeInfo == map[]
      modifies this, readoutMapInfo
      ensures Builder.Build(cryostats, distance).Err? ==> r == Err(Builder.Build(cryostats, distance).error)
      ensures r.Ok? ==> && Builder.Build(cryostats, distance).Ok?
                        && readoutMapInfo.Tables() == Builder.Build(cryostats, distance).value
                        && readoutMapInfo.IsSet() && readoutMapInfo.Indexed()
      ensures r.Ok? && old(channelToWireMap.rops) == [] ==>
                ChannelLayout.ChannelLayout(readoutMapInfo.Tables(), wirelessChannelCounts, |cryostats|) == Ok(CurrentLayout())
      ensures r.Ok? && old(channelToWireMap.rops) == [] && AllAligned(readoutMapInfo.Tables()) ==> Numbered()
    {
      var built := BuildReadoutPlanes(cryostats, distance);
      if built.Err? {
        return Err(built.error);
      }
      r := FillChannelToWireMap(|cryostats|);
      if r.Ok? && old(channelToWireMap.rops) == [] && AllAligned(readoutMapInfo.Tables()) {
        LayoutIsConsistent(readoutMapInfo.Tables(), wirelessChannelCounts, |cryostats|);
      }
    }

    /** `Uninitialize`: empties the tables, the channel map and the plane
     *  information. */
    method Uninitialize()
      modifies this, readoutMapInfo
      ensures readoutMapInfo.Cleared() && !readoutMapInfo.IsSet()
      ensures channelToWireMap == ChannelToWireMap([], 0) && planeInfo == map[]
    {
      readoutMapInfo.Clear();
      channelToWireMap := ChannelToWireMap([], 0);
      planeInfo := map[];
    }

    // -------------------------------------------------------------------------
    // Channels and wires

    /** `Nchannels()`: the end of the numbering, which is the total of the
     *  block sizes when the blocks tile the channels. */
    function Nchannels(): (n: int)
      reads this
      ensures Tiled(channelToWireMap.rops, channelToWireMap.endChannel) ==> n == SumChannels(channelToWireMap.rops)
    {
      if Tiled(channelToWireMap.rops, channelToWireMap.endChannel) then
        TiledMeans(channelToWireMap.rops, channelToWireMap.endChannel);
        channelToWireMap.endChannel
      else
        channelToWireMap.endChannel
    }

    /** `Nchannels(ropid)`: the size of the (first) block of a readout plane, 0 for
     *  a readout plane with no block. */
    function NchannelsInROP(rid: ROPID): (n: int)
      reads this
      ensures (forall b :: b in channelToWireMap.rops ==> b.rop != rid) ==> n == 0
      ensures n != 0 ==> exists b :: b in channelToWireMap.rops && b.rop == rid && b.nChannels == n
      ensures forall i :: 0 <= i < |channelToWireMap.rops| && channelToWireMap.rops[i].rop == rid
                && (forall j :: 0 <= j < i ==> channelToWireMap.rops[j].rop != rid)
                ==> n == channelToWireMap.rops[i].nChannels
    {
      match FindROP(channelToWireMap.rops, rid)
      case None => 0
      case Some(b) => b.nChannels
    }

    /** `FirstChannelInROP`: the first channel of the block of a readout
     *  plane; `InvalidChannelID` for an invalid ID or a readout plane with
     *  no block. */
    function FirstChannelInROP(rid: Option<ROPID>): (first: int)
      reads this
      ensures rid.None? ==> first == InvalidChannelID
      ensures rid.Some? && (forall b :: b in channelToWireMap.rops ==> b.rop != rid.value) ==> first == InvalidChannelID
      ensures rid.Some? ==>
                forall i :: 0 <= i < |channelToWireMap.rops| && channelToWireMap.rops[i].rop == rid.value
                  && (forall j :: 0 <= j < i ==> channelToWireMap.rops[j].rop != rid.value)
                  ==> first == channelToWireMap.rops[i].firstChannel
    {
      if rid.None? then InvalidChannelID
      else
        match FindROP(channelToWireMap.rops, rid.value)
        case None => InvalidChannelID
        case Some(b) => b.firstChannel
    }

    /** `ChannelToROP`: the readout plane of the block holding a channel;
     *  none for `InvalidChannelID` or a channel in no block. */
    function ChannelToROP(channel: nat): (rid: Option<ROPID>)
      reads this
      ensures rid.Some? ==> channel != InvalidChannelID
      ensures rid.Some? ==> exists b :: b in channelToWireMap.rops && b.rop == rid.value && b.Holds(channel)
    {
      if channel == InvalidChannelID then None
      else
        match FindChannel(channelToWireMap.rops, channel)
        case None => None
        case Some(b) => Some(b.rop)
    }

    /** `PlaneWireToChannel`: the first channel of the wire's plane plus the
     *  wire number. */
    function PlaneWireToChannel(wid: WireID): (channel: int)
      reads this
      requires wid.plane in planeInfo
      ensures channel == planeInfo[wid.plane].FirstChannel() + wid.wire
      ensures planeInfo[wid.plane].channelRange.Contains(channel) <==>
                wid.wire < planeInfo[wid.plane].EndChannel() - planeInfo[wid.plane].FirstChannel()
    {
      planeInfo[wid.plane].WireChannel(wid.wire)
    }

    /** `ChannelToWire`: the wires with a channel, one per wire plane of its
     *  readout plane whose range holds it, in the order of the planes; an
     *  exception for a channel in no block. */
    method ChannelToWire(channel: nat) returns (r: Result<seq<WireID>>)
      requires planeInfo != map[]
      ensures r == ChannelToWireOf(channelToWireMap.rops, readoutMapInfo.Tables(), planeInfo, channel)
    {
      var channelInfo := FindChannel(channelToWireMap.rops, channel);
      if channelInfo.None? {
        return Err(InvalidChannelRequested);
      }
      var planes := PlanesOf(readoutMapInfo.Tables(), channelInfo.value.rop);
      var allSegments: seq<WireID> := [];
      var i := 0;
      while i < |planes|
        invariant 0 <= i <= |planes|
        invariant allSegments == Segments(planes, planeInfo, channel, i)
      {
        var pid := planes[i].id;
        if pid in planeInfo && planeInfo[pid].channelRange.Contains(channel) {
          allSegments := allSegments + [WireID(pid, channel - planeInfo[pid].FirstChannel())];
        }
        i := i + 1;
      }
      r := Ok(allSegments);
    }

    /** `SignalTypeForChannelImpl`: from the plane type of the readout plane
     *  of the block holding the channel; `MysteryType` for a channel in no
     *  block. */
    function SignalTypeForChannel(channel: nat): (sigType: SigType)
      reads this, readoutMapInfo
      ensures (forall b :: b in channelToWireMap.rops ==> !b.Holds(channel)) ==> sigType == MysteryType
    {
      match FindChannel(channelToWireMap.rops, channel)
      case None => MysteryType
      case Some(b) => SignalTypeOf(FindPlaneType(PlanesOf(readoutMapInfo.Tables(), b.rop)))
    }

    /** `WireCoordinate`: always the exception sending callers to the plane. */
    function WireCoordinate(y: real, z: real, pid: PlaneID): (r: Result<real>)
      ensures r.Err? && r.error == WireCoordinateUnsupported
    {
      Err(WireCoordinateUnsupported)
    }

    /** `NearestWireID`: always the exception sending callers to the plane. */
    function NearestWireID(worldPos: (real, real, real), pid: PlaneID): (r: Result<WireID>)
      ensures r.Err? && r.error == NearestWireIDUnsupported
    {
      Err(NearestWireIDUnsupported)
    }

    /** `PlaneIDs`: always the exception sending callers to the geometry. */
    function PlaneIDs(): (r: Result<set<PlaneID>>)
      ensures r.Err? && r.error == PlaneIDsUnsupported
    {
      Err(PlaneIDsUnsupported)
    }

    // -------------------------------------------------------------------------
    // Cryostats, TPC sets and readout planes

    /** `HasCryostat`: the cryostat number is below the number of cryostats
     *  of the tables. */
    predicate HasCryostat(c: nat): (known: bool)
      reads this, readoutMapInfo
      requires readoutMapInfo.IsSet()
      ensures c == 0 ==> known
      ensures known <==> c < |readoutMapInfo.ropPlanes|
    {
      c < readoutMapInfo.NCryostats()
    }

    /** `NTPCsets`: the TPC set count of a known cryostat, else 0. */
    function NTPCsets(c: nat): (n: nat)
      reads this, readoutMapInfo
      requires readoutMapInfo.IsSet()
      ensures n > 0 ==> HasCryostat(c)
    {
      if HasCryostat(c) then SetCountOf(readoutMapInfo.Tables(), c) else 0
    }

    /** `MaxTPCsets`: the TPC set width of the readout plane grid. */
    function MaxTPCsets(): (n: nat)
      reads this, readoutMapInfo
      requires readoutMapInfo.IsSet()
      ensures forall sets, rops :: readoutMapInfo.Shaped(sets, rops) ==> n == sets
    {
      readoutMapInfo.MaxTPCsets()
    }

    /** `HasTPCset`: the cryostat is known and the TPC set number is below
     *  its TPC set count. */
    predicate HasTPCset(sid: TPCsetID)
      reads this, readoutMapInfo
      requires readoutMapInfo.IsSet()
      ensures HasTPCset(sid) <==> sid.tpcset < NTPCsets(sid.cryostat)
    {
      if HasCryostat(sid.cryostat) then sid.tpcset < SetCountOf(readoutMapInfo.Tables(), sid.cryostat) else false
    }

    /** `NROPs`: the readout plane count of a known TPC set, else 0. */
    function NROPs(sid: TPCsetID): (n: nat)
      reads this, readoutMapInfo
      requires readoutMapInfo.IsSet()
      ensures n > 0 ==> HasTPCset(sid)
    {
      if HasTPCset(sid) then ROPcountOf(readoutMapInfo.Tables(), sid.cryostat, sid.tpcset) else 0
    }

    /** `MaxROPs`: the readout plane width of the readout plane grid. */
    function MaxROPs(): (n: nat)
      reads this, readoutMapInfo
      requires readoutMapInfo.IsSet()
      ensures forall sets, rops :: sets > 0 && readoutMapInfo.Shaped(sets, rops) ==> n == rops
    {
      readoutMapInfo.MaxROPs()
    }

    /** `HasROP`: the TPC set is known and the readout plane number is below
     *  its readout plane count. */
    predicate HasROP(rid: ROPID)
      reads this, readoutMapInfo
      requires readoutMapInfo.IsSet()
      ensures HasROP(rid) <==> rid.rop < NROPs(rid.AsTPCsetID())
      ensures HasROP(rid) ==> HasTPCset(rid.AsTPCsetID()) && HasCryostat(rid.cryostat)
    {
      if HasTPCset(rid.AsTPCsetID()) then rid.rop < ROPcountOf(readoutMapInfo.Tables(), rid.cryostat, rid.tpcset)
      else false
    }

    /** `TPCtoTPCset`: the TPC set of a TPC; none for an invalid ID or a
     *  TPC in no TPC set. */
    function TPCtoTPCset(tpc: Option<TPCID>): (sid: Option<TPCsetID>)
      reads this, readoutMapInfo
      requires readoutMapInfo.IsSet()
      ensures tpc.None? ==> sid.None?
      ensures sid.Some? ==> tpc.value in readoutMapInfo.tpcToTPCset
    {
      if tpc.None? || tpc.value !in readoutMapInfo.tpcToTPCset then None
      else Some(readoutMapInfo.tpcToTPCset[tpc.value])
    }

    /** `TPCsetToTPCs`: the TPCs of a TPC set, in the order of the table;
     *  none for an invalid ID. */
    function TPCsetToTPCs(sid: Option<TPCsetID>): (tpcs: seq<TPCID>)
      reads this, readoutMapInfo
      requires readoutMapInfo.IsSet()
      ensures sid.None? ==> tpcs == []
    {
      if sid.None? then [] else TPCsOf(readoutMapInfo.Tables(), sid.value)
    }

    /** `FirstTPCinTPCset`: the first TPC of the TPC set; none for an
     *  invalid ID or a TPC set without TPCs. */
    function FirstTPCinTPCset(sid: Option<TPCsetID>): (tpc: Option<TPCID>)
      reads this, readoutMapInfo
      requires readoutMapInfo.IsSet()
      ensures tpc.Some? <==> TPCsetToTPCs(sid) != []
      ensures tpc.Some? ==> tpc.value == TPCsetToTPCs(sid)[0]
    {
      if sid.None? then None
      else
        var tpcs := TPCsOf(readoutMapInfo.Tables(), sid.value);
        if tpcs == [] then None else Some(tpcs[0])
    }

    /** `WirePlaneToROP`: the readout plane of a wire plane; none for an
     *  invalid ID or a plane in no readout plane. */
    function WirePlaneToROP(pid: Option<PlaneID>): (rid: Option<ROPID>)
      reads this, readoutMapInfo
      requires readoutMapInfo.IsSet()
      ensures pid.None? ==> rid.None?
      ensures rid.Some? ==> pid.value in readoutMapInfo.planeToROP
    {
      if pid.None? || pid.value !in readoutMapInfo.planeToROP then None
      else Some(readoutMapInfo.planeToROP[pid.value])
    }

    /** `ROPtoWirePlanes`: the wire planes of a readout plane, in the order
     *  of the table; none for an invalid ID. */
    function ROPtoWirePlanes(rid: Option<ROPID>): (pids: seq<PlaneID>)
      reads this, readoutMapInfo
      requires readoutMapInfo.IsSet()
      ensures rid.None? ==> pids == []
      ensures rid.Some? ==> |pids| == |PlanesOf(readoutMapInfo.Tables(), rid.value)|
    {
      if rid.None? then [] else IdsOf(PlanesOf(readoutMapInfo.Tables(), rid.value))
    }

    /** `ROPtoTPCs`: the TPC of each wire plane of a readout plane, in
     *  order and with repetitions kept. */
    function ROPtoTPCs(rid: Option<ROPID>): (tpcs: seq<TPCID>)
      reads this, readoutMapInfo
      requires readoutMapInfo.IsSet()
      ensures |tpcs| == |ROPtoWirePlanes(rid)|
      ensures forall i :: 0 <= i < |tpcs| ==> tpcs[i] == ROPtoWirePlanes(rid)[i].AsTPCID()
    {
      if rid.None? then []
      else
        var planes := PlanesOf(readoutMapInfo.Tables(), rid.value);
        seq(|planes|, i requires 0 <= i < |planes| => planes[i].id.AsTPCID())
    }

    /** `FirstWirePlaneInROP`: the first wire plane of a readout plane; none
     *  for an invalid ID or a readout plane without planes. */
    function FirstWirePlaneInROP(rid: Option<ROPID>): (pid: Option<PlaneID>)
      reads this, readoutMapInfo
      requires readoutMapInfo.IsSet()
      ensures pid.Some? <==> ROPtoWirePlanes(rid) != []
      ensures pid.Some? ==> pid.value == ROPtoWirePlanes(rid)[0]
    {
      if rid.None? then None
      else
        var planes := PlanesOf(readoutMapInfo.Tables(), rid.value);
        if planes == [] then None else Some(planes[0].id)
    }
  }

  // ---------------------------------------------------------------------------
  // What the queries promise

  /** The end of the numbering is the total of the block sizes, and the
   *  first block starts at channel 0. */
  lemma {:induction false} NchannelsIsTotal(m: ICARUSWireReadoutGeom)
    requires m.Numbered()
    ensures m.Nchannels() == SumChannels(m.channelToWireMap.rops)
    ensures m.channelToWireMap.rops != [] ==> m.channelToWireMap.rops[0].firstChannel == 0
  {
    TiledMeans(m.channelToWireMap.rops, m.channelToWireMap.endChannel);
  }

  /** A valid channel has a readout plane exactly when it is below the end
   *  of the numbering. */
  lemma {:induction false} ChannelToROPCovers(m: ICARUSWireReadoutGeom, channel: nat)
    requires m.Numbered()
    ensures m.ChannelToROP(channel).Some? <==> channel != InvalidChannelID && channel < m.Nchannels()
  {
    var rops := m.channelToWireMap.rops;
    TiledCovers(rops, m.channelToWireMap.endChannel, channel);
    if channel < m.Nchannels() {
      var k :| 0 <= k < |rops| && rops[k].Holds(channel);
      assert rops[k] in rops;
    }
  }

  /** Every channel of the block of a readout plane maps back to that
   *  readout plane. */
  lemma {:induction false} ROPChannelsMapBack(m: ICARUSWireReadoutGeom, rid: ROPID, channel: nat)
    requires m.Numbered()
    requires m.FirstChannelInROP(Some(rid)) <= channel < m.FirstChannelInROP(Some(rid)) + m.NchannelsInROP(rid)
    requires channel != InvalidChannelID
    ensures m.ChannelToROP(channel) == Some(rid)
  {
    var rops := m.channelToWireMap.rops;
    var b := FindROP(rops, rid).value;
    var k :| 0 <= k < |rops| && rops[k] == b;
    FoundIsTheBlock(rops, m.channelToWireMap.endChannel, k, channel);
  }

  /** `ChannelToWire` throws exactly for the channels outside the
   *  numbering. */
  lemma {:induction false} ChannelToWireFailsExactlyOutside(m: ICARUSWireReadoutGeom, channel: nat)
    requires m.Numbered()
    ensures ChannelToWireOf(m.channelToWireMap.rops, m.readoutMapInfo.Tables(), m.planeInfo, channel).Err?
            <==> channel >= m.Nchannels()
  {
    ChannelToWireFailsOutside(m.readoutMapInfo.Tables(), m.wirelessChannelCounts, m.CurrentLayout(), channel);
  }

  /** Round trip: the channel of a wire of a numbered wire plane maps back
   *  to a list of wires holding that wire. */
  lemma {:induction false} WireToChannelToWire(m: ICARUSWireReadoutGeom, wid: WireID) returns (wires: seq<WireID>)
    requires m.Numbered()
    requires wid.plane in m.planeInfo
    requires wid.wire < m.planeInfo[wid.plane].EndChannel() - m.planeInfo[wid.plane].FirstChannel()
    ensures ChannelToWireOf(m.channelToWireMap.rops, m.readoutMapInfo.Tables(), m.planeInfo, m.PlaneWireToChannel(wid))
            == Ok(wires)
    ensures wid in wires
  {
    wires := WireChannelRoundTrip(m.readoutMapInfo.Tables(), m.wirelessChannelCounts, m.CurrentLayout(),
                                  wid.plane, wid.wire);
    assert wid == WireID(wid.plane, wid.wire);
  }

  /** The channels of a block outside its wired part are wireless: they
   *  are valid channels that map to no wire. */
  lemma {:induction false} WirelessChannelsMapToNoWire(m: ICARUSWireReadoutGeom, k: nat, channel: nat)
    requires m.Numbered()
    requires k < |m.channelToWireMap.rops|
    requires var b := m.channelToWireMap.rops[k];
             var pair := ROPcounts(m.readoutMapInfo.Tables(), m.wirelessChannelCounts, b.rop);
             && b.Holds(channel) && pair.Ok?
             && (channel < b.firstChannel + pair.value.0 || channel >= b.firstChannel + b.nChannels - pair.value.1)
    ensures channel < m.Nchannels()
    ensures ChannelToWireOf(m.channelToWireMap.rops, m.readoutMapInfo.Tables(), m.planeInfo, channel) == Ok([])
  {
    var rops := m.channelToWireMap.rops;
    TiledCovers(rops, m.channelToWireMap.endChannel, channel);
    WirelessChannelsHaveNoWires(m.readoutMapInfo.Tables(), m.wirelessChannelCounts, m.CurrentLayout(), k, channel);
  }

  /** The signal type of a channel is the one of the plane type of the
   *  readout plane of its block, and `MysteryType` past the numbering. */
  lemma {:induction false} SignalTypeByBlock(m: ICARUSWireReadoutGeom, channel: nat)
    requires m.Numbered()
    ensures channel >= m.Nchannels() ==> m.SignalTypeForChannel(channel) == MysteryType
    ensures forall k :: 0 <= k < |m.channelToWireMap.rops| && m.channelToWireMap.rops[k].Holds(channel) ==>
              m.SignalTypeForChannel(channel)
              == SignalTypeOf(FindPlaneType(PlanesOf(m.readoutMapInfo.Tables(), m.channelToWireMap.rops[k].rop)))
  {
    var rops := m.channelToWireMap.rops;
    TiledCovers(rops, m.channelToWireMap.endChannel, channel);
    forall k | 0 <= k < |rops| && rops[k].Holds(channel)
      ensures m.SignalTypeForChannel(channel) == SignalTypeOf(FindPlaneType(PlanesOf(m.readoutMapInfo.Tables(), rops[k].rop)))
    {
      FoundIsTheBlock(rops, m.channelToWireMap.endChannel, k, channel);
    }
  }

  /** Round trip: a TPC with a TPC set is one of that set's TPCs. */
  lemma {:induction false} TPCsetHoldsItsTPCs(m: ICARUSWireReadoutGeom, tpc: TPCID)
    requires m.readoutMapInfo.IsSet() && m.readoutMapInfo.Indexed()
    requires m.TPCtoTPCset(Some(tpc)).Some?
    ensures tpc in m.TPCsetToTPCs(m.TPCtoTPCset(Some(tpc)))
  {
    TPCtoTPCsetMeans(m.readoutMapInfo.tpcsetTPCs, tpc);
  }

  /** Round trip the other way: with TPC sets that share no TPC, each TPC of
   *  a TPC set of the table has that TPC set. */
  lemma {:induction false} TPCsOfTPCsetMapBack(m: ICARUSWireReadoutGeom, sid: TPCsetID, tpc: TPCID)
    requires m.readoutMapInfo.IsSet() && m.readoutMapInfo.Indexed()
    requires DisjointTPCsets(m.readoutMapInfo.tpcsetTPCs)
    requires sid.cryostat < |m.readoutMapInfo.tpcsetTPCs| && sid.tpcset < |m.readoutMapInfo.tpcsetTPCs[sid.cryostat]|
    requires tpc in m.TPCsetToTPCs(Some(sid))
    ensures m.TPCtoTPCset(Some(tpc)) == Some(sid)
  {
    TPCtoTPCsetInverts(m.readoutMapInfo.tpcsetTPCs, sid.cryostat, sid.tpcset, tpc);
  }

  /** Round trip: a wire plane with a readout plane is one of that readout
   *  plane's wire planes. */
  lemma {:induction false} ROPHoldsItsWirePlanes(m: ICARUSWireReadoutGeom, pid: PlaneID)
    requires m.readoutMapInfo.IsSet() && m.readoutMapInfo.Indexed()
    requires m.WirePlaneToROP(Some(pid)).Some?
    ensures pid in m.ROPtoWirePlanes(m.WirePlaneToROP(Some(pid)))
  {
    var table: seq<seq<seq<seq<Plane>>>> := m.readoutMapInfo.ropPlanes;
    PlaneToROPSound(table, pid);
    var id: ROPID := PlaneToROP(table)[pid];
    var i: int :| 0 <= i < |table[id.cryostat][id.tpcset][id.rop]| && table[id.cryostat][id.tpcset][id.rop][i].id == pid;
    assert m.ROPtoWirePlanes(Some(id))[i] == pid;
  }

  /** Round trip the other way: with readout planes that share no wire
   *  plane, each wire plane of a readout plane of the table has that
   *  readout plane. */
  lemma {:induction false} WirePlanesOfROPMapBack(m: ICARUSWireReadoutGeom, rid: ROPID, i: nat)
    requires m.readoutMapInfo.IsSet() && m.readoutMapInfo.Indexed()
    requires DisjointROPs(m.readoutMapInfo.ropPlanes)
    requires i < |m.ROPtoWirePlanes(Some(rid))|
    ensures m.WirePlaneToROP(Some(m.ROPtoWirePlanes(Some(rid))[i])) == Some(rid)
  {
    var table := m.readoutMapInfo.ropPlanes;
    PlaneToROPInverts(table, rid.cryostat, rid.tpcset, rid.rop, i);
  }
}
