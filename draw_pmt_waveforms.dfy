/** The pure pieces of the `DrawPMTwaveforms` gallery example: time ranges
 *  and hardware settings from the configuration, waveform selection, time
 *  clustering, grouping by channel, the canvas pad layout and the averaging
 *  median.
 *
 *  Times are reals in microseconds; a waveform is reduced to its channel and
 *  time stamp, the only data these pieces read. */
module DrawPMTwaveforms {
  import opened Wrappers
  import opened Sorting
  import opened IntMath

  // ---------------------------------------------------------------------------
  // `ValueRange`

  /** A range whose bounds may each be missing. */
  datatype ValueRange = ValueRange(lower: Option<real>, upper: Option<real>)
  {
    /** `contains`: a missing bound does not constrain; the lower bound is
     *  included, the upper one is not. */
    predicate Contains(v: real)
    {
      (lower.None? || v >= lower.value) && (upper.None? || v < upper.value)
    }
  }

  /** A range with no bounds contains everything. */
  lemma {:induction false} UnboundedContainsAll(v: real)
    ensures ValueRange(None, None).Contains(v)
  {
  }

  /** A range with both bounds is the half-open interval between them: it
   *  holds its lower bound exactly when it is not empty, never its upper
   *  bound, and nothing at all when the bounds are inverted. */
  lemma {:induction false} BoundedIsHalfOpen(l: real, u: real)
    ensures ValueRange(Some(l), Some(u)).Contains(l) <==> l < u
    ensures !ValueRange(Some(l), Some(u)).Contains(u)
    ensures u <= l ==> forall v :: !ValueRange(Some(l), Some(u)).Contains(v)
  {
  }

  // ---------------------------------------------------------------------------
  // `HWSettingMap`

  /** A lookup of hardware settings by channel. */
  class HWSettingMap {
    var values: map<nat, int>

    /** An empty map. */
    constructor ()
      ensures values == map[]
    {
      values := map[];
    }

    /** `contains`. */
    predicate Contains(channel: nat)
      reads this
    {
      channel in values
    }

    /** `operator()(channel)`: the setting, or `std::out_of_range` when the
     *  channel has none. */
    function At(channel: nat): (r: Result<int>)
      reads this
      ensures r.Ok? <==> Contains(channel)
      ensures r.Ok? ==> r.value == values[channel]
    {
      if channel in values then Ok(values[channel]) else Err("out_of_range")
    }

    /** `operator()(channel, defVal)`: the setting, or `defVal`. */
    function Lookup(channel: nat, defVal: int): (v: int)
      reads this
      ensures Contains(channel) ==> v == values[channel]
      ensures !Contains(channel) ==> v == defVal
    {
      if channel in values then values[channel] else defVal
    }

    /** `get`: the setting, or nothing (a null pointer). */
    function Get(channel: nat): (r: Option<int>)
      reads this
      ensures r.Some? <==> Contains(channel)
      ensures r.Some? ==> r.value == values[channel]
    {
      if channel in values then Some(values[channel]) else None
    }

    /** `set`: sets the setting of `channel`, replacing any earlier one. */
    method Set(channel: nat, value: int)
      modifies this
      ensures values == old(values)[channel := value]
      ensures Get(channel) == Some(value)
      ensures forall c :: c != channel ==> Get(c) == old(Get(c))
    {
      values := values[channel := value];
    }
  }

  /** The three lookups agree: `get` finds what `at` finds, and the
   *  defaulted lookup returns it. */
  lemma {:induction false} LookupsAgree(m: HWSettingMap, channel: nat, defVal: int)
    ensures m.At(channel).Ok? <==> m.Get(channel).Some?
    ensures m.Get(channel).Some? ==> m.At(channel).value == m.Get(channel).value == m.Lookup(channel, defVal)
    ensures m.Get(channel).None? ==> m.Lookup(channel, defVal) == defVal
  {
  }

  // ---------------------------------------------------------------------------
  // Readout settings from the configuration

  /** One `ReadoutSettings` table: a channel with an optional baseline and an
   *  optional threshold. */
  datatype ReadoutSetting = ReadoutSetting(channel: nat, baseline: Option<int>, threshold: Option<int>)

  /** The settings read, or the first duplicate met (`std::runtime_error`,
   *  whose message names the setting, the channel and both values). */
  datatype HWSettings =
    | Settings(baselines: map<nat, int>, thresholds: map<nat, int>)
    | Duplicate(setting: string, channel: nat, first: int, second: int)

  /** The readout-settings loop of `parseValidatedAlgorithmConfiguration`,
   *  over the first `n` tables: each baseline, then each threshold, is set
   *  for its channel, and a second one for the same channel is an error. */
  function Collect(settings: seq<ReadoutSetting>): (r: HWSettings)
  {
    if settings == [] then Settings(map[], map[])
    else
      var s := settings[|settings| - 1];
      match Collect(settings[..|settings| - 1])
      case Duplicate(_, _, _, _) => Collect(settings[..|settings| - 1])
      case Settings(baselines, thresholds) =>
        if s.baseline.Some? && s.channel in baselines then
          Duplicate("baseline", s.channel, baselines[s.channel], s.baseline.value)
        else
          var baselines' := if s.baseline.Some? then baselines[s.channel := s.baseline.value] else baselines;
          if s.threshold.Some? && s.channel in thresholds then
            Duplicate("threshold", s.channel, thresholds[s.channel], s.threshold.value)
          else
            Settings(baselines', if s.threshold.Some? then thresholds[s.channel := s.threshold.value] else thresholds)
  }

  function BaselineOf(s: ReadoutSetting): Option<int> { s.baseline }
  function ThresholdOf(s: ReadoutSetting): Option<int> { s.threshold }

  /** No channel gets the setting picked by `pick` twice. */
  predicate Unrepeated(settings: seq<ReadoutSetting>, pick: ReadoutSetting -> Option<int>)
  {
    forall i, j :: 0 <= i < j < |settings| && settings[i].channel == settings[j].channel ==>
      !(pick(settings[i]).Some? && pick(settings[j]).Some?)
  }

  /** No channel has two baselines, nor two thresholds. */
  predicate NoDuplicates(settings: seq<ReadoutSetting>)
  {
    Unrepeated(settings, BaselineOf) && Unrepeated(settings, ThresholdOf)
  }

  /** Some table sets the setting picked by `pick` of `channel` to `v`. */
  ghost predicate Sets(settings: seq<ReadoutSetting>, pick: ReadoutSetting -> Option<int>, channel: nat, v: int)
  {
    exists i :: 0 <= i < |settings| && settings[i].channel == channel && pick(settings[i]) == Some(v)
  }

  /** `m` holds exactly the settings picked by `pick`. */
  ghost predicate Holds(m: map<nat, int>, settings: seq<ReadoutSetting>, pick: ReadoutSetting -> Option<int>)
  {
    forall c, v :: c in m && m[c] == v <==> Sets(settings, pick, c, v)
  }

  /** The configuration is accepted exactly when no setting is repeated for a
   *  channel, and then the maps hold every setting given and nothing else. */
  lemma {:induction false} CollectMeans(settings: seq<ReadoutSetting>)
    ensures Collect(settings).Settings? <==> NoDuplicates(settings)
    ensures Collect(settings).Settings? ==>
      Holds(Collect(settings).baselines, settings, BaselineOf)
      && Holds(Collect(settings).thresholds, settings, ThresholdOf)
  {
    if settings != [] {
      var init, s := settings[..|settings| - 1], settings[|settings| - 1];
      CollectMeans(init);
      assert forall i :: 0 <= i < |init| ==> init[i] == settings[i];
      if NoDuplicates(init) {
        var r := Collect(init);
        if s.baseline.Some? && s.channel in r.baselines {
          RepeatedSetting(settings, BaselineOf, r.baselines);
        } else {
          var baselines := if s.baseline.Some? then r.baselines[s.channel := s.baseline.value] else r.baselines;
          OneMore(settings, BaselineOf, r.baselines, baselines);
          if s.threshold.Some? && s.channel in r.thresholds {
            RepeatedSetting(settings, ThresholdOf, r.thresholds);
          } else {
            var thresholds := if s.threshold.Some? then r.thresholds[s.channel := s.threshold.value] else r.thresholds;
            OneMore(settings, ThresholdOf, r.thresholds, thresholds);
          }
        }
      } else {
        assert !NoDuplicates(settings) by {
          if !Unrepeated(init, BaselineOf) {
            var i, j :| 0 <= i < j < |init| && init[i].channel == init[j].channel
              && BaselineOf(init[i]).Some? && BaselineOf(init[j]).Some?;
            assert settings[i] == init[i] && settings[j] == init[j];
          } else {
            var i, j :| 0 <= i < j < |init| && init[i].channel == init[j].channel
              && ThresholdOf(init[i]).Some? && ThresholdOf(init[j]).Some?;
            assert settings[i] == init[i] && settings[j] == init[j];
          }
        }
      }
    }
  }

  /** A table setting again what an earlier one set is a repetition. */
  lemma {:induction false} RepeatedSetting(settings: seq<ReadoutSetting>, pick: ReadoutSetting -> Option<int>, m: map<nat, int>)
    requires settings != []
    requires Holds(m, settings[..|settings| - 1], pick)
    requires pick(settings[|settings| - 1]).Some? && settings[|settings| - 1].channel in m
    ensures !Unrepeated(settings, pick)
  {
    var init, s := settings[..|settings| - 1], settings[|settings| - 1];
    assert Sets(init, pick, s.channel, m[s.channel]);
    var i :| 0 <= i < |init| && init[i].channel == s.channel && pick(init[i]) == Some(m[s.channel]);
    assert settings[i] == init[i];
  }

  /** One more table with no repetition: the map gains its setting. */
  lemma {:induction false} OneMore(settings: seq<ReadoutSetting>, pick: ReadoutSetting -> Option<int>, m: map<nat, int>, m': map<nat, int>)
    requires settings != []
    requires Unrepeated(settings[..|settings| - 1], pick) && Holds(m, settings[..|settings| - 1], pick)
    requires var s := settings[|settings| - 1];
      !(pick(s).Some? && s.channel in m)
      && m' == if pick(s).Some? then m[s.channel := pick(s).value] else m
    ensures Unrepeated(settings, pick) && Holds(m', settings, pick)
  {
    var init, s := settings[..|settings| - 1], settings[|settings| - 1];
    assert forall i :: 0 <= i < |init| ==> init[i] == settings[i];
    forall i, j | 0 <= i < j < |settings| && settings[i].channel == settings[j].channel
      ensures !(pick(settings[i]).Some? && pick(settings[j]).Some?)
    {
      if j == |settings| - 1 && pick(settings[i]).Some? && pick(s).Some? {
        assert Sets(init, pick, s.channel, pick(settings[i]).value);
      }
    }
    forall c, v
      ensures c in m' && m'[c] == v <==> Sets(settings, pick, c, v)
    {
      if Sets(settings, pick, c, v) {
        var i :| 0 <= i < |settings| && settings[i].channel == c && pick(settings[i]) == Some(v);
        if i < |init| {
          assert Sets(init, pick, c, v);
        }
      }
      if Sets(init, pick, c, v) {
        var i :| 0 <= i < |init| && init[i].channel == c && pick(init[i]) == Some(v);
        assert settings[i] == init[i];
      }
    }
  }

  /** The readout-settings loop itself, filling two `HWSettingMap`s and
   *  stopping at the first duplicate. */
  method ParseReadoutSettings(settings: seq<ReadoutSetting>) returns (r: HWSettings)
    ensures r == Collect(settings)
  {
    var readoutBaselines := new HWSettingMap();
    var readoutThresholds := new HWSettingMap();
    for i := 0 to |settings|
      invariant Collect(settings[..i]) == Settings(readoutBaselines.values, readoutThresholds.values)
    {
      assert settings[..i + 1][..i] == settings[..i];
      var s := settings[i];
      if s.baseline.Some? {
        if readoutBaselines.Contains(s.channel) {
          PrefixDuplicate(settings, i + 1);
          return Duplicate("baseline", s.channel, readoutBaselines.values[s.channel], s.baseline.value);
        }
        readoutBaselines.Set(s.channel, s.baseline.value);
      }
      if s.threshold.Some? {
        if readoutThresholds.Contains(s.channel) {
          PrefixDuplicate(settings, i + 1);
          return Duplicate("threshold", s.channel, readoutThresholds.values[s.channel], s.threshold.value);
        }
        readoutThresholds.Set(s.channel, s.threshold.value);
      }
    }
    assert settings[..|settings|] == settings;
    return Settings(readoutBaselines.values, readoutThresholds.values);
  }

  /** Once a duplicate is met, the outcome stays that duplicate. */
  lemma {:induction false} PrefixDuplicate(settings: seq<ReadoutSetting>, n: nat)
    requires n <= |settings| && Collect(settings[..n]).Duplicate?
    ensures Collect(settings) == Collect(settings[..n])
    decreases |settings| - n
  {
    if n < |settings| {
      assert settings[..n + 1][..n] == settings[..n];
      PrefixDuplicate(settings, n + 1);
    } else {
      assert settings[..n] == settings;
    }
  }

  // ---------------------------------------------------------------------------
  // Selection

  /** A waveform as these pieces see it. */
  datatype Waveform = Waveform(channel: nat, timeStamp: real)

  /** `WaveformInfo_t`: a waveform, or none (a null pointer). */
  type WaveformInfo = Option<Waveform>

  /** The waveform selection of `analyze`: with no time slices configured
   *  every waveform is selected, otherwise one whose time some slice
   *  contains. */
  method IsSelected(plotTimes: seq<ValueRange>, time: real) returns (selected: bool)
    ensures selected <==> plotTimes == [] || exists k :: 0 <= k < |plotTimes| && plotTimes[k].Contains(time)
  {
    selected := plotTimes == [];
    for k := 0 to |plotTimes|
      invariant selected <==> plotTimes == [] || exists i :: 0 <= i < k && plotTimes[i].Contains(time)
    {
      if !plotTimes[k].Contains(time) {
        continue;
      }
      selected := true;
      break;
    }
  }

  /** The lowest `raw::ADC_Count_t` (a 16-bit signed count), standing for
   *  "no hardware setting". */
  const NoHWSetting: int := -32768

  /** A selected waveform with the hardware settings of its channel. */
  datatype Selected = Selected(waveform: Waveform, readoutBaseline: int, readoutThreshold: int)

  /** The waveforms of `analyze` kept by the time selection, each with the
   *  configured baseline and threshold of its channel or `NoHWSetting`. */
  method SelectWaveforms(plotTimes: seq<ValueRange>, waveforms: seq<Waveform>, readoutBaselines: HWSettingMap, readoutThresholds: HWSettingMap)
    returns (selectedWaveforms: seq<Selected>)
    ensures forall k :: 0 <= k < |selectedWaveforms| ==>
      var s := selectedWaveforms[k];
      s.waveform in waveforms
      && s.readoutBaseline == readoutBaselines.Lookup(s.waveform.channel, NoHWSetting)
      && s.readoutThreshold == readoutThresholds.Lookup(s.waveform.channel, NoHWSetting)
    ensures Waveforms(selectedWaveforms) == Kept(plotTimes, waveforms)
  {
    selectedWaveforms := [];
    for i := 0 to |waveforms|
      invariant forall k :: 0 <= k < |selectedWaveforms| ==>
        var s := selectedWaveforms[k];
        s.waveform in waveforms[..i]
        && s.readoutBaseline == readoutBaselines.Lookup(s.waveform.channel, NoHWSetting)
        && s.readoutThreshold == readoutThresholds.Lookup(s.waveform.channel, NoHWSetting)
      invariant Waveforms(selectedWaveforms) == Kept(plotTimes, waveforms[..i])
    {
      assert waveforms[..i + 1][..i] == waveforms[..i];
      var waveform := waveforms[i];
      var selected := IsSelected(plotTimes, waveform.timeStamp);
      if !selected {
        continue;
      }
      var channel := waveform.channel;
      WaveformsAppend(selectedWaveforms, Selected(waveform, readoutBaselines.Lookup(channel, NoHWSetting), readoutThresholds.Lookup(channel, NoHWSetting)));
      selectedWaveforms := selectedWaveforms + [Selected(waveform, readoutBaselines.Lookup(channel, NoHWSetting), readoutThresholds.Lookup(channel, NoHWSetting))];
    }
    assert waveforms[..|waveforms|] == waveforms;
  }

  /** Whether some time slice holds `time` (every time does with no slice). */
  predicate InSlices(plotTimes: seq<ValueRange>, time: real)
  {
    plotTimes == [] || exists k :: 0 <= k < |plotTimes| && plotTimes[k].Contains(time)
  }

  /** The waveforms in the time slices, in their order. */
  function Kept(plotTimes: seq<ValueRange>, waveforms: seq<Waveform>): (r: seq<Waveform>)
    ensures forall w :: w in r <==> w in waveforms && InSlices(plotTimes, w.timeStamp)
    ensures plotTimes == [] ==> r == waveforms
  {
    if waveforms == [] then []
    else
      var init, w := Kept(plotTimes, waveforms[..|waveforms| - 1]), waveforms[|waveforms| - 1];
      assert waveforms == waveforms[..|waveforms| - 1] + [w];
      if InSlices(plotTimes, w.timeStamp) then init + [w] else init
  }

  function Waveforms(selected: seq<Selected>): seq<Waveform>
  {
    seq(|selected|, k requires 0 <= k < |selected| => selected[k].waveform)
  }

  lemma {:induction false} WaveformsAppend(selected: seq<Selected>, s: Selected)
    ensures Waveforms(selected + [s]) == Waveforms(selected) + [s.waveform]
  {
  }

  // ---------------------------------------------------------------------------
  // Sorting by a key (`std::sort` with a `byTime` or `byChannel` comparison)

  function TimeOf(w: Waveform): real
  {
    w.timeStamp
  }

  function ChannelOf(w: Waveform): real
  {
    w.channel as real
  }

  // ---------------------------------------------------------------------------
  // `clusterWaveforms`

  /** The clusters' waveforms one after the other. */
  function Flatten(clusters: seq<seq<Waveform>>): seq<Waveform>
  {
    if clusters == [] then [] else Flatten(clusters[..|clusters| - 1]) + clusters[|clusters| - 1]
  }

  /** Clusters in time: each one nonempty, each waveform less than
   *  `duration` after the first one of its cluster, and each cluster
   *  starting at least `duration` after the previous one started. */
  predicate Clustered(clusters: seq<seq<Waveform>>, duration: real)
  {
    (forall k :: 0 <= k < |clusters| ==> clusters[k] != [])
    && (forall k, i :: 0 <= k < |clusters| && 0 < i < |clusters[k]| ==>
          clusters[k][i].timeStamp - clusters[k][0].timeStamp < duration)
    && (forall k :: 0 < k < |clusters| ==>
          clusters[k][0].timeStamp - clusters[k - 1][0].timeStamp >= duration)
  }

  lemma {:induction false} FlattenAppend(clusters: seq<seq<Waveform>>, c: seq<Waveform>)
    ensures Flatten(clusters + [c]) == Flatten(clusters) + c
  {
    assert (clusters + [c])[..|clusters|] == clusters;
  }

  /** A waveform less than `duration` after the start of the last cluster
   *  may join it. */
  lemma {:induction false} ClusteredGrow(clusters: seq<seq<Waveform>>, current: seq<Waveform>, w: Waveform, duration: real)
    requires current != [] && Clustered(clusters + [current], duration)
    requires w.timeStamp - current[0].timeStamp < duration
    ensures Clustered(clusters + [current + [w]], duration)
  {
    var cs, cs' := clusters + [current], clusters + [current + [w]];
    var n := |clusters|;
    assert forall k :: 0 <= k < n ==> cs'[k] == cs[k];
    assert cs'[n] == current + [w] && cs[n] == current;
    assert cs'[n][0] == current[0];
    forall k, i | 0 <= k < |cs'| && 0 < i < |cs'[k]|
      ensures cs'[k][i].timeStamp - cs'[k][0].timeStamp < duration
    {
      if k == n && i < |current| {
        assert cs'[k][i] == cs[k][i];
      }
    }
    forall k | 0 < k < |cs'|
      ensures cs'[k][0].timeStamp - cs'[k - 1][0].timeStamp >= duration
    {
      assert cs'[k - 1] == cs[k - 1] && cs'[k][0] == cs[k][0];
    }
  }

  /** A waveform at least `duration` after the start of the last cluster
   *  may open a new one. */
  lemma {:induction false} ClusteredOpen(clusters: seq<seq<Waveform>>, current: seq<Waveform>, w: Waveform, duration: real)
    requires current != [] && Clustered(clusters + [current], duration)
    requires w.timeStamp - current[0].timeStamp >= duration
    ensures Clustered(clusters + [current] + [[w]], duration)
  {
    var cs, cs' := clusters + [current], clusters + [current] + [[w]];
    assert forall k :: 0 <= k < |cs| ==> cs'[k] == cs[k];
    assert cs'[|cs|] == [w];
  }

  /** The clusters still cover the waveforms read when the next one joins
   *  the open cluster. */
  lemma {:induction false} GrownCovers(ws: seq<Waveform>, i: nat, clusters: seq<seq<Waveform>>, current: seq<Waveform>)
    requires i < |ws| && Flatten(clusters) + current == ws[..i]
    ensures Flatten(clusters) + (current + [ws[i]]) == ws[..i + 1]
  {
    assert ws[..i + 1] == ws[..i] + [ws[i]];
  }

  /** The clusters still cover the waveforms read when the open cluster is
   *  closed and the next waveform opens a new one. */
  lemma {:induction false} OpenedCovers(ws: seq<Waveform>, i: nat, clusters: seq<seq<Waveform>>, current: seq<Waveform>)
    requires i < |ws| && Flatten(clusters) + current == ws[..i]
    ensures Flatten(clusters + [current]) + [ws[i]] == ws[..i + 1]
  {
    FlattenAppend(clusters, current);
    assert ws[..i + 1] == ws[..i] + [ws[i]];
  }

  /** The clustering loop of `clusterWaveforms`: a waveform at least
   *  `duration` after the start of the open cluster closes it and opens the
   *  next one. */
  method ClusterSorted(ws: seq<Waveform>, duration: real) returns (clusters: seq<seq<Waveform>>)
    ensures Flatten(clusters) == ws
    ensures Clustered(clusters, duration)
    ensures clusters == [] <==> ws == []
  {
    clusters := [];
    if ws == [] {
      return;
    }
    var currentCluster := [ws[0]];
    var currentClusterTime := ws[0].timeStamp;
    assert Clustered(clusters + [currentCluster], duration);
    for i := 1 to |ws|
      invariant currentCluster != [] && currentClusterTime == currentCluster[0].timeStamp
      invariant Flatten(clusters) + currentCluster == ws[..i]
      invariant Clustered(clusters + [currentCluster], duration)
    {
      var waveformTime := ws[i].timeStamp;
      if waveformTime - currentClusterTime >= duration {
        ClusteredOpen(clusters, currentCluster, ws[i], duration);
        OpenedCovers(ws, i, clusters, currentCluster);
        clusters := clusters + [currentCluster];
        currentCluster := [ws[i]];
        currentClusterTime := waveformTime;
      } else {
        ClusteredGrow(clusters, currentCluster, ws[i], duration);
        GrownCovers(ws, i, clusters, currentCluster);
        currentCluster := currentCluster + [ws[i]];
      }
    }
    FlattenAppend(clusters, currentCluster);
    assert ws[..|ws|] == ws;
    clusters := clusters + [currentCluster];
  }

  /** `clusterWaveforms`: sorts the waveforms by time, then clusters them. */
  method ClusterWaveforms(ws: seq<Waveform>, duration: real) returns (clusters: seq<seq<Waveform>>)
    ensures multiset(Flatten(clusters)) == multiset(ws)
    ensures SortedBy(Flatten(clusters), TimeOf)
    ensures Clustered(clusters, duration)
    ensures clusters == [] <==> ws == []
  {
    var sorted := OrderBy(ws, TimeOf);
    clusters := ClusterSorted(sorted, duration);
  }

  // ---------------------------------------------------------------------------
  // `groupWaveformCluster`

  const NChannels: nat := 360
  const ChannelsInGroup: nat := 30

  /** The waveforms of `cluster` (null entries skipped) in group `g`. */
  function InGroup(cluster: seq<WaveformInfo>, g: nat): (r: seq<Waveform>)
    ensures forall w :: w in r <==> Some(w) in cluster && w.channel / ChannelsInGroup == g
  {
    if cluster == [] then []
    else
      var init := InGroup(cluster[..|cluster| - 1], g);
      assert forall x :: x in cluster <==> x in cluster[..|cluster| - 1] || x == cluster[|cluster| - 1];
      match cluster[|cluster| - 1]
      case None => init
      case Some(w) => if w.channel / ChannelsInGroup == g then init + [w] else init
  }

  /** `groupWaveformCluster`: puts each waveform in group `channel / 30` of
   *  the 12 groups of 30 channels, then sorts each group by channel.  The
   *  source indexes the groups unchecked, so every channel must be below
   *  360. */
  method GroupWaveformCluster(cluster: seq<WaveformInfo>) returns (groups: seq<seq<Waveform>>)
    requires forall k :: 0 <= k < |cluster| && cluster[k].Some? ==> cluster[k].value.channel < NChannels
    ensures |groups| == NChannels / ChannelsInGroup
    ensures forall g :: 0 <= g < |groups| ==> SortedBy(groups[g], ChannelOf)
    ensures forall g :: 0 <= g < |groups| ==> multiset(groups[g]) == multiset(InGroup(cluster, g))
  {
    groups := seq(NChannels / ChannelsInGroup, _ => []);
    for k := 0 to |cluster|
      invariant |groups| == NChannels / ChannelsInGroup
      invariant forall g :: 0 <= g < |groups| ==> groups[g] == InGroup(cluster[..k], g)
    {
      assert cluster[..k + 1][..k] == cluster[..k];
      if cluster[k].None? {
        continue;
      }
      var wf := cluster[k].value;
      var groupNumber := wf.channel / ChannelsInGroup;
      groups := groups[groupNumber := groups[groupNumber] + [wf]];
    }
    assert cluster[..|cluster|] == cluster;
    ghost var unsorted := groups;
    for g := 0 to |groups|
      invariant |groups| == |unsorted|
      invariant forall h :: 0 <= h < g ==> SortedBy(groups[h], ChannelOf) && multiset(groups[h]) == multiset(unsorted[h])
      invariant forall h :: g <= h < |groups| ==> groups[h] == unsorted[h]
    {
      groups := groups[g := OrderBy(groups[g], ChannelOf)];
    }
  }

  /** Every waveform is in exactly the group of its channel. */
  lemma {:induction false} GroupsPartition(cluster: seq<WaveformInfo>, groups: seq<seq<Waveform>>, w: Waveform, g: nat)
    requires |groups| == NChannels / ChannelsInGroup
    requires forall h :: 0 <= h < |groups| ==> multiset(groups[h]) == multiset(InGroup(cluster, h))
    requires g < |groups|
    ensures w in groups[g] <==> Some(w) in cluster && w.channel / ChannelsInGroup == g
  {
    assert w in groups[g] <==> w in multiset(groups[g]);
    assert w in InGroup(cluster, g) <==> w in multiset(InGroup(cluster, g));
  }

  /** The largest `raw::Channel_t` (32 bits, unsigned). */
  const MaxChannel: nat := 0xFFFF_FFFF

  /** `channelRange`: the lowest and the highest channel of the waveforms;
   *  with none, the collector's initial values, the largest channel number
   *  and 0. */
  method ChannelRange(waveforms: seq<Waveform>) returns (first: nat, last: nat)
    requires forall k :: 0 <= k < |waveforms| ==> waveforms[k].channel <= MaxChannel
    ensures waveforms == [] ==> first == MaxChannel && last == 0
    ensures waveforms != [] ==>
      (exists k :: 0 <= k < |waveforms| && waveforms[k].channel == first)
      && (exists k :: 0 <= k < |waveforms| && waveforms[k].channel == last)
    ensures forall k :: 0 <= k < |waveforms| ==> first <= waveforms[k].channel <= last
  {
    first, last := MaxChannel, 0;
    for i := 0 to |waveforms|
      invariant i == 0 ==> first == MaxChannel && last == 0
      invariant i > 0 ==> exists k :: 0 <= k < i && waveforms[k].channel == first
      invariant i > 0 ==> exists k :: 0 <= k < i && waveforms[k].channel == last
      invariant forall k :: 0 <= k < i ==> first <= waveforms[k].channel <= last
    {
      var channel := waveforms[i].channel;
      if channel < first {
        first := channel;
      }
      if channel > last {
        last := channel;
      }
    }
  }

  // ---------------------------------------------------------------------------
  // Canvas pads

  /** The pad of each of the first ten channels of a group of 30. */
  const PadOf: seq<int> := [19, 7, 25, 13, 1, 26, 14, 2, 20, 8]

  /** Whether each of the first ten channels of a group of 30 leans left. */
  const LeftOf: seq<bool> := [true, true, false, false, false, true, true, true, false, false]

  /** `padPos`: the canvas pad (1 to 30, row by row from the top left) of a
   *  channel, repeating every 30 channels. */
  function PadPos(channel: nat): (pos: int)
    ensures 1 <= pos <= 30
  {
    PadOf[channel % 10] + 2 * (channel % 30 / 10)
  }

  /** `leftLeaning`: whether the channel's pad is drawn on the left of its
   *  column.  The leaning zig-zags down the canvas: on the first, third and
   *  fifth rows the channel of a pair's right pad leans left, on the second
   *  and fourth rows that of its left pad. */
  function LeftLeaning(channel: nat): (left: bool)
    ensures var pos := PadPos(channel);
            left <==> (((pos - 1) % 2 == 0) <==> ((pos - 1) / 6 % 2 == 1))
  {
    LeaningZigZag(channel % 10, channel % 30 / 10);
    LeftOf[channel % 10]
  }

  /** The zig-zag of the leaning, channel by channel of a group of ten,
   *  for each of the three column pairs. */
  lemma {:induction false} LeaningZigZag(d: nat, g: nat)
    requires d < 10 && g < 3
    ensures var pos := PadOf[d] + 2 * g;
            LeftOf[d] <==> (((pos - 1) % 2 == 0) <==> ((pos - 1) / 6 % 2 == 1))
  {
    if d < 5 {
      if d == 0 {} else if d == 1 {} else if d == 2 {} else if d == 3 {} else {}
    } else {
      if d == 5 {} else if d == 6 {} else if d == 7 {} else if d == 8 {} else {}
    }
  }

  /** The documented pad layout: the channel drawn in each pad, top row
   *  first. */
  function ChannelAtPad(pos: int): (channel: nat)
    requires 1 <= pos <= 30
    ensures channel < 30
  {
    [4, 7, 14, 17, 24, 27, 1, 9, 11, 19, 21, 29, 3, 6, 13, 16, 23, 26, 0, 8, 10, 18, 20, 28, 2, 5, 12, 15, 22, 25][pos - 1]
  }

  /** `padPos` and the documented layout are inverse: the 30 channels of a
   *  group fill the 30 pads, one each. */
  lemma {:induction false} PadOfChannel(channel: nat)
    requires channel < 30
    ensures ChannelAtPad(PadPos(channel)) == channel
  {
    if channel < 5 {
      PadOfChannelFrom0(channel);
    } else if channel < 10 {
      PadOfChannelFrom5(channel);
    } else if channel < 15 {
      PadOfChannelFrom10(channel);
    } else if channel < 20 {
      PadOfChannelFrom15(channel);
    } else if channel < 25 {
      PadOfChannelFrom20(channel);
    } else {
      PadOfChannelFrom25(channel);
    }
  }

  lemma {:induction false} PadOfChannelFrom0(channel: nat)
    requires 0 <= channel < 5
    ensures ChannelAtPad(PadPos(channel)) == channel
  {
    if channel == 0 { assert PadPos(0) == 19; }
    else if channel == 1 { assert PadPos(1) == 7; }
    else if channel == 2 { assert PadPos(2) == 25; }
    else if channel == 3 { assert PadPos(3) == 13; }
    else if channel == 4 { assert PadPos(4) == 1; }
  }

  lemma {:induction false} PadOfChannelFrom5(channel: nat)
    requires 5 <= channel < 10
    ensures ChannelAtPad(PadPos(channel)) == channel
  {
    if channel == 5 { assert PadPos(5) == 26; }
    else if channel == 6 { assert PadPos(6) == 14; }
    else if channel == 7 { assert PadPos(7) == 2; }
    else if channel == 8 { assert PadPos(8) == 20; }
    else if channel == 9 { assert PadPos(9) == 8; }
  }

  lemma {:induction false} PadOfChannelFrom10(channel: nat)
    requires 10 <= channel < 15
    ensures ChannelAtPad(PadPos(channel)) == channel
  {
    if channel == 10 { assert PadPos(10) == 21; }
    else if channel == 11 { assert PadPos(11) == 9; }
    else if channel == 12 { assert PadPos(12) == 27; }
    else if channel == 13 { assert PadPos(13) == 15; }
    else if channel == 14 { assert PadPos(14) == 3; }
  }

  lemma {:induction false} PadOfChannelFrom15(channel: nat)
    requires 15 <= channel < 20
    ensures ChannelAtPad(PadPos(channel)) == channel
  {
    if channel == 15 { assert PadPos(15) == 28; }
    else if channel == 16 { assert PadPos(16) == 16; }
    else if channel == 17 { assert PadPos(17) == 4; }
    else if channel == 18 { assert PadPos(18) == 22; }
    else if channel == 19 { assert PadPos(19) == 10; }
  }

  lemma {:induction false} PadOfChannelFrom20(channel: nat)
    requires 20 <= channel < 25
    ensures ChannelAtPad(PadPos(channel)) == channel
  {
    if channel == 20 { assert PadPos(20) == 23; }
    else if channel == 21 { assert PadPos(21) == 11; }
    else if channel == 22 { assert PadPos(22) == 29; }
    else if channel == 23 { assert PadPos(23) == 17; }
    else if channel == 24 { assert PadPos(24) == 5; }
  }

  lemma {:induction false} PadOfChannelFrom25(channel: nat)
    requires 25 <= channel < 30
    ensures ChannelAtPad(PadPos(channel)) == channel
  {
    if channel == 25 { assert PadPos(25) == 30; }
    else if channel == 26 { assert PadPos(26) == 18; }
    else if channel == 27 { assert PadPos(27) == 6; }
    else if channel == 28 { assert PadPos(28) == 24; }
    else if channel == 29 { assert PadPos(29) == 12; }
  }

  lemma {:induction false} ChannelOfPad(pos: int)
    requires 1 <= pos <= 30
    ensures PadPos(ChannelAtPad(pos)) == pos
  {
    if pos < 6 {
      ChannelOfPadFrom1(pos);
    } else if pos < 11 {
      ChannelOfPadFrom6(pos);
    } else if pos < 16 {
      ChannelOfPadFrom11(pos);
    } else if pos < 21 {
      ChannelOfPadFrom16(pos);
    } else if pos < 26 {
      ChannelOfPadFrom21(pos);
    } else {
      ChannelOfPadFrom26(pos);
    }
  }

  lemma {:induction false} ChannelOfPadFrom1(pos: int)
    requires 1 <= pos < 6
    ensures PadPos(ChannelAtPad(pos)) == pos
  {
    if pos == 1 { assert ChannelAtPad(1) == 4; assert PadPos(4) == 1; }
    else if pos == 2 { assert ChannelAtPad(2) == 7; assert PadPos(7) == 2; }
    else if pos == 3 { assert ChannelAtPad(3) == 14; assert PadPos(14) == 3; }
    else if pos == 4 { assert ChannelAtPad(4) == 17; assert PadPos(17) == 4; }
    else if pos == 5 { assert ChannelAtPad(5) == 24; assert PadPos(24) == 5; }
  }

  lemma {:induction false} ChannelOfPadFrom6(pos: int)
    requires 6 <= pos < 11
    ensures PadPos(ChannelAtPad(pos)) == pos
  {
    if pos == 6 { assert ChannelAtPad(6) == 27; assert PadPos(27) == 6; }
    else if pos == 7 { assert ChannelAtPad(7) == 1; assert PadPos(1) == 7; }
    else if pos == 8 { assert ChannelAtPad(8) == 9; assert PadPos(9) == 8; }
    else if pos == 9 { assert ChannelAtPad(9) == 11; assert PadPos(11) == 9; }
    else if pos == 10 { assert ChannelAtPad(10) == 19; assert PadPos(19) == 10; }
  }

  lemma {:induction false} ChannelOfPadFrom11(pos: int)
    requires 11 <= pos < 16
    ensures PadPos(ChannelAtPad(pos)) == pos
  {
    if pos == 11 { assert ChannelAtPad(11) == 21; assert PadPos(21) == 11; }
    else if pos == 12 { assert ChannelAtPad(12) == 29; assert PadPos(29) == 12; }
    else if pos == 13 { assert ChannelAtPad(13) == 3; assert PadPos(3) == 13; }
    else if pos == 14 { assert ChannelAtPad(14) == 6; assert PadPos(6) == 14; }
    else if pos == 15 { assert ChannelAtPad(15) == 13; assert PadPos(13) == 15; }
  }

  lemma {:induction false} ChannelOfPadFrom16(pos: int)
    requires 16 <= pos < 21
    ensures PadPos(ChannelAtPad(pos)) == pos
  {
    if pos == 16 { assert ChannelAtPad(16) == 16; assert PadPos(16) == 16; }
    else if pos == 17 { assert ChannelAtPad(17) == 23; assert PadPos(23) == 17; }
    else if pos == 18 { assert ChannelAtPad(18) == 26; assert PadPos(26) == 18; }
    else if pos == 19 { assert ChannelAtPad(19) == 0; assert PadPos(0) == 19; }
    else if pos == 20 { assert ChannelAtPad(20) == 8; assert PadPos(8) == 20; }
  }

  lemma {:induction false} ChannelOfPadFrom21(pos: int)
    requires 21 <= pos < 26
    ensures PadPos(ChannelAtPad(pos)) == pos
  {
    if pos == 21 { assert ChannelAtPad(21) == 10; assert PadPos(10) == 21; }
    else if pos == 22 { assert ChannelAtPad(22) == 18; assert PadPos(18) == 22; }
    else if pos == 23 { assert ChannelAtPad(23) == 20; assert PadPos(20) == 23; }
    else if pos == 24 { assert ChannelAtPad(24) == 28; assert PadPos(28) == 24; }
    else if pos == 25 { assert ChannelAtPad(25) == 2; assert PadPos(2) == 25; }
  }

  lemma {:induction false} ChannelOfPadFrom26(pos: int)
    requires 26 <= pos < 31
    ensures PadPos(ChannelAtPad(pos)) == pos
  {
    if pos == 26 { assert ChannelAtPad(26) == 5; assert PadPos(5) == 26; }
    else if pos == 27 { assert ChannelAtPad(27) == 12; assert PadPos(12) == 27; }
    else if pos == 28 { assert ChannelAtPad(28) == 15; assert PadPos(15) == 28; }
    else if pos == 29 { assert ChannelAtPad(29) == 22; assert PadPos(22) == 29; }
    else if pos == 30 { assert ChannelAtPad(30) == 25; assert PadPos(25) == 30; }
  }

  /** Two channels of the same group never share a pad. */
  lemma {:induction false} PadsDistinct(c1: nat, c2: nat)
    requires c1 / 30 == c2 / 30 && c1 != c2
    ensures PadPos(c1) != PadPos(c2)
  {
    PadPeriodicity(c1);
    PadPeriodicity(c2);
    PadOfChannel(c1 % 30);
    PadOfChannel(c2 % 30);
  }

  /** The pad layout repeats every 30 channels. */
  lemma {:induction false} PadPeriodicity(channel: nat)
    ensures PadPos(channel) == PadPos(channel % 30)
    ensures LeftLeaning(channel) == LeftLeaning(channel % 30)
  {
    var r := channel % 30;
    ModSplit(channel, 3, 10);
    ModUnique(r, 10, (channel / 10) % 3, channel % 10);
    ModUnique(r, 30, 0, r);
  }

  /** The compile-time checks of the source on `padPos`, channels 0 to 9. */
  lemma {:induction false} PadPosStaticChecks()
    ensures PadPos(0) == 19 && PadPos(1) == 7 && PadPos(2) == 25 && PadPos(3) == 13
         && PadPos(4) == 1 && PadPos(5) == 26 && PadPos(6) == 14 && PadPos(7) == 2
         && PadPos(8) == 20 && PadPos(9) == 8
  {
  }

  /** The compile-time checks of the source on `padPos`, channels 10 to 19. */
  lemma {:induction false} PadPosStaticChecksFrom10()
    ensures PadPos(10) == 21 && PadPos(11) == 9 && PadPos(12) == 27 && PadPos(13) == 15
         && PadPos(14) == 3 && PadPos(15) == 28 && PadPos(16) == 16 && PadPos(17) == 4
         && PadPos(18) == 22 && PadPos(19) == 10
  {
  }

  /** The compile-time checks of the source on `padPos`, channels 20 to 24. */
  lemma {:induction false} PadPosStaticChecksFrom20()
    ensures PadPos(20) == 23 && PadPos(21) == 11 && PadPos(22) == 29 && PadPos(23) == 17
         && PadPos(24) == 5
  {
  }

  /** The compile-time checks of the source on `padPos`, channels 25 to 30. */
  lemma {:induction false} PadPosStaticChecksFrom25()
    ensures PadPos(25) == 30 && PadPos(26) == 18 && PadPos(27) == 6 && PadPos(28) == 24
         && PadPos(29) == 12 && PadPos(30) == 19
  {
  }

  /** The compile-time checks of the source on `leftLeaning`, channels 0 to 30. */
  lemma {:induction false} LeftLeaningStaticChecks()
    ensures LeftLeaning(0) && LeftLeaning(1) && !LeftLeaning(2) && !LeftLeaning(3)
         && !LeftLeaning(4) && LeftLeaning(5) && LeftLeaning(6) && LeftLeaning(7)
         && !LeftLeaning(8) && !LeftLeaning(9) && LeftLeaning(10) && LeftLeaning(11)
         && !LeftLeaning(12) && !LeftLeaning(13) && !LeftLeaning(14) && LeftLeaning(15)
         && LeftLeaning(16) && LeftLeaning(17) && !LeftLeaning(18) && !LeftLeaning(19)
         && LeftLeaning(20) && LeftLeaning(21) && !LeftLeaning(22) && !LeftLeaning(23)
         && !LeftLeaning(24) && LeftLeaning(25) && LeftLeaning(26) && LeftLeaning(27)
         && !LeftLeaning(28) && !LeftLeaning(29) && LeftLeaning(30)
  {
  }

  // ---------------------------------------------------------------------------
  // `StatCollectorWithMinMaxAndMedian::extractMedian`

  /** `extractMedian`: sorts the data and takes the middle value, or the
   *  average of the two middle values for an even count; with no data the
   *  out-of-range access throws. */
  function ExtractMedian(data: seq<real>): (r: Result<real>)
    ensures r.Ok? <==> data != []
    ensures r.Ok? && |data| % 2 == 1 ==> r.value == MedianAt(data)
    ensures r.Ok? ==> Sort(data)[(|data| - 1) / 2] <= r.value <= MedianAt(data)
  {
    if data == [] then Err("out_of_range") else Ok(MedianAveraged(data))
  }

  /** On data already in order, the median is the middle element, or the
   *  average of the two middle elements. */
  lemma {:induction false} ExtractMedianOfSorted(data: seq<real>)
    requires Sorted(data) && data != []
    ensures |data| % 2 == 1 ==> ExtractMedian(data) == Ok(data[|data| / 2])
    ensures |data| % 2 == 0 ==> ExtractMedian(data) == Ok((data[|data| / 2 - 1] + data[|data| / 2]) / 2.0)
  {
    SortOfSorted(data);
  }
}
