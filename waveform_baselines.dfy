/** The waveform baseline script: groups the PMT waveforms of an event by
 *  channel, then estimates the baseline of each channel as the median of
 *  all the samples of its waveforms.
 *
 *  A waveform is its channel and its samples; the ADC counts are integral
 *  values and are kept as `real`, as `numpy.median` returns them.  Reading
 *  the events and printing are not modelled. */
module WaveformBaselines {
  import opened Wrappers
  import opened Sorting

  datatype OpDetWaveform = OpDetWaveform(channel: nat, samples: seq<real>)

  /** The waveforms of channel `ch`, in their order. */
  function OnChannel(waveforms: seq<OpDetWaveform>, ch: nat): seq<OpDetWaveform>
  {
    if waveforms == [] then []
    else
      var last := waveforms[|waveforms| - 1];
      OnChannel(waveforms[..|waveforms| - 1], ch) + (if last.channel == ch then [last] else [])
  }

  /** `OnChannel` keeps exactly the waveforms of the channel, each as many
   *  times as it appears. */
  lemma {:induction false} OnChannelIsFilter(waveforms: seq<OpDetWaveform>, ch: nat, w: OpDetWaveform)
    ensures multiset(OnChannel(waveforms, ch))[w] == if w.channel == ch then multiset(waveforms)[w] else 0
  {
    if waveforms != [] {
      var init := waveforms[..|waveforms| - 1];
      OnChannelIsFilter(init, ch, w);
      assert waveforms == init + [waveforms[|waveforms| - 1]];
    }
  }

  /** The waveforms of a channel all have that channel. */
  lemma {:induction false} OnChannelHasChannel(waveforms: seq<OpDetWaveform>, ch: nat)
    ensures forall w :: w in OnChannel(waveforms, ch) ==> w.channel == ch && w in waveforms
  {
    forall w | w in OnChannel(waveforms, ch)
      ensures w.channel == ch && w in waveforms
    {
      OnChannelIsFilter(waveforms, ch, w);
    }
  }

  /** The requested number of channels: `if not NChannels` takes both
   *  `None` and `0` for "not requested". */
  predicate Requested(nChannels: Option<int>)
  {
    nChannels.Some? && nChannels.value != 0
  }

  /** `max` of the channel numbers in a dictionary of waveform lists. */
  method MaxKey(byChannel: map<nat, seq<OpDetWaveform>>) returns (top: nat)
    requires byChannel != map[]
    ensures top in byChannel
    ensures forall ch :: ch in byChannel ==> ch <= top
  {
    var keys := byChannel.Keys;
    var first :| first in keys;
    top := first;
    keys := keys - {first};
    while keys != {}
      invariant keys <= byChannel.Keys && top in byChannel
      invariant forall ch :: ch in byChannel && ch !in keys ==> ch <= top
      decreases keys
    {
      var ch :| ch in keys;
      if ch > top {
        top := ch;
      }
      keys := keys - {ch};
    }
  }

  /** The dictionary of the waveforms by channel, filled by
   *  `setdefault(...).append(...)`: the channels present, each with its
   *  waveforms in order. */
  ghost predicate ByChannel(byChannel: map<nat, seq<OpDetWaveform>>, waveforms: seq<OpDetWaveform>)
  {
    (forall ch :: ch in byChannel ==> byChannel[ch] == OnChannel(waveforms, ch) && byChannel[ch] != [])
    && (forall ch :: ch !in byChannel ==> OnChannel(waveforms, ch) == [])
  }

  /** The loop filling the dictionary. */
  method FillByChannel(waveforms: seq<OpDetWaveform>) returns (byChannel: map<nat, seq<OpDetWaveform>>)
    ensures ByChannel(byChannel, waveforms)
  {
    byChannel := map[];
    for i := 0 to |waveforms|
      invariant ByChannel(byChannel, waveforms[..i])
    {
      var ch := waveforms[i].channel;
      ByChannelAppend(byChannel, waveforms, i);
      byChannel := byChannel[ch := (if ch in byChannel then byChannel[ch] else []) + [waveforms[i]]];
    }
    assert waveforms[..|waveforms|] == waveforms;
  }

  /** Appending one waveform to the list of its channel keeps the
   *  dictionary in step with one more waveform. */
  lemma {:induction false} ByChannelAppend(byChannel: map<nat, seq<OpDetWaveform>>, waveforms: seq<OpDetWaveform>, i: nat)
    requires i < |waveforms| && ByChannel(byChannel, waveforms[..i])
    ensures var w := waveforms[i];
            ByChannel(byChannel[w.channel := (if w.channel in byChannel then byChannel[w.channel] else []) + [w]],
                      waveforms[..i + 1])
  {
    assert waveforms[..i + 1][..i] == waveforms[..i];
  }

  /** The channels present are those of the waveforms. */
  lemma {:induction false} ByChannelKeys(byChannel: map<nat, seq<OpDetWaveform>>, waveforms: seq<OpDetWaveform>)
    requires ByChannel(byChannel, waveforms)
    ensures forall ch :: ch in byChannel <==> exists w :: w in waveforms && w.channel == ch
  {
    forall ch
      ensures ch in byChannel <==> exists w :: w in waveforms && w.channel == ch
    {
      OnChannelHasChannel(waveforms, ch);
      if ch in byChannel {
        assert byChannel[ch][0] in OnChannel(waveforms, ch);
      }
      if w :| w in waveforms && w.channel == ch {
        OnChannelIsFilter(waveforms, ch, w);
        assert w in OnChannel(waveforms, ch);
      }
    }
  }

  /** `[ dict.get(ch, []) for ch in range(n) ]`. */
  method ListByChannel(byChannel: map<nat, seq<OpDetWaveform>>, ghost waveforms: seq<OpDetWaveform>, n: int)
    returns (groups: seq<seq<OpDetWaveform>>)
    requires ByChannel(byChannel, waveforms)
    ensures |groups| == if n < 0 then 0 else n
    ensures forall ch :: 0 <= ch < |groups| ==> groups[ch] == OnChannel(waveforms, ch)
  {
    groups := [];
    for ch := 0 to if n < 0 then 0 else n
      invariant |groups| == ch
      invariant forall c :: 0 <= c < ch ==> groups[c] == OnChannel(waveforms, c)
    {
      groups := groups + [if ch in byChannel then byChannel[ch] else []];
    }
  }

  /** `groupPMTsByChannel`: one list per channel from 0 up to the number of
   *  channels, requested or one past the largest channel present; with no
   *  waveform and no request, `max` of an empty dictionary raises
   *  `ValueError`. */
  method GroupPMTsByChannel(waveforms: seq<OpDetWaveform>, nChannels: Option<int>)
    returns (r: Result<seq<seq<OpDetWaveform>>>)
    ensures r.Err? <==> !Requested(nChannels) && waveforms == []
    ensures r.Ok? && Requested(nChannels) ==> |r.value| == if nChannels.value < 0 then 0 else nChannels.value
    ensures r.Ok? && !Requested(nChannels) ==>
      (exists w :: w in waveforms && w.channel == |r.value| - 1)
      && forall w :: w in waveforms ==> w.channel < |r.value|
    ensures r.Ok? ==> forall ch :: 0 <= ch < |r.value| ==> r.value[ch] == OnChannel(waveforms, ch)
  {
    var byChannel := FillByChannel(waveforms);
    ByChannelKeys(byChannel, waveforms);
    assert waveforms != [] ==> waveforms[0].channel in byChannel;
    var n: int;
    if Requested(nChannels) {
      n := nChannels.value;
    } else if byChannel == map[] {
      return Err("ValueError: max() arg is an empty sequence");
    } else {
      var top := MaxKey(byChannel);
      n := top + 1;
      forall w | w in waveforms
        ensures w.channel < n
      {
        assert w.channel in byChannel;
      }
    }
    var groups := ListByChannel(byChannel, waveforms, n);
    return Ok(groups);
  }

  // ---------------------------------------------------------------------------
  // Baselines

  /** What `numpy.median` returns: a value, or NaN for no sample. */
  datatype Estimate = Value(value: real) | NaN

  /** The samples of all the waveforms, one waveform after the other. */
  function AllSamples(waveforms: seq<OpDetWaveform>): (samples: seq<real>)
  {
    if waveforms == [] then []
    else AllSamples(waveforms[..|waveforms| - 1]) + waveforms[|waveforms| - 1].samples
  }

  /** Every sample of every waveform is among the samples. */
  lemma {:induction false} AllSamplesHasAll(waveforms: seq<OpDetWaveform>)
    ensures forall k, j :: 0 <= k < |waveforms| && 0 <= j < |waveforms[k].samples| ==>
      waveforms[k].samples[j] in AllSamples(waveforms)
  {
    if waveforms != [] {
      var init := waveforms[..|waveforms| - 1];
      AllSamplesHasAll(init);
      assert forall k :: 0 <= k < |init| ==> init[k] == waveforms[k];
    }
  }

  /** The median of the samples of the waveforms (the corrected
   *  `computeBaseline`): `numpy.concatenate` raises `ValueError` on no
   *  waveform at all, and `numpy.median` of no sample is NaN. */
  function ComputeBaseline(waveforms: seq<OpDetWaveform>): (r: Result<Estimate>)
    ensures r.Err? <==> waveforms == []
    ensures r.Ok? ==> (r.value.NaN? <==> |AllSamples(waveforms)| == 0)
  {
    if waveforms == [] then Err("ValueError: need at least one array to concatenate")
    else
      var samples := AllSamples(waveforms);
      if samples == [] then Ok(NaN) else Ok(Value(MedianAveraged(samples)))
  }

  /** The baseline is a median of the samples: the middle one of an odd
   *  number of them, otherwise the average of the two middle ones. */
  lemma {:induction false} BaselineIsMedian(waveforms: seq<OpDetWaveform>, m: real)
    requires ComputeBaseline(waveforms) == Ok(Value(m))
    ensures AllSamples(waveforms) != [] && IsMedian(m, AllSamples(waveforms))
  {
    MedianFacts(AllSamples(waveforms));
  }

  /** `m` is a median of the samples: between the lower and the upper
   *  middle of the sorted samples, and the middle one itself for an odd
   *  number of samples. */
  predicate IsMedian(m: real, samples: seq<real>)
    requires samples != []
  {
    Sort(samples)[(|samples| - 1) / 2] <= m <= MedianAt(samples)
    && (|samples| % 2 == 1 ==> m in samples && CountBelow(samples, m) <= |samples| / 2 < CountAtMost(samples, m))
  }

  lemma {:induction false} MedianFacts(samples: seq<real>)
    requires samples != []
    ensures IsMedian(MedianAveraged(samples), samples)
  {
    var m := MedianAveraged(samples);
    if |samples| % 2 == 1 {
      assert m == MedianAt(samples);
      assert m in multiset(samples);
    }
  }

  /** The estimate is NaN exactly when there are waveforms, none with a
   *  sample. */
  lemma {:induction false} NaNWithoutSamples(waveforms: seq<OpDetWaveform>)
    ensures ComputeBaseline(waveforms) == Ok(NaN)
        <==> waveforms != [] && forall k :: 0 <= k < |waveforms| ==> waveforms[k].samples == []
  {
    NoSamples(waveforms);
  }

  /** A sample of the whole comes from one of the waveforms. */
  lemma {:induction false} SampleOf(waveforms: seq<OpDetWaveform>, x: real)
    requires x in AllSamples(waveforms)
    ensures exists k :: 0 <= k < |waveforms| && x in waveforms[k].samples
  {
    var init := waveforms[..|waveforms| - 1];
    if x in AllSamples(init) {
      SampleOf(init, x);
      var k :| 0 <= k < |init| && x in init[k].samples;
      assert waveforms[k] == init[k];
    } else {
      assert x in waveforms[|waveforms| - 1].samples;
    }
  }

  lemma {:induction false} NoSamples(waveforms: seq<OpDetWaveform>)
    ensures |AllSamples(waveforms)| == 0 <==> forall k :: 0 <= k < |waveforms| ==> waveforms[k].samples == []
  {
    var samples := AllSamples(waveforms);
    if |samples| != 0 {
      SampleOf(waveforms, samples[0]);
      var k :| 0 <= k < |waveforms| && samples[0] in waveforms[k].samples;
      assert waveforms[k].samples != [];
    } else {
      AllSamplesEmpty(waveforms);
    }
  }

  /** No sample at all means no sample in any waveform. */
  lemma {:induction false} AllSamplesEmpty(waveforms: seq<OpDetWaveform>)
    ensures AllSamples(waveforms) == [] ==> forall k :: 0 <= k < |waveforms| ==> waveforms[k].samples == []
  {
    if waveforms != [] {
      var init := waveforms[..|waveforms| - 1];
      AllSamplesEmpty(init);
      assert forall k :: 0 <= k < |init| ==> init[k] == waveforms[k];
    }
  }

  /** `computeBaseline` as written: it reads the module-level name
   *  `channelWaveforms` instead of its own parameter, which it ignores;
   *  the name exists only while the script's own channel loop runs
   *  (`NameError` otherwise). */
  function ComputeBaselineAsWritten(waveforms: seq<OpDetWaveform>, channelWaveforms: Option<seq<OpDetWaveform>>)
    : (r: Result<Estimate>)
    ensures channelWaveforms.None? ==> r.Err?
    ensures channelWaveforms.Some? ==> r == ComputeBaseline(channelWaveforms.value)
  {
    if channelWaveforms.None? then Err("NameError: name 'channelWaveforms' is not defined")
    else ComputeBaseline(channelWaveforms.value)
  }

  /** The script's own call passes the module-level list itself, so there
   *  the two agree; any other call estimates another list. */
  lemma {:induction false} AsWrittenAgreesOnlyInScript(waveforms: seq<OpDetWaveform>)
    ensures ComputeBaselineAsWritten(waveforms, Some(waveforms)) == ComputeBaseline(waveforms)
    ensures ComputeBaselineAsWritten([OpDetWaveform(0, [5.0])], Some([OpDetWaveform(0, [0.0])])) == Ok(Value(0.0))
    ensures ComputeBaseline([OpDetWaveform(0, [5.0])]) == Ok(Value(5.0))
  {
    MedianOfOne(0.0);
    MedianOfOne(5.0);
  }

  lemma {:induction false} MedianOfOne(x: real)
    ensures MedianAveraged([x]) == x
  {
    assert MedianAveraged([x]) in multiset([x]);
  }

  /** The baselines of the channels, channel by channel, or the error of
   *  the first channel that has none. */
  function Baselines(groups: seq<seq<OpDetWaveform>>): Result<seq<Estimate>>
  {
    if groups == [] then Ok([])
    else
      var previous := Baselines(groups[..|groups| - 1]);
      if previous.Err? then previous
      else
        var baseline := ComputeBaseline(groups[|groups| - 1]);
        if baseline.Err? then Err(baseline.error) else Ok(previous.value + [baseline.value])
  }

  /** The baselines are computed exactly when no channel lacks waveforms,
   *  and then each is the one of its channel. */
  lemma {:induction false} BaselinesOfChannels(groups: seq<seq<OpDetWaveform>>)
    ensures Baselines(groups).Err? <==> exists ch :: 0 <= ch < |groups| && groups[ch] == []
    ensures Baselines(groups).Ok? ==> |Baselines(groups).value| == |groups|
    ensures Baselines(groups).Ok? ==>
      forall ch :: 0 <= ch < |groups| ==> Ok(Baselines(groups).value[ch]) == ComputeBaseline(groups[ch])
  {
    if groups != [] {
      var n := |groups|;
      var init := groups[..n - 1];
      BaselinesOfChannels(init);
      assert forall ch :: 0 <= ch < n - 1 ==> init[ch] == groups[ch];
      if Baselines(init).Ok? && groups[n - 1] != [] {
        var b := Baselines(groups).value;
        assert b == Baselines(init).value + [ComputeBaseline(groups[n - 1]).value];
        forall ch | 0 <= ch < n
          ensures Ok(b[ch]) == ComputeBaseline(groups[ch])
        {
          if ch < n - 1 {
            assert b[ch] == Baselines(init).value[ch];
          }
        }
      }
    }
  }

  /** The main loop over the channels of one event: the first channel
   *  without waveforms stops the script with the error of
   *  `numpy.concatenate`. */
  method ChannelBaselines(groups: seq<seq<OpDetWaveform>>) returns (r: Result<seq<Estimate>>)
    ensures r == Baselines(groups)
  {
    var baselines := [];
    for ch := 0 to |groups|
      invariant Baselines(groups[..ch]) == Ok(baselines)
    {
      assert groups[..ch + 1][..ch] == groups[..ch];
      var baseline := ComputeBaseline(groups[ch]);
      if baseline.Err? {
        BaselinesStop(groups, ch + 1);
        return Err(baseline.error);
      }
      baselines := baselines + [baseline.value];
    }
    assert groups[..|groups|] == groups;
    return Ok(baselines);
  }

  /** An error stops the loop. */
  lemma {:induction false} BaselinesStop(groups: seq<seq<OpDetWaveform>>, n: nat)
    requires n <= |groups| && Baselines(groups[..n]).Err?
    ensures Baselines(groups) == Baselines(groups[..n])
    decreases |groups| - n
  {
    if n < |groups| {
      assert groups[..n + 1][..n] == groups[..n];
      BaselinesStop(groups, n + 1);
    } else {
      assert groups[..n] == groups;
    }
  }

  predicate NoWaveformOn(waveforms: seq<OpDetWaveform>, ch: nat)
  {
    forall w :: w in waveforms ==> w.channel != ch
  }

  /** In an event grouped without a requested number of channels, the
   *  baselines are computed only when every channel up to the largest one
   *  has a waveform. */
  lemma {:induction false} EventNeedsEveryChannel(waveforms: seq<OpDetWaveform>, groups: seq<seq<OpDetWaveform>>)
    requires forall ch :: 0 <= ch < |groups| ==> groups[ch] == OnChannel(waveforms, ch)
    ensures Baselines(groups).Err? <==> exists ch :: 0 <= ch < |groups| && NoWaveformOn(waveforms, ch)
  {
    BaselinesOfChannels(groups);
    forall ch | 0 <= ch < |groups|
      ensures groups[ch] == [] <==> NoWaveformOn(waveforms, ch)
    {
      OnChannelHasChannel(waveforms, ch);
      if groups[ch] == [] {
        forall w | w in waveforms
          ensures w.channel != ch
        {
          OnChannelIsFilter(waveforms, ch, w);
        }
      } else {
        assert groups[ch][0] in OnChannel(waveforms, ch);
      }
    }
  }
}
