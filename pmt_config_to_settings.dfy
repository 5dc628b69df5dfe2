/** The PMT readout-settings extraction script: reads the log of the PMT
 *  configuration dump, collects one setting per board channel, and writes
 *  the settings out as FHiCL or Python.
 *
 *  The two regular expressions are not modelled: each log line comes
 *  already classified as a channel line, a board line or anything else,
 *  with the numbers its groups capture. */
module PMTconfigToSettings {
  import opened Wrappers
  import BinaryDump

  /** A log line, as the two patterns see it. */
  datatype LogLine =
    | ChannelLine(boardChannel: nat, channelID: nat, baseline: nat, threshold: nat)
    | BoardLine(name: string, number: nat, fragmentID: nat, nChannels: nat)
    | OtherLine

  /** One entry of the result. */
  datatype Setting = Setting(channel: nat, boardNumber: nat, boardChannel: nat, baseline: nat, threshold: nat)

  /** The warning logged when a board had another number of channels than
   *  announced. */
  datatype Warning = CountMismatch(board: nat, found: nat, expected: nat)

  /** The state of the line loop, or the error that stopped it: the failed
   *  `assert` on a channel line before any board line, or the
   *  `RuntimeError` on a board channel met twice in the same board. */
  datatype Scan =
    | Scanning(settings: seq<Setting>, currentBoard: Option<nat>, channelsInBoard: set<nat>,
               expectedChannels: Option<nat>, warnings: seq<Warning>)
    | MissingBoard(line: nat)
    | RepeatedChannel(line: nat, boardChannel: nat, board: nat)

  /** One pass of the line loop, on line number `iLine` (from 0). */
  function Step(s: Scan, iLine: nat, line: LogLine): (r: Scan)
    requires s.Scanning?
  {
    match line
    case ChannelLine(boardChannel, channelID, baseline, threshold) =>
      if s.currentBoard.None? then MissingBoard(iLine)
      else if boardChannel in s.channelsInBoard then RepeatedChannel(iLine, boardChannel, s.currentBoard.value)
      else
        s.(settings := s.settings + [Setting(channelID, s.currentBoard.value, boardChannel, baseline, threshold)],
           channelsInBoard := s.channelsInBoard + {boardChannel})
    case BoardLine(_, number, _, nChannels) =>
      var warnings :=
        if s.expectedChannels.Some? && |s.channelsInBoard| != s.expectedChannels.value && s.currentBoard.Some?
        then s.warnings + [CountMismatch(s.currentBoard.value, |s.channelsInBoard|, s.expectedChannels.value)]
        else s.warnings;
      Scanning(s.settings, Some(number), {}, Some(nChannels), warnings)
    case OtherLine => s
  }

  /** The state after the lines; the first error stops the scan. */
  function ScanLines(lines: seq<LogLine>): Scan
  {
    if lines == [] then Scanning([], None, {}, None, [])
    else
      var s := ScanLines(lines[..|lines| - 1]);
      if s.Scanning? then Step(s, |lines| - 1, lines[|lines| - 1]) else s
  }

  // ---------------------------------------------------------------------------
  // When the log is accepted

  /** Some board line comes before line `i`. */
  predicate BoardBefore(lines: seq<LogLine>, i: nat)
    requires i <= |lines|
  {
    exists j :: 0 <= j < i && lines[j].BoardLine?
  }

  /** No board line comes after line `i` and before line `j`. */
  predicate SameBoard(lines: seq<LogLine>, i: nat, j: nat)
    requires i <= j <= |lines|
  {
    forall k :: i < k < j ==> !lines[k].BoardLine?
  }

  /** Line `i` repeats the board channel of line `j`, with no board line in
   *  between. */
  predicate Repeats(lines: seq<LogLine>, i: nat, j: nat)
    requires i < j < |lines|
  {
    lines[i].ChannelLine? && lines[j].ChannelLine? && lines[i].boardChannel == lines[j].boardChannel
    && SameBoard(lines, i, j)
  }

  /** Every channel line follows some board line, and no board channel
   *  appears twice without a board line in between. */
  predicate Accepted(lines: seq<LogLine>)
  {
    (forall j :: 0 <= j < |lines| && lines[j].ChannelLine? ==> BoardBefore(lines, j))
    && (forall j :: 0 <= j < |lines| ==> Unrepeated(lines, j))
  }

  /** No earlier line of the same board has the board channel of line `j`. */
  predicate Unrepeated(lines: seq<LogLine>, j: nat)
    requires j < |lines|
  {
    forall i :: 0 <= i < j ==> !Repeats(lines, i, j)
  }

  /** Whether a board line was read. */
  function HasBoard(lines: seq<LogLine>): bool
  {
    lines != [] && (lines[|lines| - 1].BoardLine? || HasBoard(lines[..|lines| - 1]))
  }

  /** The board channels read since the last board line. */
  function ChannelsSinceBoard(lines: seq<LogLine>): set<nat>
  {
    if lines == [] then {}
    else
      var last := lines[|lines| - 1];
      if last.BoardLine? then {}
      else if last.ChannelLine? then ChannelsSinceBoard(lines[..|lines| - 1]) + {last.boardChannel}
      else ChannelsSinceBoard(lines[..|lines| - 1])
  }

  /** What the loop state holds after `lines`. */
  predicate StateOf(s: Scan, lines: seq<LogLine>)
    requires s.Scanning?
  {
    s.currentBoard.Some? == HasBoard(lines)
    && s.expectedChannels.Some? == HasBoard(lines)
    && s.channelsInBoard == ChannelsSinceBoard(lines)
  }

  lemma {:induction false} HasBoardMeans(lines: seq<LogLine>)
    ensures HasBoard(lines) <==> BoardBefore(lines, |lines|)
  {
    if lines != [] {
      var init := lines[..|lines| - 1];
      HasBoardMeans(init);
      if BoardBefore(init, |init|) {
        var j :| 0 <= j < |init| && init[j].BoardLine?;
        assert lines[j] == init[j];
      }
      if BoardBefore(lines, |lines|) && !lines[|lines| - 1].BoardLine? {
        var j :| 0 <= j < |lines| && lines[j].BoardLine?;
        assert init[j] == lines[j];
      }
    }
  }

  lemma {:induction false} ChannelsSinceMeans(lines: seq<LogLine>, c: nat)
    ensures c in ChannelsSinceBoard(lines) <==>
      exists i :: 0 <= i < |lines| && lines[i].ChannelLine? && lines[i].boardChannel == c && SameBoard(lines, i, |lines|)
  {
    if lines != [] {
      var n := |lines|;
      var init := lines[..n - 1];
      ChannelsSinceMeans(init, c);
      if c in ChannelsSinceBoard(lines) {
        if lines[n - 1].ChannelLine? && lines[n - 1].boardChannel == c {
          assert SameBoard(lines, n - 1, n);
        } else {
          var i :| 0 <= i < n - 1 && init[i].ChannelLine? && init[i].boardChannel == c && SameBoard(init, i, n - 1);
          assert lines[i] == init[i];
          assert SameBoard(lines, i, n);
        }
      }
      if exists i :: 0 <= i < n && lines[i].ChannelLine? && lines[i].boardChannel == c && SameBoard(lines, i, n) {
        var i :| 0 <= i < n && lines[i].ChannelLine? && lines[i].boardChannel == c && SameBoard(lines, i, n);
        if i < n - 1 {
          assert !lines[n - 1].BoardLine?;
          assert init[i] == lines[i];
          assert SameBoard(init, i, n - 1);
        }
      }
    }
  }

  /** Accepted lines, one more line at a time. */
  lemma {:induction false} AcceptedStep(lines: seq<LogLine>)
    requires lines != []
    ensures var n := |lines|; var init := lines[..n - 1];
      Accepted(lines) <==>
        Accepted(init)
        && (lines[n - 1].ChannelLine? ==> BoardBefore(init, n - 1))
        && Unrepeated(lines, n - 1)
  {
    var n := |lines|;
    var init := lines[..n - 1];
    forall j | 0 <= j < n - 1
      ensures BoardBefore(lines, j) == BoardBefore(init, j)
      ensures Unrepeated(lines, j) == Unrepeated(init, j)
    {
      PrefixAgrees(lines, n - 1, j);
    }
    PrefixAgrees(lines, n - 1, n - 1);
  }

  /** A prefix of the lines says the same about its own lines. */
  lemma {:induction false} PrefixAgrees(lines: seq<LogLine>, m: nat, j: nat)
    requires j <= m <= |lines|
    ensures BoardBefore(lines, j) == BoardBefore(lines[..m], j)
    ensures j < m ==> Unrepeated(lines, j) == Unrepeated(lines[..m], j)
  {
    var p := lines[..m];
    assert forall k :: 0 <= k < m ==> p[k] == lines[k];
    if j < m {
      assert forall i :: 0 <= i < j ==> (SameBoard(lines, i, j) <==> SameBoard(p, i, j));
      assert forall i :: 0 <= i < j ==> (Repeats(lines, i, j) <==> Repeats(p, i, j));
    }
  }

  /** The repeated channel, seen from the channels since the last board. */
  lemma {:induction false} RepeatsSince(lines: seq<LogLine>)
    requires lines != [] && lines[|lines| - 1].ChannelLine?
    ensures var n := |lines|;
      Unrepeated(lines, n - 1) <==> lines[n - 1].boardChannel !in ChannelsSinceBoard(lines[..n - 1])
  {
    var n := |lines|;
    var init := lines[..n - 1];
    var c := lines[n - 1].boardChannel;
    ChannelsSinceMeans(init, c);
    assert forall k :: 0 <= k < n - 1 ==> init[k] == lines[k];
    var m := n - 1;
    forall i | 0 <= i < m
      ensures Repeats(lines, i, m) <==> init[i].ChannelLine? && init[i].boardChannel == c && SameBoard(init, i, m)
    {
      assert SameBoard(lines, i, m) <==> SameBoard(init, i, m);
    }
  }

  /** The scan ends without error exactly on an accepted log. */
  lemma {:induction false} ScanAccepts(lines: seq<LogLine>)
    ensures ScanLines(lines).Scanning? <==> Accepted(lines)
    ensures ScanLines(lines).Scanning? ==> StateOf(ScanLines(lines), lines)
  {
    if lines != [] {
      var n := |lines|;
      var init := lines[..n - 1];
      ScanAccepts(init);
      AcceptedStep(lines);
      if lines[n - 1].ChannelLine? {
        HasBoardMeans(init);
        RepeatsSince(lines);
      } else {
        var m := n - 1;
        assert forall i :: 0 <= i < m ==> !Repeats(lines, i, m);
      }
    }
  }

  /** The number of channel lines. */
  function ChannelLines(lines: seq<LogLine>): nat
  {
    if lines == [] then 0
    else ChannelLines(lines[..|lines| - 1]) + (if lines[|lines| - 1].ChannelLine? then 1 else 0)
  }

  /** The scan collects one setting per channel line. */
  lemma {:induction false} ScanCollects(lines: seq<LogLine>)
    ensures ScanLines(lines).Scanning? ==> |ScanLines(lines).settings| == ChannelLines(lines)
  {
    if lines != [] {
      ScanCollects(lines[..|lines| - 1]);
    }
  }

  /** A board with another number of channels than announced is warned
   *  about only when the next board line comes: the last board never is. */
  lemma {:induction false} LastBoardNotChecked(lines: seq<LogLine>, extra: LogLine)
    requires ScanLines(lines).Scanning? && extra.ChannelLine? && ScanLines(lines + [extra]).Scanning?
    ensures ScanLines(lines + [extra]).warnings == ScanLines(lines).warnings
  {
    assert (lines + [extra])[..|lines|] == lines;
  }

  /** The message of the `RuntimeError` for a repeated board channel, as
   *  written: the string has no `f` prefix, so its placeholders come out
   *  as they are, whatever the line, channel and board. */
  function RepeatedChannelMessageAsWritten(error: Scan): (message: string)
    requires error.RepeatedChannel?
    ensures |message| > 8 && message[..8] == "At line " && message[8] == '{'
  {
    var rest := ['{'] + "iLine}: missed a board number in the input log file, board channel {boardChannel} was already found in board {currentBoard}.";
    var message := "At line " + rest;
    assert message[..8] == "At line " && message[8] == rest[0];
    message
  }

  /** The message as evidently intended, with the numbers of the error
   *  written out; it starts with the line number. */
  function RepeatedChannelMessage(error: Scan): (message: string)
    requires error.RepeatedChannel?
    ensures |message| > 8 && message[..8] == "At line " && '0' <= message[8] <= '9'
  {
    LeadingDigit(error.line);
    "At line " + BinaryDump.DecimalText(error.line) + ": missed a board number in the input log file, board channel "
      + BinaryDump.DecimalText(error.boardChannel) + " was already found in board "
      + BinaryDump.DecimalText(error.board) + "."
  }

  /** The decimal text starts with a digit. */
  lemma {:induction false} LeadingDigit(n: nat)
    ensures '0' <= BinaryDump.DecimalText(n)[0] <= '9'
    decreases n
  {
    if n >= 10 {
      LeadingDigit(n / 10);
    }
  }

  /** Two errors on different lines: the message as written does not tell
   *  them apart, the intended one does. */
  lemma {:induction false} RepeatedChannelMessages()
    ensures RepeatedChannelMessageAsWritten(RepeatedChannel(3, 5, 1)) == RepeatedChannelMessageAsWritten(RepeatedChannel(7, 5, 1))
    ensures RepeatedChannelMessage(RepeatedChannel(3, 5, 1)) != RepeatedChannelMessage(RepeatedChannel(7, 5, 1))
  {
    assert BinaryDump.DecimalText(3) == "3" && BinaryDump.DecimalText(7) == "7";
    assert RepeatedChannelMessage(RepeatedChannel(3, 5, 1))[8] != RepeatedChannelMessage(RepeatedChannel(7, 5, 1))[8];
  }

  // ---------------------------------------------------------------------------
  // Sorting by channel (`list.sort`, which is stable)

  predicate SortedByChannel(s: seq<Setting>)
  {
    forall i, j :: 0 <= i < j < |s| ==> s[i].channel <= s[j].channel
  }

  /** The settings of channel `c`, in order. */
  function OfChannel(s: seq<Setting>, c: nat): seq<Setting>
  {
    if s == [] then [] else (if s[0].channel == c then [s[0]] else []) + OfChannel(s[1..], c)
  }

  /** Inserts `x` before the first setting with a channel not lower than
   *  its own. */
  function InsertByChannel(x: Setting, s: seq<Setting>): (r: seq<Setting>)
    requires SortedByChannel(s)
    ensures SortedByChannel(r)
    ensures multiset(r) == multiset(s) + multiset{x}
    ensures |r| == |s| + 1
    ensures r[0] == if s == [] || x.channel <= s[0].channel then x else s[0]
  {
    if s == [] then [x]
    else if x.channel <= s[0].channel then
      SortedCons(x, s);
      [x] + s
    else
      assert s == [s[0]] + s[1..];
      SortedTail(s);
      var t := InsertByChannel(x, s[1..]);
      SortedCons(s[0], t);
      [s[0]] + t
  }

  lemma {:induction false} SortedCons(y: Setting, t: seq<Setting>)
    requires SortedByChannel(t) && (t != [] ==> y.channel <= t[0].channel)
    ensures SortedByChannel([y] + t)
  {
    var r := [y] + t;
    forall i, j | 0 <= i < j < |r|
      ensures r[i].channel <= r[j].channel
    {
      if i > 0 {
        assert r[i] == t[i - 1] && r[j] == t[j - 1];
      } else if j > 1 {
        assert t[0].channel <= t[j - 1].channel;
      }
    }
  }

  lemma {:induction false} SortedTail(s: seq<Setting>)
    requires s != [] && SortedByChannel(s)
    ensures SortedByChannel(s[1..])
  {
    forall i, j | 0 <= i < j < |s| - 1
      ensures s[1..][i].channel <= s[1..][j].channel
    {
      assert s[1..][i] == s[i + 1] && s[1..][j] == s[j + 1];
    }
  }

  /** Inserting keeps the settings of each channel in their order, `x`
   *  first among those of its channel. */
  lemma {:induction false} InsertKeepsOrder(x: Setting, s: seq<Setting>, c: nat)
    requires SortedByChannel(s)
    ensures OfChannel(InsertByChannel(x, s), c) == (if x.channel == c then [x] else []) + OfChannel(s, c)
  {
    var r := InsertByChannel(x, s);
    if s == [] || x.channel <= s[0].channel {
      assert r[1..] == s;
    } else {
      InsertKeepsOrder(x, s[1..], c);
      assert r[1..] == InsertByChannel(x, s[1..]);
      OfChannelSwap(x, s[0], c, OfChannel(s[1..], c));
    }
  }

  /** Settings of different channels can be taken in either order. */
  lemma {:induction false} OfChannelSwap(x: Setting, y: Setting, c: nat, rest: seq<Setting>)
    requires x.channel != y.channel
    ensures (if y.channel == c then [y] else []) + ((if x.channel == c then [x] else []) + rest)
         == (if x.channel == c then [x] else []) + ((if y.channel == c then [y] else []) + rest)
  {
  }

  /** The settings sorted by channel, those of one channel in their order. */
  function SortByChannel(s: seq<Setting>): (r: seq<Setting>)
    ensures SortedByChannel(r)
    ensures multiset(r) == multiset(s)
  {
    if s == [] then []
    else
      assert s == [s[0]] + s[1..];
      InsertByChannel(s[0], SortByChannel(s[1..]))
  }

  /** The sort is stable: the settings of each channel keep their order. */
  lemma {:induction false} SortIsStable(s: seq<Setting>, c: nat)
    ensures OfChannel(SortByChannel(s), c) == OfChannel(s, c)
  {
    if s != [] {
      SortIsStable(s[1..], c);
      InsertKeepsOrder(s[0], SortByChannel(s[1..]), c);
    }
  }

  /** `extractPMTreadoutSettings`: the result, or the error. */
  datatype Extraction =
    | Extracted(settings: seq<Setting>, warnings: seq<Warning>)
    | Failed(error: Scan)

  /** `extractPMTreadoutSettings`: scans the lines, then sorts the settings
   *  by channel. */
  method ExtractPMTReadoutSettings(lines: seq<LogLine>) returns (r: Extraction)
    ensures r.Extracted? <==> Accepted(lines)
    ensures r.Extracted? ==>
      ScanLines(lines).Scanning? && r.settings == SortByChannel(ScanLines(lines).settings) && r.warnings == ScanLines(lines).warnings
    ensures r.Failed? ==> r.error == ScanLines(lines)
  {
    var settings := [];
    var currentBoard := None;
    var channelsInBoard := {};
    var expectedChannels := None;
    var warnings := [];
    for iLine := 0 to |lines|
      invariant ScanLines(lines[..iLine]) == Scanning(settings, currentBoard, channelsInBoard, expectedChannels, warnings)
    {
      assert lines[..iLine + 1][..iLine] == lines[..iLine];
      match lines[iLine]
      case ChannelLine(boardChannel, channelID, baseline, threshold) =>
        if currentBoard.None? {
          ScanStops(lines, iLine + 1);
          ScanAccepts(lines);
          return Failed(MissingBoard(iLine));
        }
        if boardChannel in channelsInBoard {
          ScanStops(lines, iLine + 1);
          ScanAccepts(lines);
          return Failed(RepeatedChannel(iLine, boardChannel, currentBoard.value));
        }
        settings := settings + [Setting(channelID, currentBoard.value, boardChannel, baseline, threshold)];
        channelsInBoard := channelsInBoard + {boardChannel};
      case BoardLine(_, number, _, nChannels) =>
        if expectedChannels.Some? && |channelsInBoard| != expectedChannels.value && currentBoard.Some? {
          warnings := warnings + [CountMismatch(currentBoard.value, |channelsInBoard|, expectedChannels.value)];
        }
        channelsInBoard := {};
        currentBoard := Some(number);
        expectedChannels := Some(nChannels);
      case OtherLine =>
    }
    assert lines[..|lines|] == lines;
    ScanAccepts(lines);
    settings := SortByChannel(settings);
    return Extracted(settings, warnings);
  }

  /** An error stops the scan. */
  lemma {:induction false} ScanStops(lines: seq<LogLine>, n: nat)
    requires n <= |lines| && !ScanLines(lines[..n]).Scanning?
    ensures ScanLines(lines) == ScanLines(lines[..n])
    decreases |lines| - n
  {
    if n < |lines| {
      assert lines[..n + 1][..n] == lines[..n];
      ScanStops(lines, n + 1);
    } else {
      assert lines[..n] == lines;
    }
  }

  // ---------------------------------------------------------------------------
  // Output

  /** The output keys, in order. */
  const Keys: seq<string> := ["Channel", "BoardNumber", "BoardChannel", "Baseline", "Threshold"]

  /** The value of a setting under one of the keys. */
  function ValueOf(entry: Setting, key: string): nat
  {
    if key == "Channel" then entry.channel
    else if key == "BoardNumber" then entry.boardNumber
    else if key == "BoardChannel" then entry.boardChannel
    else if key == "Baseline" then entry.baseline
    else entry.threshold
  }

  /** `len(str(v))`. */
  function TextLength(v: nat): nat
  {
    |BinaryDump.DecimalText(v)|
  }

  function Max(a: nat, b: nat): nat { if a < b then b else a }

  /** The length of the longest text of the values of `key`. */
  function Padding(entries: seq<Setting>, key: string): nat
  {
    if entries == [] then 0
    else Max(Padding(entries[..|entries| - 1], key), TextLength(ValueOf(entries[|entries| - 1], key)))
  }

  /** `extractValuePaddings`: for each key, the longest text of its values;
   *  no key at all without entries. */
  function ValuePaddings(entries: seq<Setting>): (paddings: map<string, nat>)
  {
    if entries == [] then map[] else map key | key in Keys :: Padding(entries, key)
  }

  /** The padding of a key is the length of the text of one of the values,
   *  and no value's text is longer. */
  lemma {:induction false} PaddingIsLongest(entries: seq<Setting>, key: string)
    requires entries != []
    ensures forall k :: 0 <= k < |entries| ==> TextLength(ValueOf(entries[k], key)) <= Padding(entries, key)
    ensures exists k :: 0 <= k < |entries| && TextLength(ValueOf(entries[k], key)) == Padding(entries, key)
  {
    var n := |entries|;
    var init := entries[..n - 1];
    assert forall k :: 0 <= k < n - 1 ==> init[k] == entries[k];
    if init == [] {
      assert TextLength(ValueOf(entries[n - 1], key)) == Padding(entries, key);
    } else {
      PaddingIsLongest(init, key);
      if Padding(init, key) < TextLength(ValueOf(entries[n - 1], key)) {
        assert TextLength(ValueOf(entries[n - 1], key)) == Padding(entries, key);
      } else {
        var k :| 0 <= k < n - 1 && TextLength(ValueOf(init[k], key)) == Padding(init, key);
        assert TextLength(ValueOf(entries[k], key)) == Padding(entries, key);
      }
    }
  }

  /** The paddings have exactly the output keys, when there are entries. */
  lemma {:induction false} PaddingKeys(entries: seq<Setting>)
    ensures entries == [] <==> ValuePaddings(entries) == map[]
    ensures entries != [] ==> forall key :: key in ValuePaddings(entries) <==> key in Keys
  {
    if entries != [] {
      assert "Channel" in ValuePaddings(entries);
    }
  }

  /** `{value:{width}d}`: the decimal text, right-aligned with spaces to
   *  `width` characters. */
  function Padded(v: nat, width: nat): (s: string)
    ensures |s| == Max(width, TextLength(v))
  {
    var text := BinaryDump.DecimalText(v);
    if |text| < width then seq(width - |text|, _ => ' ') + text else text
  }

  /** With the paddings of all the entries, every value of every entry is
   *  written exactly as wide as its key's padding: the columns align. */
  lemma {:induction false} ColumnsAlign(entries: seq<Setting>, k: nat, key: string)
    requires k < |entries| && key in Keys
    ensures key in ValuePaddings(entries)
    ensures |Padded(ValueOf(entries[k], key), ValuePaddings(entries)[key])| == ValuePaddings(entries)[key]
  {
    PaddingIsLongest(entries, key);
  }

  function PaddingOf(paddings: map<string, nat>, key: string): nat
  {
    if key in paddings then paddings[key] else 0
  }

  /** The value of `key`, padded to the key's width. */
  function PaddedValue(entry: Setting, paddings: map<string, nat>, key: string): string
  {
    Padded(ValueOf(entry, key), PaddingOf(paddings, key))
  }

  /** `key: value`, as FHiCL writes it. */
  function Field(entry: Setting, paddings: map<string, nat>, key: string): string
  {
    key + ": " + PaddedValue(entry, paddings, key)
  }

  /** `entryToFHiCL`: `{ key: value, ... }`. */
  function EntryToFHiCL(entry: Setting, paddings: map<string, nat>, keys: seq<string>): string
  {
    "{ " + JoinFHiCL(entry, paddings, keys) + " }"
  }

  function JoinFHiCL(entry: Setting, paddings: map<string, nat>, keys: seq<string>): string
  {
    if keys == [] then ""
    else if |keys| == 1 then Field(entry, paddings, keys[0])
    else JoinFHiCL(entry, paddings, keys[..|keys| - 1]) + ", " + Field(entry, paddings, keys[|keys| - 1])
  }

  /** `entryToPython`: `{ 'key': value, ... }`. */
  function EntryToPython(entry: Setting, paddings: map<string, nat>, keys: seq<string>): string
  {
    "{ " + JoinPython(entry, paddings, keys) + "}"
  }

  function JoinPython(entry: Setting, paddings: map<string, nat>, keys: seq<string>): string
  {
    if keys == [] then ""
    else JoinPython(entry, paddings, keys[..|keys| - 1]) + "'" + keys[|keys| - 1] + "': " + PaddedValue(entry, paddings, keys[|keys| - 1]) + ", "
  }

  /** `formatData`: the whole list in the chosen format, assigned to
   *  `varName` when one is given; other formats raise
   *  `NotImplementedError`. */
  function FormatData(settings: seq<Setting>, outputFormat: string, varName: Option<string>): (r: Result<string>)
    ensures r.Ok? <==> outputFormat == "FHiCL" || outputFormat == "Python"
  {
    var paddings := ValuePaddings(settings);
    var tail := if varName.Some? && varName.value != "" then "# " + varName.value else "";
    if outputFormat == "FHiCL" then
      Ok((if varName.Some? && varName.value != "" then varName.value + " : " else "") + "[\n"
         + FHiCLLines(settings, paddings) + "] " + tail + "\n")
    else if outputFormat == "Python" then
      Ok((if varName.Some? && varName.value != "" then varName.value + " = " else "") + "["
         + PythonLines(settings, paddings) + "\n] " + tail + "\n")
    else Err("NotImplementedError")
  }

  function FHiCLLines(settings: seq<Setting>, paddings: map<string, nat>): string
  {
    if settings == [] then ""
    else if |settings| == 1 then "  " + EntryToFHiCL(settings[0], paddings, Keys)
    else FHiCLLines(settings[..|settings| - 1], paddings) + ",\n  " + EntryToFHiCL(settings[|settings| - 1], paddings, Keys)
  }

  function PythonLines(settings: seq<Setting>, paddings: map<string, nat>): string
  {
    if settings == [] then ""
    else PythonLines(settings[..|settings| - 1], paddings) + "\n  " + EntryToPython(settings[|settings| - 1], paddings, Keys) + ","
  }

  /** Paddings that fit both entries' values. */
  predicate Fits(paddings: map<string, nat>, keys: seq<string>, entry: Setting)
  {
    forall i :: 0 <= i < |keys| ==> TextLength(ValueOf(entry, keys[i])) <= PaddingOf(paddings, keys[i])
  }

  /** Two entries whose values fit the paddings are written with the same
   *  width in FHiCL. */
  lemma {:induction false} FHiCLSameWidth(e1: Setting, e2: Setting, paddings: map<string, nat>, keys: seq<string>)
    requires Fits(paddings, keys, e1) && Fits(paddings, keys, e2)
    ensures |JoinFHiCL(e1, paddings, keys)| == |JoinFHiCL(e2, paddings, keys)|
  {
    if |keys| > 1 {
      var init := keys[..|keys| - 1];
      assert forall i :: 0 <= i < |init| ==> init[i] == keys[i];
      FHiCLSameWidth(e1, e2, paddings, init);
      assert TextLength(ValueOf(e1, keys[|keys| - 1])) <= PaddingOf(paddings, keys[|keys| - 1]);
      assert TextLength(ValueOf(e2, keys[|keys| - 1])) <= PaddingOf(paddings, keys[|keys| - 1]);
    } else if |keys| == 1 {
      assert TextLength(ValueOf(e1, keys[0])) <= PaddingOf(paddings, keys[0]);
      assert TextLength(ValueOf(e2, keys[0])) <= PaddingOf(paddings, keys[0]);
    }
  }

  /** Two entries whose values fit the paddings are written with the same
   *  width in Python. */
  lemma {:induction false} PythonSameWidth(e1: Setting, e2: Setting, paddings: map<string, nat>, keys: seq<string>)
    requires Fits(paddings, keys, e1) && Fits(paddings, keys, e2)
    ensures |JoinPython(e1, paddings, keys)| == |JoinPython(e2, paddings, keys)|
  {
    if keys != [] {
      var init := keys[..|keys| - 1];
      assert forall i :: 0 <= i < |init| ==> init[i] == keys[i];
      PythonSameWidth(e1, e2, paddings, init);
      assert TextLength(ValueOf(e1, keys[|keys| - 1])) <= PaddingOf(paddings, keys[|keys| - 1]);
      assert TextLength(ValueOf(e2, keys[|keys| - 1])) <= PaddingOf(paddings, keys[|keys| - 1]);
    }
  }

  /** With the paddings `formatData` extracts, all the entries of the list
   *  are written with the same width, in either format. */
  lemma {:induction false} EntriesAlign(settings: seq<Setting>, k1: nat, k2: nat)
    requires k1 < |settings| && k2 < |settings|
    ensures |EntryToFHiCL(settings[k1], ValuePaddings(settings), Keys)|
         == |EntryToFHiCL(settings[k2], ValuePaddings(settings), Keys)|
    ensures |EntryToPython(settings[k1], ValuePaddings(settings), Keys)|
         == |EntryToPython(settings[k2], ValuePaddings(settings), Keys)|
  {
    var paddings := ValuePaddings(settings);
    forall k | 0 <= k < |settings|
      ensures Fits(paddings, Keys, settings[k])
    {
      forall i | 0 <= i < |Keys|
        ensures TextLength(ValueOf(settings[k], Keys[i])) <= PaddingOf(paddings, Keys[i])
      {
        PaddingIsLongest(settings, Keys[i]);
      }
    }
    FHiCLSameWidth(settings[k1], settings[k2], paddings, Keys);
    PythonSameWidth(settings[k1], settings[k2], paddings, Keys);
  }

  /** A value is right-aligned: the text ends with its decimal digits. */
  lemma {:induction false} PaddedEndsWithDigits(v: nat, width: nat)
    ensures var text := BinaryDump.DecimalText(v); var s := Padded(v, width);
      s[|s| - |text|..] == text && forall i :: 0 <= i < |s| - |text| ==> s[i] == ' '
  {
  }
}
