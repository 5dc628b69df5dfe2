/** The expansion of input file lists of the gallery helpers: a path ending
 *  in `.root` is a ROOT file, any other path names a text file listing
 *  more paths, one per line, with `#` comments and `\` escapes.
 *
 *  The file system is a parameter: a map from a list's path to its lines,
 *  where a missing path is a file that cannot be opened. */
module ExpandInputFiles {
  import opened Wrappers

  // ---------------------------------------------------------------------------
  // `isROOTfile`

  /** The position of the last `c` in `s`, if any (`std::string::rfind`). */
  function LastIndexOf(s: string, c: char): (r: Option<nat>)
    ensures r.Some? ==> r.value < |s| && s[r.value] == c && forall k :: r.value < k < |s| ==> s[k] != c
    ensures r.None? ==> forall k :: 0 <= k < |s| ==> s[k] != c
  {
    if s == [] then None
    else if s[|s| - 1] == c then Some(|s| - 1)
    else LastIndexOf(s[..|s| - 1], c)
  }

  /** `LastIndexOf` finds the `c` that no later `c` follows. */
  lemma {:induction false} LastIndexOfAt(s: string, c: char, i: nat)
    requires i < |s| && s[i] == c && forall k :: i < k < |s| ==> s[k] != c
    ensures LastIndexOf(s, c) == Some(i)
    decreases |s|
  {
    if i < |s| - 1 {
      var t := s[..|s| - 1];
      assert forall k :: i < k < |t| ==> t[k] == s[k];
      LastIndexOfAt(t, c, i);
    }
  }

  /** A name ending in `.root` has its last `.` where `.root` starts. */
  lemma {:induction false} LastDotOfROOT(f: string)
    ensures |f| >= 5 && f[|f| - 5..] == ".root" ==> LastIndexOf(f, '.') == Some(|f| - 5)
  {
    var n := |f|;
    if n >= 5 && f[n - 5..] == ".root" {
      assert f[n - 5] == '.' && f[n - 4] == 'r' && f[n - 3] == 'o' && f[n - 2] == 'o' && f[n - 1] == 't' by {
        assert f[n - 5..][0] == f[n - 5] && f[n - 5..][1] == f[n - 4] && f[n - 5..][2] == f[n - 3];
        assert f[n - 5..][3] == f[n - 2] && f[n - 5..][4] == f[n - 1];
      }
      LastIndexOfAt(f, '.', n - 5);
    }
  }

  /** `std::filesystem::path::filename` on a POSIX path: the part after the
   *  last `/`, empty when the path ends with `/`. */
  function FileName(p: string): string
  {
    match LastIndexOf(p, '/')
    case None => p
    case Some(i) => p[i + 1..]
  }

  /** The file name is the end of the path after its last `/`. */
  lemma {:induction false} FileNameIsLastPart(p: string)
    ensures var f := FileName(p);
            && |f| <= |p| && f == p[|p| - |f|..]
            && (forall k :: 0 <= k < |f| ==> f[k] != '/')
            && (|f| < |p| ==> p[|p| - |f| - 1] == '/')
  {
  }

  /** `std::filesystem::path::extension` of a file name: from its last `.`
   *  on, empty when there is no `.`, when the only `.` starts the name, and
   *  for `.` and `..`. */
  function Extension(f: string): string
  {
    if f == "." || f == ".." then []
    else
      match LastIndexOf(f, '.')
      case None => []
      case Some(i) => if i == 0 then [] else f[i..]
  }

  /** `std::filesystem::path::stem` of a file name: what precedes its
   *  extension. */
  function Stem(f: string): string
  {
    if |Extension(f)| <= |f| then f[..|f| - |Extension(f)|] else f
  }

  /** A non-empty extension is a proper end of the file name that starts
   *  with `.`, and the stem and the extension make up the name. */
  lemma {:induction false} StemAndExtension(f: string)
    ensures var e := Extension(f);
            && (e != [] ==> |e| < |f| && e == f[|f| - |e|..] && e[0] == '.')
            && |e| <= |f| && Stem(f) + e == f
  {
  }

  /** A file name has the extension `.root` and a non-empty stem exactly
   *  when it ends in `.root` after at least one more character. */
  lemma {:induction false} ROOTExtension(f: string)
    ensures Extension(f) == ".root" && Stem(f) != [] <==> |f| >= 6 && f[|f| - 5..] == ".root"
  {
    StemAndExtension(f);
    LastDotOfROOT(f);
    if |f| >= 6 && f[|f| - 5..] == ".root" {
      assert Extension(f) == ".root";
    }
  }

  /** `isROOTfile` on `std::filesystem::path`, the form compiled whenever
   *  the library provides `<filesystem>`: the extension is `.root` and the
   *  stem is not empty.  So a path is a ROOT file exactly when its file
   *  name ends in `.root` after at least one more character. */
  function IsROOTFile(filePath: string): (r: bool)
  {
    Extension(FileName(filePath)) == ".root" && Stem(FileName(filePath)) != []
  }

  lemma {:induction false} IsROOTFileMeans(filePath: string)
    ensures var f := FileName(filePath); IsROOTFile(filePath) <==> |f| >= 6 && f[|f| - 5..] == ".root"
  {
    ROOTExtension(FileName(filePath));
  }

  /** `isROOTfile` on strings, the form compiled without `<filesystem>`: at
   *  least 6 characters, and the part from the last `.`, when no `/`
   *  follows it, is `.root`.  So a path is a ROOT file exactly when it
   *  ends in `.root` after at least one more character. */
  function IsROOTFileString(filePath: string): (r: bool)
    ensures r <==> |filePath| >= 6 && filePath[|filePath| - 5..] == ".root"
  {
    LastDotOfROOT(filePath);
    if |filePath| < 6 then false
    else
      match LastIndexOf(filePath, '.')
      case None => false
      case Some(iExt) =>
        match LastIndexOf(filePath, '/')
        case Some(iBaseName) =>
          if iBaseName > iExt then false else filePath[iExt..] == ".root"
        case None => filePath[iExt..] == ".root"
  }

  /** The two forms differ only on a path whose file name is `.root` alone,
   *  as in `dir/.root`: the string form takes it for a ROOT file, the
   *  `<filesystem>` form, where `.root` is a stem with no extension, does
   *  not. */
  lemma {:induction false} ROOTFileForms(filePath: string)
    ensures IsROOTFile(filePath) ==> IsROOTFileString(filePath)
    ensures IsROOTFileString(filePath) && !IsROOTFile(filePath) <==> |filePath| >= 6 && FileName(filePath) == ".root"
  {
    FileNameIsLastPart(filePath);
    IsROOTFileMeans(filePath);
    SuffixForms(filePath, FileName(filePath));
  }

  /** The `.root` test on the end `f` of a path `p` that follows a `/` (or
   *  is all of `p`) and on the whole path disagree exactly when `f` is
   *  `.root` alone. */
  lemma {:induction false} SuffixForms(p: string, f: string)
    requires |f| <= |p| && f == p[|p| - |f|..] && (|f| < |p| ==> p[|p| - |f| - 1] == '/')
    ensures |f| >= 6 && f[|f| - 5..] == ".root" ==> |p| >= 6 && p[|p| - 5..] == ".root"
    ensures (|p| >= 6 && p[|p| - 5..] == ".root") && !(|f| >= 6 && f[|f| - 5..] == ".root")
            <==> |p| >= 6 && f == ".root"
  {
    if |f| >= 5 {
      LongSuffixForms(p, f);
    } else {
      ShortSuffixNotROOT(p, f);
    }
  }

  /** An end of at least five characters carries the whole path's last
   *  five. */
  lemma {:induction false} LongSuffixForms(p: string, f: string)
    requires |f| <= |p| && f == p[|p| - |f|..] && |f| >= 5
    ensures |f| >= 6 && f[|f| - 5..] == ".root" ==> |p| >= 6 && p[|p| - 5..] == ".root"
    ensures (|p| >= 6 && p[|p| - 5..] == ".root") && !(|f| >= 6 && f[|f| - 5..] == ".root")
            <==> |p| >= 6 && f == ".root"
  {
    var n, m := |p|, |f|;
    assert f[m - 5..] == p[n - 5..];
    if m == 5 {
      assert f == f[m - 5..];
    }
  }

  /** A path whose part after its last `/` is shorter than five characters
   *  does not end in `.root`, since `.root` holds no `/`. */
  lemma {:induction false} ShortSuffixNotROOT(p: string, f: string)
    requires |f| <= |p| && f == p[|p| - |f|..] && (|f| < |p| ==> p[|p| - |f| - 1] == '/') && |f| < 5
    ensures !(|p| >= 6 && p[|p| - 5..] == ".root")
  {
    var n, m := |p|, |f|;
    if m < n && n >= 5 {
      var j := n - m - 1;
      assert p[j] == p[n - 5..][j - (n - 5)];
    }
  }

  // ---------------------------------------------------------------------------
  // The parsing of one line of a list

  /** `std::isspace` in the "C" locale. */
  predicate IsSpace(c: char)
  {
    c == ' ' || c == '\t' || c == '\n' || c == '\U{000B}' || c == '\U{000C}' || c == '\r'
  }

  /** The number of leading white-space characters of `s`. */
  function SpaceRun(s: string): (k: nat)
    ensures k <= |s|
    ensures forall j :: 0 <= j < k ==> IsSpace(s[j])
    ensures k < |s| ==> !IsSpace(s[k])
  {
    if s == [] || !IsSpace(s[0]) then 0 else 1 + SpaceRun(s[1..])
  }

  /** The file name that starts at the beginning of `s` (not a white space):
   *  `\\` and `\#` stand for `\` and `#`, a `\` before anything else is kept
   *  together with that character, white space followed by the end of the
   *  line or by `#` ends the name, and any other white space is part of it. */
  function Name(s: string): string
    decreases |s|
  {
    if s == [] then []
    else if s[0] == '\\' then
      if |s| == 1 then "\\"
      else if s[1] == '\\' || s[1] == '#' then [s[1]] + Name(s[2..])
      else s[..2] + Name(s[2..])
    else if IsSpace(s[0]) then
      var k := SpaceRun(s);
      if k == |s| || s[k] == '#' then [] else s[..k] + Name(s[k..])
    else [s[0]] + Name(s[1..])
  }

  /** The line as a list entry: nothing for an empty or blank line, a
   *  comment line or an empty name; else the name after the leading white
   *  space. */
  function Entry(line: string): (r: Option<string>)
  {
    var start := SpaceRun(line);
    if start == |line| || line[start] == '#' then None
    else
      var name := Name(line[start..]);
      if name == [] then None else Some(name)
  }

  /** A name is no longer than the text it is read from, and a name read
   *  from a text starting with a non-space is not empty and starts with a
   *  non-space. */
  lemma {:induction false} NameBounds(s: string)
    ensures |Name(s)| <= |s|
    ensures s != [] && !IsSpace(s[0]) ==> Name(s) != [] && !IsSpace(Name(s)[0])
    decreases |s|
  {
    if s == [] {
    } else if s[0] == '\\' {
      if |s| > 1 {
        NameBounds(s[2..]);
      }
    } else if IsSpace(s[0]) {
      var k := SpaceRun(s);
      if k < |s| && s[k] != '#' {
        NameBounds(s[k..]);
      }
    } else {
      NameBounds(s[1..]);
    }
  }

  /** A line has no entry exactly when it is blank or its first non-space
   *  character is `#`; an entry is a name starting with a non-space and no
   *  longer than the rest of the line. */
  lemma {:induction false} EntryMeans(line: string)
    ensures Entry(line).None? <==> SpaceRun(line) == |line| || line[SpaceRun(line)] == '#'
    ensures Entry(line).Some? ==> var name := Entry(line).value;
      name != [] && !IsSpace(name[0]) && |name| <= |line| - SpaceRun(line)
  {
    var start := SpaceRun(line);
    if start < |line| {
      NameBounds(line[start..]);
    }
  }

  /** `skipSpaces`: the first position at or after `from` that is not a white
   *  space, or the end. */
  method SkipSpaces(line: string, from: nat) returns (i: nat)
    requires from <= |line|
    ensures i == from + SpaceRun(line[from..])
  {
    i := from;
    while i != |line|
      invariant from <= i <= |line|
      invariant forall j :: from <= j < i ==> IsSpace(line[j])
    {
      if !IsSpace(line[i]) {
        SpaceRunAt(line, from, i);
        return;
      }
      i := i + 1;
    }
    SpaceRunAt(line, from, i);
  }

  lemma {:induction false} SpaceRunAt(line: string, from: nat, i: nat)
    requires from <= i <= |line|
    requires forall j :: from <= j < i ==> IsSpace(line[j])
    requires i < |line| ==> !IsSpace(line[i])
    ensures SpaceRun(line[from..]) == i - from
    decreases i - from
  {
    if from < i {
      assert line[from..][1..] == line[from + 1..];
      SpaceRunAt(line, from + 1, i);
    }
  }

  /** The per-line parsing of `expandFileList`, which copies the name chunk
   *  by chunk between escapes and white space. */
  method ParseLine(line: string) returns (r: Option<string>)
    ensures r == Entry(line)
  {
    var start := SkipSpaces(line, 0);
    assert line[0..] == line;
    if start == |line| || line[start] == '#' {
      return None;
    }
    var filePath := CopyName(line, start);
    if filePath == [] {
      return None;
    }
    return Some(filePath);
  }

  /** The character loop of the per-line parsing, from the first character
   *  of the name. */
  method CopyName(line: string, start: nat) returns (filePath: string)
    requires start <= |line|
    ensures filePath == Name(line[start..])
  {
    filePath := "";
    var i: nat, iChunk: nat := start, start;
    ghost var name := Name(line[start..]);
    var done := false;
    while i != |line| && !done
      invariant iChunk <= i <= |line|
      invariant !done ==> filePath + line[iChunk..i] + Name(line[i..]) == name
      invariant done ==> filePath + line[iChunk..i] == name
      decreases |line| - i, !done
    {
      filePath, iChunk, i, done := CopyStep(line, filePath, iChunk, i, name);
    }
    assert filePath + line[iChunk..i] == name by {
      if !done {
        assert line[i..] == [];
      }
    }
    filePath := filePath + line[iChunk..i];
  }

  /** One pass of the character loop at position `i`: a `\` or `\#` drops
   *  its `\`, other escapes are copied; white space ends the name (`done`)
   *  before the end of the line or a `#`, else it is copied; any other
   *  character is copied. */
  method CopyStep(line: string, filePath: string, iChunk: nat, i: nat, ghost name: string)
    returns (filePath': string, iChunk': nat, i': nat, done: bool)
    requires iChunk <= i < |line|
    requires filePath + line[iChunk..i] + Name(line[i..]) == name
    ensures iChunk' <= i' <= |line| && i <= i'
    ensures !done ==> i < i' && filePath' + line[iChunk'..i'] + Name(line[i'..]) == name
    ensures done ==> filePath' + line[iChunk'..i'] == name
  {
    filePath', iChunk', i', done := filePath, iChunk, i, false;
    if line[i'] == '\\' {
      filePath' := filePath' + line[iChunk'..i'];
      iChunk' := i';
      i' := i' + 1;
      if i' == |line| {
        StepBackslashAtEnd(line, filePath, iChunk, i, name);
        done := true;
        return;
      }
      StepBackslash(line, filePath, iChunk, i, name);
      if line[i'] == '\\' || line[i'] == '#' {
        iChunk' := i';
      }
    } else if IsSpace(line[i']) {
      filePath' := filePath' + line[iChunk'..i'];
      iChunk' := i';
      var iAfter := SkipSpaces(line, i');
      StepSpaces(line, filePath, iChunk, i, iAfter, name);
      if iAfter == |line| || line[iAfter] == '#' {
        done := true;
        return;
      }
      i' := iAfter;
      return;
    } else {
      StepOther(line, filePath, iChunk, i, name);
    }
    i' := i' + 1;
  }

  lemma {:induction false} StepBackslashAtEnd(line: string, filePath: string, iChunk: nat, i: nat, name: string)
    requires iChunk <= i && i + 1 == |line| && line[i] == '\\'
    requires filePath + line[iChunk..i] + Name(line[i..]) == name
    ensures filePath + line[iChunk..i] + line[i..i + 1] == name
  {
    NameOfBackslash(line, i);
  }

  lemma {:induction false} StepBackslash(line: string, filePath: string, iChunk: nat, i: nat, name: string)
    requires iChunk <= i && i + 1 < |line| && line[i] == '\\'
    requires filePath + line[iChunk..i] + Name(line[i..]) == name
    ensures line[i + 1] == '\\' || line[i + 1] == '#' ==>
      filePath + line[iChunk..i] + line[i + 1..i + 2] + Name(line[i + 2..]) == name
    ensures line[i + 1] != '\\' && line[i + 1] != '#' ==>
      filePath + line[iChunk..i] + line[i..i + 2] + Name(line[i + 2..]) == name
  {
    NameOfBackslash(line, i);
    if line[i + 1] == '\\' || line[i + 1] == '#' {
      Shift(line, filePath, iChunk, i, filePath + line[iChunk..i], i + 1, i + 2, line[i + 1..i + 2], name);
    } else {
      Shift(line, filePath, iChunk, i, filePath + line[iChunk..i], i, i + 2, line[i..i + 2], name);
    }
  }

  lemma {:induction false} StepSpaces(line: string, filePath: string, iChunk: nat, i: nat, iAfter: nat, name: string)
    requires iChunk <= i < |line| && IsSpace(line[i])
    requires iAfter == i + SpaceRun(line[i..])
    requires filePath + line[iChunk..i] + Name(line[i..]) == name
    ensures iAfter == |line| || line[iAfter] == '#' ==> filePath + line[iChunk..i] + line[i..i] == name
    ensures iAfter < |line| && line[iAfter] != '#' ==>
      filePath + line[iChunk..i] + line[i..iAfter] + Name(line[iAfter..]) == name
  {
    NameOfSpaces(line, i, iAfter);
    assert line[i..i] == [];
    if iAfter < |line| && line[iAfter] != '#' {
      Shift(line, filePath, iChunk, i, filePath + line[iChunk..i], i, iAfter, line[i..iAfter], name);
    }
  }

  lemma {:induction false} StepOther(line: string, filePath: string, iChunk: nat, i: nat, name: string)
    requires iChunk <= i < |line| && line[i] != '\\' && !IsSpace(line[i])
    requires filePath + line[iChunk..i] + Name(line[i..]) == name
    ensures filePath + line[iChunk..i + 1] + Name(line[i + 1..]) == name
  {
    assert line[i..][1..] == line[i + 1..];
    assert line[iChunk..i + 1] == line[iChunk..i] + line[i..i + 1];
    Shift(line, filePath, iChunk, i, filePath, iChunk, i + 1, line[i..i + 1], name);
  }

  /** One step of the parsing loop: the part `mid` of the name between
   *  positions `i` and `i'` moves into the copied chunks. */
  lemma {:induction false} Shift(line: string, filePath: string, iChunk: nat, i: nat, filePath': string, iChunk': nat, i': nat, mid: string, name: string)
    requires iChunk <= i <= |line| && iChunk' <= i' <= |line|
    requires filePath + line[iChunk..i] + Name(line[i..]) == name
    requires Name(line[i..]) == mid + Name(line[i'..])
    requires filePath' + line[iChunk'..i'] == filePath + line[iChunk..i] + mid
    ensures filePath' + line[iChunk'..i'] + Name(line[i'..]) == name
  {
    Regroup(filePath + line[iChunk..i], filePath' + line[iChunk'..i'], mid, Name(line[i'..]), Name(line[i..]), name);
  }

  /** Moving `mid` from the front of the rest to the end of the prefix
   *  leaves the whole unchanged. */
  lemma {:induction false} Regroup(prefix: string, prefix': string, mid: string, rest': string, rest: string, whole: string)
    requires prefix + rest == whole && rest == mid + rest' && prefix' == prefix + mid
    ensures prefix' + rest' == whole
  {
    assert prefix + (mid + rest') == (prefix + mid) + rest';
  }

  /** `Name` over a `\` at `i`, in the terms of the parsing loop. */
  lemma {:induction false} NameOfBackslash(line: string, i: nat)
    requires i < |line| && line[i] == '\\'
    ensures i + 1 == |line| ==> Name(line[i..]) == "\\" && line[i..i + 1] == "\\"
    ensures i + 1 < |line| && (line[i + 1] == '\\' || line[i + 1] == '#') ==>
      Name(line[i..]) == line[i + 1..i + 2] + Name(line[i + 2..])
    ensures i + 1 < |line| && line[i + 1] != '\\' && line[i + 1] != '#' ==>
      Name(line[i..]) == line[i..i + 2] + Name(line[i + 2..])
  {
    if i + 1 < |line| {
      assert line[i..][2..] == line[i + 2..];
      assert line[i..][..2] == line[i..i + 2];
    }
  }

  /** `Name` over the white space from `i` to `iAfter`. */
  lemma {:induction false} NameOfSpaces(line: string, i: nat, iAfter: nat)
    requires i < |line| && IsSpace(line[i])
    requires iAfter == i + SpaceRun(line[i..])
    ensures iAfter == |line| || line[iAfter] == '#' ==> Name(line[i..]) == []
    ensures iAfter < |line| && line[iAfter] != '#' ==>
      Name(line[i..]) == line[i..iAfter] + Name(line[iAfter..])
  {
    var k := SpaceRun(line[i..]);
    assert line[i..][k..] == line[iAfter..];
    assert line[i..][..k] == line[i..iAfter];
  }

  // ---------------------------------------------------------------------------
  // Writing a name so that it parses back

  /** `\` and `#` escaped with a `\`. */
  function Escape(name: string): (line: string)
    ensures |line| >= |name|
    ensures name != [] ==> line != [] && line[0] != '#' && (IsSpace(line[0]) <==> IsSpace(name[0]))
  {
    if name == [] then []
    else if name[0] == '\\' || name[0] == '#' then ['\\', name[0]] + Escape(name[1..])
    else [name[0]] + Escape(name[1..])
  }

  /** The escaped form of a name that does not end with white space parses
   *  back to the name. */
  lemma {:induction false} NameOfEscape(name: string)
    requires name != [] ==> !IsSpace(name[|name| - 1])
    ensures Name(Escape(name)) == name
    decreases |name|
  {
    if name != [] {
      var e := Escape(name);
      var rest := name[1..];
      assert rest != [] ==> rest[|rest| - 1] == name[|name| - 1];
      if name[0] == '\\' || name[0] == '#' {
        NameOfEscape(rest);
        assert e[2..] == Escape(rest);
      } else if IsSpace(name[0]) {
        var k := SpaceRun(name);
        assert k < |name|;
        NameOfEscape(name[k..]);
        EscapedSpaces(name, k);
      } else {
        NameOfEscape(rest);
        assert e[1..] == Escape(rest);
      }
    }
  }

  /** A name that starts with white space parses back from its escaped
   *  form when the rest after the white space does. */
  lemma {:induction false} EscapedSpaces(name: string, k: nat)
    requires 0 < k < |name| && k == SpaceRun(name)
    requires Name(Escape(name[k..])) == name[k..]
    ensures Name(Escape(name)) == name
  {
    var lead, after := name[..k], name[k..];
    assert lead + after == name;
    var escaped := Escape(after);
    assert Escape(name) == lead + escaped by {
      EscapeOfSpaces(name, k);
    }
    assert escaped != [] && escaped[0] != '#' && !IsSpace(escaped[0]) by {
      assert after[0] == name[k];
    }
    NameAfterSpaces(lead, escaped);
  }

  /** `Name` keeps white space that more of the name follows. */
  lemma {:induction false} NameAfterSpaces(lead: string, rest: string)
    requires lead != [] && forall j :: 0 <= j < |lead| ==> IsSpace(lead[j])
    requires rest != [] && !IsSpace(rest[0]) && rest[0] != '#'
    ensures Name(lead + rest) == lead + Name(rest)
  {
    var s := lead + rest;
    assert s[..|lead|] == lead && s[|lead|..] == rest;
    NameOfLeadingSpaces(s, |lead|);
  }

  /** Escaping leaves leading white space as it is. */
  lemma {:induction false} EscapeOfSpaces(name: string, k: nat)
    requires k <= |name| && forall j :: 0 <= j < k ==> IsSpace(name[j])
    ensures Escape(name) == name[..k] + Escape(name[k..])
    decreases k
  {
    if k > 0 {
      EscapeOfSpaces(name[1..], k - 1);
      assert name[1..][k - 1..] == name[k..];
      assert name[..k] == [name[0]] + name[1..][..k - 1];
    }
  }

  /** `Name` over white space followed by more of the name. */
  lemma {:induction false} NameOfLeadingSpaces(s: string, k: nat)
    requires 0 < k < |s| && !IsSpace(s[k]) && s[k] != '#' && forall j :: 0 <= j < k ==> IsSpace(s[j])
    ensures Name(s) == s[..k] + Name(s[k..])
  {
    SpaceRunOfPrefix(s, k);
  }

  lemma {:induction false} SpaceRunOfPrefix(s: string, k: nat)
    requires k < |s| && !IsSpace(s[k]) && forall j :: 0 <= j < k ==> IsSpace(s[j])
    ensures SpaceRun(s) == k
    decreases k
  {
    if k > 0 {
      SpaceRunOfPrefix(s[1..], k - 1);
    }
  }

  /** A line holding the escaped form of a name with no white space at
   *  either end is read as that name. */
  lemma {:induction false} EntryOfEscape(name: string)
    requires name != [] && !IsSpace(name[0]) && !IsSpace(name[|name| - 1])
    ensures Entry(Escape(name)) == Some(name)
  {
    NameOfEscape(name);
    var e := Escape(name);
    assert SpaceRun(e) == 0;
    assert e[0..] == e;
  }

  /** Blank lines and comment lines are skipped. */
  lemma {:induction false} SkippedLines(line: string)
    ensures (forall j :: 0 <= j < |line| ==> IsSpace(line[j])) ==> Entry(line) == None
    ensures SpaceRun(line) < |line| && line[SpaceRun(line)] == '#' ==> Entry(line) == None
  {
    if forall j :: 0 <= j < |line| ==> IsSpace(line[j]) {
      AllSpaces(line);
    }
  }

  lemma {:induction false} AllSpaces(line: string)
    requires forall j :: 0 <= j < |line| ==> IsSpace(line[j])
    ensures SpaceRun(line) == |line|
  {
    if line != [] {
      AllSpaces(line[1..]);
    }
  }

  /** A comment after white space ends the name, the white space before it
   *  is dropped and the one inside the name is kept. */
  lemma {:induction false} CommentAfterSpaces()
    ensures Entry("  a b # c") == Some("a b")
  {
    assert " # c"[1..] == "# c";
    assert SpaceRun(" # c") == 1;
    assert Name(" # c") == [];
    assert Name("b # c") == "b" by {
      assert "b # c"[1..] == " # c";
    }
    assert " b # c"[1..] == "b # c";
    assert SpaceRun(" b # c") == 1;
    assert Name(" b # c") == " b" by {
      assert " b # c"[..1] == " ";
    }
    assert Name("a b # c") == "a b" by {
      assert "a b # c"[1..] == " b # c";
    }
    assert "  a b # c"[1..] == " a b # c" && " a b # c"[1..] == "a b # c";
    assert SpaceRun("  a b # c") == 2;
    assert "  a b # c"[2..] == "a b # c";
  }

  /** A `#` not after white space is part of the name. */
  lemma {:induction false} HashInsideName()
    ensures Entry("a#b") == Some("a#b")
  {
    assert Name("b") == "b" by {
      assert "b"[1..] == [];
    }
    assert Name("#b") == "#b" by {
      assert "#b"[1..] == "b";
    }
    assert Name("a#b") == "a#b" by {
      assert "a#b"[1..] == "#b";
    }
    assert "a#b"[0..] == "a#b";
  }

  /** `\#` and `\\` stand for `#` and `\`. */
  lemma {:induction false} EscapedCharacters()
    ensures Entry("a\\#b\\\\c") == Some("a#b\\c")
  {
    assert Name("c") == "c" by {
      assert "c"[1..] == [];
    }
    assert Name("\\\\c") == "\\c" by {
      assert "\\\\c"[2..] == "c";
    }
    assert Name("b\\\\c") == "b\\c" by {
      assert "b\\\\c"[1..] == "\\\\c";
    }
    assert Name("\\#b\\\\c") == "#b\\c" by {
      assert "\\#b\\\\c"[2..] == "b\\\\c";
    }
    assert Name("a\\#b\\\\c") == "a#b\\c" by {
      assert "a\\#b\\\\c"[1..] == "\\#b\\\\c";
    }
    assert "a\\#b\\\\c"[0..] == "a\\#b\\\\c";
  }

  // ---------------------------------------------------------------------------
  // `expandFileList` and `expandInputFiles`

  /** The file system: the lines of each list file that can be opened. */
  type FileSystem = map<string, seq<string>>

  /** `FileNotFoundError` for a list that cannot be opened, wrapped by a
   *  `FileListErrorWrapper` with the list and the line number for each list
   *  it was met through; `TooDeep` when the nesting exceeds the bound. */
  datatype ExpansionError =
    | FileNotFound(fileName: string)
    | FromList(listName: string, line: nat, cause: ExpansionError)
    | TooDeep

  datatype Expansion = Files(files: seq<string>) | Failed(error: ExpansionError)

  /** The ROOT files of the list `listPath`, expanding nested lists at most
   *  `depth` levels deep.  `isROOT` is the form of `isROOTfile` the build
   *  selects: `IsROOTFile` with `<filesystem>`, `IsROOTFileString`
   *  without. */
  function ExpandList(isROOT: string -> bool, fs: FileSystem, listPath: string, depth: nat): Expansion
    decreases depth, 1, 0
  {
    if listPath !in fs then Failed(FileNotFound(listPath))
    else ExpandLines(isROOT, fs, listPath, fs[listPath], depth)
  }

  /** The ROOT files named by `lines` of the list `listPath`, in order. */
  function ExpandLines(isROOT: string -> bool, fs: FileSystem, listPath: string, lines: seq<string>, depth: nat): Expansion
    decreases depth, 0, |lines|
  {
    if lines == [] then Files([])
    else
      match ExpandLines(isROOT, fs, listPath, lines[..|lines| - 1], depth)
      case Failed(e) => Failed(e)
      case Files(files) =>
        match Entry(lines[|lines| - 1])
        case None => Files(files)
        case Some(filePath) =>
          if isROOT(filePath) then Files(files + [filePath])
          else if depth == 0 then Failed(TooDeep)
          else
            match ExpandList(isROOT, fs, filePath, depth - 1)
            case Failed(e) => Failed(FromList(listPath, |lines|, e))
            case Files(nested) => Files(files + nested)
  }

  /** `expandFileList`: reads the list line by line, keeps ROOT files and
   *  expands any other name as a nested list. */
  method ExpandFileList(isROOT: string -> bool, fs: FileSystem, listPath: string, depth: nat) returns (r: Expansion)
    ensures r == ExpandList(isROOT, fs, listPath, depth)
    decreases depth
  {
    if listPath !in fs {
      return Failed(FileNotFound(listPath));
    }
    var lines := fs[listPath];
    var files := [];
    var iLine := 0;
    while iLine < |lines|
      invariant iLine <= |lines|
      invariant ExpandLines(isROOT, fs, listPath, lines[..iLine], depth) == Files(files)
    {
      assert lines[..iLine + 1][..iLine] == lines[..iLine];
      var line := lines[iLine];
      iLine := iLine + 1;
      var entry := ParseLine(line);
      if entry.None? {
        continue;
      }
      var filePath := entry.value;
      if isROOT(filePath) {
        files := files + [filePath];
      } else {
        if depth == 0 {
          PrefixFailure(isROOT, fs, listPath, lines, iLine, depth);
          return Failed(TooDeep);
        }
        var nested := ExpandFileList(isROOT, fs, filePath, depth - 1);
        if nested.Failed? {
          PrefixFailure(isROOT, fs, listPath, lines, iLine, depth);
          return Failed(FromList(listPath, iLine, nested.error));
        }
        files := files + nested.files;
      }
    }
    assert lines[..|lines|] == lines;
    return Files(files);
  }

  /** Once some line fails, the whole list fails the same way. */
  lemma {:induction false} PrefixFailure(isROOT: string -> bool, fs: FileSystem, listPath: string, lines: seq<string>, n: nat, depth: nat)
    requires n <= |lines| && ExpandLines(isROOT, fs, listPath, lines[..n], depth).Failed?
    ensures ExpandLines(isROOT, fs, listPath, lines, depth) == ExpandLines(isROOT, fs, listPath, lines[..n], depth)
    decreases |lines| - n
  {
    if n < |lines| {
      assert lines[..n + 1][..n] == lines[..n];
      PrefixFailure(isROOT, fs, listPath, lines, n + 1, depth);
    } else {
      assert lines[..n] == lines;
    }
  }

  /** Everything an expansion yields is a ROOT file. */
  lemma {:induction false} ExpandedAreROOTFiles(isROOT: string -> bool, fs: FileSystem, listPath: string, depth: nat)
    ensures ExpandList(isROOT, fs, listPath, depth).Files? ==>
      forall k :: 0 <= k < |ExpandList(isROOT, fs, listPath, depth).files| ==> isROOT(ExpandList(isROOT, fs, listPath, depth).files[k])
    decreases depth, 1
  {
    if listPath in fs {
      LinesAreROOTFiles(isROOT, fs, listPath, fs[listPath], depth);
    }
  }

  lemma {:induction false} LinesAreROOTFiles(isROOT: string -> bool, fs: FileSystem, listPath: string, lines: seq<string>, depth: nat)
    ensures ExpandLines(isROOT, fs, listPath, lines, depth).Files? ==>
      forall k :: 0 <= k < |ExpandLines(isROOT, fs, listPath, lines, depth).files| ==> isROOT(ExpandLines(isROOT, fs, listPath, lines, depth).files[k])
    decreases depth, 0, |lines|
  {
    if lines != [] {
      var init := ExpandLines(isROOT, fs, listPath, lines[..|lines| - 1], depth);
      LinesAreROOTFiles(isROOT, fs, listPath, lines[..|lines| - 1], depth);
      var e := Entry(lines[|lines| - 1]);
      if init.Files? && e.Some? {
        if isROOT(e.value) {
          AppendROOTFiles(isROOT, init.files, [e.value]);
        } else if depth > 0 {
          var nested := ExpandList(isROOT, fs, e.value, depth - 1);
          ExpandedAreROOTFiles(isROOT, fs, e.value, depth - 1);
          if nested.Files? {
            AppendROOTFiles(isROOT, init.files, nested.files);
          }
        }
      }
    }
  }

  /** Appending ROOT files to ROOT files gives ROOT files. */
  lemma AppendROOTFiles(isROOT: string -> bool, files: seq<string>, more: seq<string>)
    requires forall k :: 0 <= k < |files| ==> isROOT(files[k])
    requires forall k :: 0 <= k < |more| ==> isROOT(more[k])
    ensures forall k :: 0 <= k < |files + more| ==> isROOT((files + more)[k])
  {
    forall k | 0 <= k < |files + more|
      ensures isROOT((files + more)[k])
    {
      if k >= |files| {
        assert (files + more)[k] == more[k - |files|];
      }
    }
  }

  /** A list of ROOT files only expands to those files, in order. */
  lemma {:induction false} ListOfROOTFiles(isROOT: string -> bool, fs: FileSystem, listPath: string, lines: seq<string>, depth: nat)
    requires forall k :: 0 <= k < |lines| ==> Entry(lines[k]).Some? && isROOT(Entry(lines[k]).value)
    ensures ExpandLines(isROOT, fs, listPath, lines, depth).Files?
    ensures |ExpandLines(isROOT, fs, listPath, lines, depth).files| == |lines|
    ensures forall k :: 0 <= k < |lines| ==> ExpandLines(isROOT, fs, listPath, lines, depth).files[k] == Entry(lines[k]).value
  {
    if lines != [] {
      var init := lines[..|lines| - 1];
      assert forall k :: 0 <= k < |init| ==> init[k] == lines[k];
      ListOfROOTFiles(isROOT, fs, listPath, init, depth);
      ROOTFileLine(isROOT, fs, listPath, lines, depth);
      SnocEntries(ExpandLines(isROOT, fs, listPath, init, depth).files, init, lines);
    }
  }

  /** Files matching the entries of all lines but the last, followed by the
   *  last line's entry, match the entries of all lines. */
  lemma {:induction false} SnocEntries(before: seq<string>, init: seq<string>, lines: seq<string>)
    requires lines != [] && init == lines[..|lines| - 1] && |before| == |init|
    requires forall k :: 0 <= k < |lines| ==> Entry(lines[k]).Some?
    requires forall k :: 0 <= k < |init| ==> before[k] == Entry(init[k]).value
    ensures forall k :: 0 <= k < |lines| ==> (before + [Entry(lines[|lines| - 1]).value])[k] == Entry(lines[k]).value
  {
    forall k | 0 <= k < |lines|
      ensures (before + [Entry(lines[|lines| - 1]).value])[k] == Entry(lines[k]).value
    {
      if k < |init| {
        assert init[k] == lines[k];
      }
    }
  }

  /** A line naming a ROOT file adds that file after those of the lines
   *  before it. */
  lemma {:induction false} ROOTFileLine(isROOT: string -> bool, fs: FileSystem, listPath: string, lines: seq<string>, depth: nat)
    requires lines != [] && ExpandLines(isROOT, fs, listPath, lines[..|lines| - 1], depth).Files?
    requires Entry(lines[|lines| - 1]).Some? && isROOT(Entry(lines[|lines| - 1]).value)
    ensures ExpandLines(isROOT, fs, listPath, lines, depth)
         == Files(ExpandLines(isROOT, fs, listPath, lines[..|lines| - 1], depth).files + [Entry(lines[|lines| - 1]).value])
  {
  }

  /** An error met through a nested list names the list and the line. */
  lemma {:induction false} NestedErrorWrapped(isROOT: string -> bool, fs: FileSystem, listPath: string, lines: seq<string>, depth: nat)
    requires lines != [] && depth > 0
    requires ExpandLines(isROOT, fs, listPath, lines[..|lines| - 1], depth).Files?
    requires Entry(lines[|lines| - 1]).Some? && !isROOT(Entry(lines[|lines| - 1]).value)
    requires Entry(lines[|lines| - 1]).value !in fs
    ensures ExpandLines(isROOT, fs, listPath, lines, depth)
         == Failed(FromList(listPath, |lines|, FileNotFound(Entry(lines[|lines| - 1]).value)))
  {
  }

  /** `expandInputFiles`: ROOT files are kept, any other path is expanded as
   *  a list (its errors unwrapped). */
  function ExpandAll(isROOT: string -> bool, fs: FileSystem, filePaths: seq<string>, depth: nat): Expansion
  {
    if filePaths == [] then Files([])
    else
      match ExpandAll(isROOT, fs, filePaths[..|filePaths| - 1], depth)
      case Failed(e) => Failed(e)
      case Files(expanded) =>
        var path := filePaths[|filePaths| - 1];
        if isROOT(path) then Files(expanded + [path])
        else
          match ExpandList(isROOT, fs, path, depth)
          case Failed(e) => Failed(e)
          case Files(files) => Files(expanded + files)
  }

  method ExpandInputFilesOf(isROOT: string -> bool, fs: FileSystem, filePaths: seq<string>, depth: nat) returns (r: Expansion)
    ensures r == ExpandAll(isROOT, fs, filePaths, depth)
  {
    var expanded := [];
    for k := 0 to |filePaths|
      invariant ExpandAll(isROOT, fs, filePaths[..k], depth) == Files(expanded)
    {
      assert filePaths[..k + 1][..k] == filePaths[..k];
      var path := filePaths[k];
      if isROOT(path) {
        expanded := expanded + [path];
      } else {
        var files := ExpandFileList(isROOT, fs, path, depth);
        if files.Failed? {
          AllPrefixFailure(isROOT, fs, filePaths, k + 1, depth);
          return files;
        }
        expanded := expanded + files.files;
      }
    }
    assert filePaths[..|filePaths|] == filePaths;
    return Files(expanded);
  }

  lemma {:induction false} AllPrefixFailure(isROOT: string -> bool, fs: FileSystem, filePaths: seq<string>, n: nat, depth: nat)
    requires n <= |filePaths| && ExpandAll(isROOT, fs, filePaths[..n], depth).Failed?
    ensures ExpandAll(isROOT, fs, filePaths, depth) == ExpandAll(isROOT, fs, filePaths[..n], depth)
    decreases |filePaths| - n
  {
    if n < |filePaths| {
      assert filePaths[..n + 1][..n] == filePaths[..n];
      AllPrefixFailure(isROOT, fs, filePaths, n + 1, depth);
    } else {
      assert filePaths[..n] == filePaths;
    }
  }
}
