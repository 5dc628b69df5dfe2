/** Reading CRT module and strip numbers out of GDML volume names, as both
 *  CRT sorters do: the number sits at a fixed offset computed from an
 *  assumed name layout, `std::string::substr` extracts it (throwing
 *  `std::out_of_range` when the offset is past the end) and C `atoi`
 *  converts it (no validation: a non-digit gives 0). */
module AuxDetNames {
  import opened Wrappers
  import opened IntMath

  /** A CRT module: the name of its total volume and its number of
   *  sensitive volumes (strips). */
  datatype AuxDetGeo = AuxDetGeo(name: string, nSensitiveVolumes: nat)

  /** A CRT strip: the name of its total volume. */
  datatype AuxDetSensitiveGeo = AuxDetSensitiveGeo(name: string)

  /** The module type guessed from the number of strips: 20 strips is a
   *  MINOS module, 16 a CERN module, 64 a double-chooz module, anything else
   *  no type at all. */
  function ModuleType(nSensitiveVolumes: nat): string
  {
    match nSensitiveVolumes
    case 20 => "MINOS"
    case 16 => "CERN"
    case 64 => "DC"
    case _ => ""
  }

  /** Name layouts the parsers assume: `volAuxDet<type>module###<region>`
   *  for modules and `volAuxDetSensitive<type>module###strip##` for strips. */
  function ModulePrefix(moduleType: string): string
  {
    "volAuxDet" + moduleType + "module"
  }

  function SensitiveModulePrefix(moduleType: string): string
  {
    "volAuxDetSensitive" + moduleType + "module"
  }

  function SensitiveStripPrefix(moduleType: string): string
  {
    SensitiveModulePrefix(moduleType) + "###strip"
  }

  /** `s.substr(pos, count)`: at most `count` characters from `pos`, and an
   *  `std::out_of_range` exception when `pos` is past the end. */
  function Substr(s: string, pos: nat, count: nat): (r: Result<string>)
    ensures r.Ok? <==> pos <= |s|
    ensures r.Ok? ==> |r.value| <= count && pos + |r.value| <= |s|
    ensures r.Ok? ==> r.value == s[pos..pos + |r.value|]
    ensures r.Ok? && |r.value| < count ==> pos + |r.value| == |s|
  {
    if pos > |s| then Err("std::out_of_range: basic_string::substr")
    else if pos + count <= |s| then Ok(s[pos..pos + count])
    else Ok(s[pos..])
  }

  /** The white space C's `isspace` accepts in the "C" locale. */
  predicate IsSpace(c: char)
  {
    c == ' ' || c == '\t' || c == '\n' || c == '\U{000B}' || c == '\U{000C}' || c == '\r'
  }

  predicate IsDigit(c: char)
  {
    '0' <= c <= '9'
  }

  predicate AllDigits(s: string)
  {
    forall i :: 0 <= i < |s| ==> IsDigit(s[i])
  }

  function SkipSpaces(s: string): (r: string)
    ensures |r| <= |s| && r == s[|s| - |r|..]
    ensures r == [] || !IsSpace(r[0])
  {
    if |s| > 0 && IsSpace(s[0]) then SkipSpaces(s[1..]) else s
  }

  /** The longest prefix of `s` made of decimal digits. */
  function LeadingDigits(s: string): (d: string)
    ensures |d| <= |s| && d == s[..|d|] && AllDigits(d)
    ensures |d| == |s| || !IsDigit(s[|d|])
  {
    if |s| > 0 && IsDigit(s[0]) then [s[0]] + LeadingDigits(s[1..]) else []
  }

  /** The decimal value of a digit string, most significant digit first. */
  function DigitsValue(d: string): (v: nat)
    requires AllDigits(d)
    ensures v < Pow(10, |d|)
  {
    if d == [] then 0
    else DigitsValue(d[..|d| - 1]) * 10 + (d[|d| - 1] as int - '0' as int)
  }

  /** C `atoi`: leading white space, an optional sign, then as many digits
   *  as follow; no digits at all give 0.  Only strings of at most three
   *  characters are converted here, so the overflow `atoi` leaves undefined
   *  never arises. */
  function Atoi(s: string): (n: int)
    ensures -(Pow(10, |s|) as int) < n < Pow(10, |s|)
  {
    var t := SkipSpaces(s);
    if |t| > 0 && (t[0] == '-' || t[0] == '+') then
      var v := DigitsValue(LeadingDigits(t[1..]));
      PowMono(|LeadingDigits(t[1..])|, |s|);
      if t[0] == '-' then -(v as int) else v
    else
      PowMono(|LeadingDigits(t)|, |s|);
      DigitsValue(LeadingDigits(t))
  }

  lemma {:induction false} PowMono(j: nat, k: nat)
    requires j <= k
    ensures Pow(10, j) <= Pow(10, k)
  {
    if j < k {
      PowMono(j, k - 1);
    }
  }

  /** `atoi(s.substr(pos, count).c_str())`. */
  function NumberAt(s: string, pos: nat, count: nat): (r: Result<int>)
    ensures r.Ok? <==> pos <= |s|
    ensures r.Ok? ==> -(Pow(10, count) as int) < r.value < Pow(10, count)
  {
    match Substr(s, pos, count)
    case Err(e) => Err(e)
    case Ok(part) =>
      PowMono(|part|, count);
      Ok(Atoi(part))
  }

  /** The module number of a module named `name` with `nSensitiveVolumes`
   *  strips: the three characters after `volAuxDet<type>module`. */
  function ModuleNumber(name: string, nSensitiveVolumes: nat): (r: Result<int>)
    ensures r.Ok? <==> |ModulePrefix(ModuleType(nSensitiveVolumes))| <= |name|
    ensures r.Ok? ==> -1000 < r.value < 1000
  {
    NumberAt(name, |ModulePrefix(ModuleType(nSensitiveVolumes))|, 3)
  }

  /** The type of a strip, found by searching its name for the type names
   *  in turn, each match overriding the previous one: "DC" wins over
   *  "CERN", which wins over "MINOS". */
  function SensitiveType(name: string): (t: string)
    ensures Contains(name, "DC") ==> t == "DC"
    ensures !Contains(name, "DC") && Contains(name, "CERN") ==> t == "CERN"
    ensures !Contains(name, "DC") && !Contains(name, "CERN") && Contains(name, "MINOS") ==> t == "MINOS"
    ensures t == "" <==> !Contains(name, "DC") && !Contains(name, "CERN") && !Contains(name, "MINOS")
  {
    var t0 := "";
    var t1 := if Contains(name, "MINOS") then "MINOS" else t0;
    var t2 := if Contains(name, "CERN") then "CERN" else t1;
    if Contains(name, "DC") then "DC" else t2
  }

  /** `s.find(p) != npos`. */
  predicate Contains(s: string, p: string)
    decreases |s|
  {
    |p| <= |s| && (s[..|p|] == p || Contains(s[1..], p))
  }

  predicate OccursAt(s: string, p: string, i: nat)
  {
    i + |p| <= |s| && s[i..i + |p|] == p
  }

  /** The recursive search finds `p` exactly when it occurs somewhere. */
  lemma {:induction false} ContainsMeans(s: string, p: string)
    ensures Contains(s, p) <==> exists i: nat :: OccursAt(s, p, i)
    decreases |s|
  {
    if |p| <= |s| && s[..|p|] == p {
      assert OccursAt(s, p, 0);
    } else if |p| <= |s| {
      ContainsMeans(s[1..], p);
      if exists i: nat :: OccursAt(s, p, i) {
        var i: nat :| OccursAt(s, p, i);
        assert i > 0;
        assert OccursAt(s[1..], p, i - 1) by {
          assert s[1..][i - 1..i - 1 + |p|] == s[i..i + |p|];
        }
      }
      if Contains(s[1..], p) {
        var i: nat :| OccursAt(s[1..], p, i);
        assert OccursAt(s, p, i + 1) by {
          assert s[1..][i..i + |p|] == s[i + 1..i + 1 + |p|];
        }
      }
    }
  }

  /** The module number of a strip: three characters after
   *  `volAuxDetSensitive<type>module`. */
  function SensitiveModuleNumber(name: string, moduleType: string): (r: Result<int>)
    ensures r.Ok? <==> |SensitiveModulePrefix(moduleType)| <= |name|
    ensures r.Ok? ==> -1000 < r.value < 1000
  {
    NumberAt(name, |SensitiveModulePrefix(moduleType)|, 3)
  }

  /** The strip number of a strip: two characters after
   *  `volAuxDetSensitive<type>module###strip`. */
  function StripNumber(name: string, moduleType: string): (r: Result<int>)
    ensures r.Ok? <==> |SensitiveStripPrefix(moduleType)| <= |name|
    ensures r.Ok? ==> -100 < r.value < 100
  {
    NumberAt(name, |SensitiveStripPrefix(moduleType)|, 2)
  }

  /** Whether two strips can be compared without an exception: both names
   *  are long enough for their module numbers and, when the module numbers
   *  are the same, for their strip numbers too. */
  predicate StripsComparable(name1: string, type1: string, name2: string, type2: string)
  {
    && |SensitiveModulePrefix(type1)| <= |name1| && |SensitiveModulePrefix(type2)| <= |name2|
    && (SensitiveModuleNumber(name1, type1) == SensitiveModuleNumber(name2, type2) ==>
          |SensitiveStripPrefix(type1)| <= |name1| && |SensitiveStripPrefix(type2)| <= |name2|)
  }

  /** The comparison both strip sorters make once the names are prepared:
   *  by module number, and by strip number only between strips of the same
   *  module, so that a strip number is read only when it is needed. */
  function ModuleThenStrip(name1: string, type1: string, name2: string, type2: string): (r: Result<bool>)
    ensures r.Ok? <==> StripsComparable(name1, type1, name2, type2)
  {
    match (SensitiveModuleNumber(name1, type1), SensitiveModuleNumber(name2, type2))
    case (Err(e), _) => Err(e)
    case (_, Err(e)) => Err(e)
    case (Ok(m1), Ok(m2)) =>
      if m1 != m2 then Ok(m1 < m2)
      else
        match (StripNumber(name1, type1), StripNumber(name2, type2))
        case (Err(e), _) => Err(e)
        case (_, Err(e)) => Err(e)
        case (Ok(s1), Ok(s2)) => Ok(s1 < s2)
  }

  /** The digits of `n` written with exactly `width` characters, zero
   *  padded, as the volume names carry them. */
  function PaddedDigits(n: nat, width: nat): (d: string)
    requires n < Pow(10, width)
    ensures |d| == width && AllDigits(d)
  {
    if width == 0 then []
    else PaddedDigits(n / 10, width - 1) + [('0' as int + n % 10) as char]
  }

  /** The digit value of zero-padded digits is the number written. */
  lemma {:induction false} PaddedDigitsValue(n: nat, width: nat)
    requires n < Pow(10, width)
    ensures DigitsValue(PaddedDigits(n, width)) == n
  {
    if width > 0 {
      var d := PaddedDigits(n, width);
      PaddedDigitsValue(n / 10, width - 1);
      assert d[..|d| - 1] == PaddedDigits(n / 10, width - 1);
      assert d[|d| - 1] as int - '0' as int == n % 10;
      assert n == (n / 10) * 10 + n % 10;
    }
  }

  /** `atoi` reads back a zero-padded number. */
  lemma {:induction false} AtoiOfPadded(n: nat, width: nat)
    requires n < Pow(10, width)
    ensures Atoi(PaddedDigits(n, width)) == n
  {
    AtoiOfDigits(PaddedDigits(n, width));
    PaddedDigitsValue(n, width);
  }

  /** `atoi` of a digit string is its digit value. */
  lemma {:induction false} AtoiOfDigits(d: string)
    requires AllDigits(d)
    ensures Atoi(d) == DigitsValue(d)
  {
    assert SkipSpaces(d) == d by {
      if |d| > 0 {
        assert IsDigit(d[0]);
      }
    }
    AllDigitsLead(d);
  }

  lemma {:induction false} AllDigitsLead(d: string)
    requires AllDigits(d)
    ensures LeadingDigits(d) == d
  {
    if |d| > 0 {
      AllDigitsLead(d[1..]);
    }
  }

  /** A digit-free leading character that is neither white space nor a
   *  sign makes `atoi` give 0: names are not validated. */
  lemma {:induction false} AtoiOfNonNumber(s: string)
    requires |s| > 0 && !IsSpace(s[0]) && !IsDigit(s[0]) && s[0] != '-' && s[0] != '+'
    ensures Atoi(s) == 0
  {
  }

  /** A module name laid out as assumed yields the module number written
   *  in it, whatever follows. */
  lemma {:induction false} ModuleNumberOfLayout(moduleType: string, nSensitiveVolumes: nat, moduleNumber: nat, region: string)
    requires moduleType == ModuleType(nSensitiveVolumes) && moduleNumber < 1000
    ensures ModuleNumber(ModulePrefix(moduleType) + PaddedDigits(moduleNumber, 3) + region, nSensitiveVolumes)
         == Ok(moduleNumber as int)
  {
    var prefix := ModulePrefix(moduleType);
    var name := prefix + PaddedDigits(moduleNumber, 3) + region;
    assert name[|prefix|..|prefix| + 3] == PaddedDigits(moduleNumber, 3);
    AtoiOfPadded(moduleNumber, 3);
  }

  /** A strip name laid out as assumed, of the type its name is searched
   *  out to be, yields the module and strip numbers written in it. */
  lemma {:induction false} SensitiveNumbersOfLayout(moduleType: string, moduleNumber: nat, strip: nat, tail: string)
    requires moduleNumber < 1000 && strip < 100
    ensures var name := SensitiveModulePrefix(moduleType) + PaddedDigits(moduleNumber, 3) + "strip"
                        + PaddedDigits(strip, 2) + tail;
            SensitiveModuleNumber(name, moduleType) == Ok(moduleNumber as int)
            && StripNumber(name, moduleType) == Ok(strip as int)
  {
    var prefix := SensitiveModulePrefix(moduleType);
    var name := prefix + PaddedDigits(moduleNumber, 3) + "strip" + PaddedDigits(strip, 2) + tail;
    assert |SensitiveStripPrefix(moduleType)| == |prefix| + 8;
    assert name[|prefix|..|prefix| + 3] == PaddedDigits(moduleNumber, 3);
    assert name[|prefix| + 8..|prefix| + 10] == PaddedDigits(strip, 2);
    AtoiOfPadded(moduleNumber, 3);
    AtoiOfPadded(strip, 2);
  }

  /** On readable names, the strip comparison is the lexicographic order
   *  of (moduleNumber, strip). */
  lemma {:induction false} ModuleThenStripIsLexicographic(name1: string, type1: string, name2: string, type2: string)
    requires SensitiveModuleNumber(name1, type1).Ok? && SensitiveModuleNumber(name2, type2).Ok?
    ensures var m1 := SensitiveModuleNumber(name1, type1).value;
            var m2 := SensitiveModuleNumber(name2, type2).value;
            var r := ModuleThenStrip(name1, type1, name2, type2);
            (m1 != m2 ==> r == Ok(m1 < m2))
            && (m1 == m2 ==> (r.Ok? <==> StripNumber(name1, type1).Ok? && StripNumber(name2, type2).Ok?))
            && (m1 == m2 && r.Ok? ==> r.value == (StripNumber(name1, type1).value < StripNumber(name2, type2).value))
  {
  }
}

/** The CRT sorter of the ICARUS geometry: names are stripped of
 *  underscores first, for compatibility with the legacy Geant4 naming. */
module AuxDetGeoObjectSorterICARUS {
  import opened Wrappers
  import opened AuxDetNames

  /** `name.erase(std::remove(..., '_'), name.end())`. */
  function EraseUnderscores(s: string): (r: string)
    ensures |r| <= |s|
    ensures forall i :: 0 <= i < |r| ==> r[i] != '_'
    ensures forall c :: c != '_' ==> multiset(r)[c] == multiset(s)[c]
  {
    if s == [] then []
    else
      var rest := EraseUnderscores(s[..|s| - 1]);
      assert s == s[..|s| - 1] + [s[|s| - 1]];
      if s[|s| - 1] == '_' then rest else rest + [s[|s| - 1]]
  }

  /** Erasing underscores twice is erasing them once. */
  lemma {:induction false} EraseIsIdempotent(s: string)
    ensures EraseUnderscores(EraseUnderscores(s)) == EraseUnderscores(s)
  {
    var r := EraseUnderscores(s);
    NoUnderscoreKept(r);
  }

  lemma {:induction false} NoUnderscoreKept(s: string)
    requires forall i :: 0 <= i < |s| ==> s[i] != '_'
    ensures EraseUnderscores(s) == s
  {
    if s != [] {
      NoUnderscoreKept(s[..|s| - 1]);
    }
  }

  /** Erasing underscores keeps the other characters in their order. */
  lemma {:induction false} EraseKeepsOrder(a: string, b: string)
    ensures EraseUnderscores(a + b) == EraseUnderscores(a) + EraseUnderscores(b)
    decreases |b|
  {
    if b != [] {
      assert (a + b)[..|a + b| - 1] == a + b[..|b| - 1];
      EraseKeepsOrder(a, b[..|b| - 1]);
    } else {
      assert a + b == a;
    }
  }

  /** `compareAuxDets`: modules ordered by module number. */
  function CompareAuxDets(ad1: AuxDetGeo, ad2: AuxDetGeo): (r: Result<bool>)
    ensures r.Ok? <==> (ModuleNumber(EraseUnderscores(ad1.name), ad1.nSensitiveVolumes).Ok?
                        && ModuleNumber(EraseUnderscores(ad2.name), ad2.nSensitiveVolumes).Ok?)
  {
    match (ModuleNumber(EraseUnderscores(ad1.name), ad1.nSensitiveVolumes),
           ModuleNumber(EraseUnderscores(ad2.name), ad2.nSensitiveVolumes))
    case (Err(e), _) => Err(e)
    case (_, Err(e)) => Err(e)
    case (Ok(n1), Ok(n2)) => Ok(n1 < n2)
  }

  /** `compareAuxDetSensitives`: strips ordered by module number, then by
   *  strip number.  The type is searched for before underscores are
   *  erased. */
  function CompareAuxDetSensitives(ad1: AuxDetSensitiveGeo, ad2: AuxDetSensitiveGeo): (r: Result<bool>)
    ensures var name1, name2 := EraseUnderscores(ad1.name), EraseUnderscores(ad2.name);
            var type1, type2 := SensitiveType(ad1.name), SensitiveType(ad2.name);
            && (r.Ok? <==> StripsComparable(name1, type1, name2, type2))
            && (r == Ok(true) ==> ModuleThenStrip(name2, type2, name1, type1) == Ok(false))
  {
    ModuleThenStrip(EraseUnderscores(ad1.name), SensitiveType(ad1.name),
                    EraseUnderscores(ad2.name), SensitiveType(ad2.name))
  }

  /** Legacy names, with underscores, sort exactly as their
   *  underscore-free versions. */
  lemma {:induction false} LegacyNamesSortAlike(ad1: AuxDetGeo, ad2: AuxDetGeo)
    ensures CompareAuxDets(ad1, ad2)
         == CompareAuxDets(ad1.(name := EraseUnderscores(ad1.name)), ad2.(name := EraseUnderscores(ad2.name)))
  {
    EraseIsIdempotent(ad1.name);
    EraseIsIdempotent(ad2.name);
  }

  /** Two modules named as assumed compare by the module numbers written
   *  in their names, with underscores anywhere ignored. */
  lemma {:induction false} CompareAuxDetsOfLayout(ad1: AuxDetGeo, ad2: AuxDetGeo, module1: nat, module2: nat,
                               region1: string, region2: string)
    requires module1 < 1000 && module2 < 1000
    requires EraseUnderscores(ad1.name)
          == ModulePrefix(ModuleType(ad1.nSensitiveVolumes)) + PaddedDigits(module1, 3) + region1
    requires EraseUnderscores(ad2.name)
          == ModulePrefix(ModuleType(ad2.nSensitiveVolumes)) + PaddedDigits(module2, 3) + region2
    ensures CompareAuxDets(ad1, ad2) == Ok(module1 < module2)
  {
    ModuleNumberOfLayout(ModuleType(ad1.nSensitiveVolumes), ad1.nSensitiveVolumes, module1, region1);
    ModuleNumberOfLayout(ModuleType(ad2.nSensitiveVolumes), ad2.nSensitiveVolumes, module2, region2);
  }

  /** Two strips named as assumed compare by (moduleNumber, strip) as written
   *  in their names. */
  lemma {:induction false} CompareAuxDetSensitivesOfLayout(ad1: AuxDetSensitiveGeo, ad2: AuxDetSensitiveGeo,
                                        module1: nat, strip1: nat, module2: nat, strip2: nat,
                                        tail1: string, tail2: string)
    requires module1 < 1000 && strip1 < 100 && module2 < 1000 && strip2 < 100
    requires EraseUnderscores(ad1.name) == SensitiveModulePrefix(SensitiveType(ad1.name))
             + PaddedDigits(module1, 3) + "strip" + PaddedDigits(strip1, 2) + tail1
    requires EraseUnderscores(ad2.name) == SensitiveModulePrefix(SensitiveType(ad2.name))
             + PaddedDigits(module2, 3) + "strip" + PaddedDigits(strip2, 2) + tail2
    ensures CompareAuxDetSensitives(ad1, ad2)
         == Ok(module1 < module2 || (module1 == module2 && strip1 < strip2))
  {
    SensitiveNumbersOfLayout(SensitiveType(ad1.name), module1, strip1, tail1);
    SensitiveNumbersOfLayout(SensitiveType(ad2.name), module2, strip2, tail2);
  }
}

/** The standard CRT sorting rules and the in-place sorts that use them.
 *  Unlike the ICARUS sorter, these read the names as they are. */
module AuxDetSorting {
  import opened Wrappers
  import opened AuxDetNames
  import AuxDetGeoObjectSorterICARUS

  /** `AuxDetStandardSortingRule`: modules ordered by module number. */
  function AuxDetStandardSortingRule(ad1: AuxDetGeo, ad2: AuxDetGeo): (r: Result<bool>)
    ensures r.Ok? <==> (ModuleNumber(ad1.name, ad1.nSensitiveVolumes).Ok?
                        && ModuleNumber(ad2.name, ad2.nSensitiveVolumes).Ok?)
  {
    match (ModuleNumber(ad1.name, ad1.nSensitiveVolumes), ModuleNumber(ad2.name, ad2.nSensitiveVolumes))
    case (Err(e), _) => Err(e)
    case (_, Err(e)) => Err(e)
    case (Ok(n1), Ok(n2)) => Ok(n1 < n2)
  }

  /** `AuxDetSensitiveStandardSortingRule`: strips ordered by module
   *  number, then by strip number. */
  function AuxDetSensitiveStandardSortingRule(ad1: AuxDetSensitiveGeo, ad2: AuxDetSensitiveGeo): (r: Result<bool>)
    ensures var type1, type2 := SensitiveType(ad1.name), SensitiveType(ad2.name);
            && (r.Ok? <==> StripsComparable(ad1.name, type1, ad2.name, type2))
            && (r == Ok(true) ==> ModuleThenStrip(ad2.name, type2, ad1.name, type1) == Ok(false))
  {
    ModuleThenStrip(ad1.name, SensitiveType(ad1.name), ad2.name, SensitiveType(ad2.name))
  }

  /** The sort key of a module: its module number (0 for an unreadable
   *  name, which never reaches the sort). */
  function ModuleKey(ad: AuxDetGeo): int
  {
    var n := ModuleNumber(ad.name, ad.nSensitiveVolumes);
    if n.Ok? then n.value else 0
  }

  function SensitiveModule(ad: AuxDetSensitiveGeo): Result<int>
  {
    SensitiveModuleNumber(ad.name, SensitiveType(ad.name))
  }

  function SensitiveStrip(ad: AuxDetSensitiveGeo): Result<int>
  {
    StripNumber(ad.name, SensitiveType(ad.name))
  }

  /** The sort key of a strip: module and strip number packed so that the
   *  integer order is their lexicographic order. */
  function SensitiveKey(ad: AuxDetSensitiveGeo): int
  {
    var m := SensitiveModule(ad);
    var s := SensitiveStrip(ad);
    (if m.Ok? then m.value else 0) * 1000 + (if s.Ok? then s.value else 0)
  }

  /** The module rule is the order of the module keys, on readable names. */
  lemma {:induction false} ModuleRuleIsKeyOrder(ad1: AuxDetGeo, ad2: AuxDetGeo)
    requires ModuleNumber(ad1.name, ad1.nSensitiveVolumes).Ok? && ModuleNumber(ad2.name, ad2.nSensitiveVolumes).Ok?
    ensures AuxDetStandardSortingRule(ad1, ad2) == Ok(ModuleKey(ad1) < ModuleKey(ad2))
  {
  }

  /** The strip rule is the order of the packed keys, whenever it reads
   *  both strip numbers or does not need them. */
  lemma {:induction false} SensitiveRuleIsKeyOrder(ad1: AuxDetSensitiveGeo, ad2: AuxDetSensitiveGeo)
    requires SensitiveModule(ad1).Ok? && SensitiveModule(ad2).Ok?
    requires SensitiveModule(ad1) == SensitiveModule(ad2) ==> SensitiveStrip(ad1).Ok? && SensitiveStrip(ad2).Ok?
    ensures AuxDetSensitiveStandardSortingRule(ad1, ad2) == Ok(SensitiveKey(ad1) < SensitiveKey(ad2))
  {
    ModuleThenStripIsLexicographic(ad1.name, SensitiveType(ad1.name), ad2.name, SensitiveType(ad2.name));
  }

  /** Whether `std::sort` with the module rule throws: any correct
   *  comparison sort of two or more elements compares every element, and
   *  every comparison reads both module numbers. */
  predicate ModuleSortThrows(s: seq<AuxDetGeo>)
  {
    |s| >= 2 && exists i :: 0 <= i < |s| && ModuleNumber(s[i].name, s[i].nSensitiveVolumes).Err?
  }

  /** Whether `std::sort` with the strip rule throws: a module number that
   *  cannot be read, or a strip number that cannot be read on a strip
   *  sharing its module with another, which any correct comparison sort
   *  must compare it with. */
  predicate SensitiveSortThrows(s: seq<AuxDetSensitiveGeo>)
  {
    |s| >= 2
    && ((exists i :: 0 <= i < |s| && SensitiveModule(s[i]).Err?)
        || (exists i, j :: 0 <= i < |s| && 0 <= j < |s| && i != j
                           && SensitiveModule(s[i]) == SensitiveModule(s[j]) && SensitiveStrip(s[i]).Err?))
  }

  /** Insertion sort by an integer key, in place. */
  method SortByKey<T>(a: array<T>, key: T -> int)
    modifies a
    ensures forall i, j :: 0 <= i < j < a.Length ==> key(a[i]) <= key(a[j])
    ensures multiset(a[..]) == old(multiset(a[..]))
  {
    for n := 0 to a.Length
      invariant forall i, j :: 0 <= i < j < n ==> key(a[i]) <= key(a[j])
      invariant multiset(a[..]) == old(multiset(a[..]))
    {
      InsertIntoSorted(a, n, key);
    }
  }

  /** Moves `a[n]` down into the sorted `a[..n]`. */
  method InsertIntoSorted<T>(a: array<T>, n: nat, key: T -> int)
    requires n < a.Length
    requires forall i, j :: 0 <= i < j < n ==> key(a[i]) <= key(a[j])
    modifies a
    ensures forall i, j :: 0 <= i < j <= n ==> key(a[i]) <= key(a[j])
    ensures multiset(a[..]) == old(multiset(a[..]))
  {
    InsertStart(a[..], n, key);
    var j: nat := n;
    while j > 0 && key(a[j - 1]) > key(a[j])
      invariant j <= n && Inserting(a[..], j, n, key)
      invariant multiset(a[..]) == old(multiset(a[..]))
    {
      SwapDown(a, j, n, key);
      j := j - 1;
    }
    InsertDone(a[..], j, n, key);
  }

  /** One step of the insertion: swaps `a[j]` with the greater `a[j - 1]`. */
  method SwapDown<T>(a: array<T>, j: nat, ghost n: nat, key: T -> int)
    requires 0 < j < a.Length && Inserting(a[..], j, n, key) && key(a[j - 1]) > key(a[j])
    modifies a
    ensures Inserting(a[..], j - 1, n, key)
    ensures multiset(a[..]) == old(multiset(a[..]))
  {
    ghost var s := a[..];
    a[j - 1], a[j] := a[j], a[j - 1];
    assert a[..] == s[j - 1 := s[j]][j := s[j - 1]];
    InsertStep(s, j, n, key);
    SwapKeepsElements(s, j - 1, j);
  }

  lemma {:induction false} InsertStart<T>(s: seq<T>, n: nat, key: T -> int)
    requires n < |s| && forall i, j :: 0 <= i < j < n ==> key(s[i]) <= key(s[j])
    ensures Inserting(s, n, n, key)
  {
  }

  /** The state of an insertion: `s[..n + 1]` is sorted but for the
   *  element at `j`, which is no greater than anything after it. */
  ghost predicate Inserting<T>(s: seq<T>, j: nat, n: nat, key: T -> int)
  {
    j <= n < |s|
    && (forall i, k :: 0 <= i < k <= n && i != j && k != j ==> key(s[i]) <= key(s[k]))
    && (forall k :: j < k <= n ==> key(s[j]) <= key(s[k]))
    && (0 < j < n ==> key(s[j - 1]) <= key(s[j + 1]))
  }

  lemma {:induction false} InsertStep<T>(s: seq<T>, j: nat, n: nat, key: T -> int)
    requires Inserting(s, j, n, key) && 0 < j && key(s[j - 1]) > key(s[j])
    ensures Inserting(s[j - 1 := s[j]][j := s[j - 1]], j - 1, n, key)
  {
  }

  lemma {:induction false} InsertDone<T>(s: seq<T>, j: nat, n: nat, key: T -> int)
    requires Inserting(s, j, n, key) && (j == 0 || key(s[j - 1]) <= key(s[j]))
    ensures forall i, k :: 0 <= i < k <= n ==> key(s[i]) <= key(s[k])
  {
  }

  lemma {:induction false} SwapKeepsElements<T>(s: seq<T>, i: nat, j: nat)
    requires i < |s| && j < |s|
    ensures multiset(s[i := s[j]][j := s[i]]) == multiset(s)
  {
  }

  predicate ModulesReadable(s: seq<AuxDetGeo>)
  {
    forall i :: 0 <= i < |s| ==> ModuleNumber(s[i].name, s[i].nSensitiveVolumes).Ok?
  }

  /** Modules sorted by key, all with readable names, are sorted by the
   *  module rule. */
  lemma {:induction false} ModuleKeyOrderIsRuleOrder(s: seq<AuxDetGeo>, before: seq<AuxDetGeo>)
    requires multiset(s) == multiset(before) && ModulesReadable(before)
    requires forall i, j :: 0 <= i < j < |s| ==> ModuleKey(s[i]) <= ModuleKey(s[j])
    ensures forall i, j :: 0 <= i < j < |s| ==> AuxDetStandardSortingRule(s[j], s[i]) == Ok(false)
  {
    forall i, j | 0 <= i < j < |s|
      ensures AuxDetStandardSortingRule(s[j], s[i]) == Ok(false)
    {
      assert s[i] in multiset(before) && s[j] in multiset(before);
      ModuleRuleIsKeyOrder(s[j], s[i]);
    }
  }

  /** `SortAuxDetsStandard`: sorts the modules in place by module number.
   *  When the rule throws, the exception is reported.  The names are all
   *  read before anything moves, so the modules are then left as they
   *  were; `std::sort` throws from inside the sort and gives no such
   *  guarantee. */
  method SortAuxDetsStandard(adgeo: array<AuxDetGeo>) returns (error: Option<string>)
    modifies adgeo
    ensures error.Some? <==> ModuleSortThrows(old(adgeo[..]))
    ensures error.Some? ==> adgeo[..] == old(adgeo[..])
    ensures error.None? ==> multiset(adgeo[..]) == old(multiset(adgeo[..]))
    ensures error.None? ==>
              forall i, j :: 0 <= i < j < adgeo.Length ==> AuxDetStandardSortingRule(adgeo[j], adgeo[i]) == Ok(false)
  {
    if adgeo.Length < 2 {
      return None;
    }
    for k := 0 to adgeo.Length
      invariant ModulesReadable(adgeo[..k])
    {
      var n := ModuleNumber(adgeo[k].name, adgeo[k].nSensitiveVolumes);
      if n.Err? {
        assert adgeo[..][k] == adgeo[k];
        return Some(n.error);
      }
      assert adgeo[..k + 1] == adgeo[..k] + [adgeo[k]];
    }
    assert adgeo[..adgeo.Length] == adgeo[..];
    ghost var before := adgeo[..];
    SortByKey(adgeo, ModuleKey);
    ModuleKeyOrderIsRuleOrder(adgeo[..], before);
    error := None;
  }

  /** Two positions holding the same value make it occur twice. */
  lemma {:induction false} TwoPositions<T>(s: seq<T>, i: nat, j: nat)
    requires i < |s| && j < |s| && i != j && s[i] == s[j]
    ensures multiset(s)[s[i]] >= 2
  {
    var lo, hi := if i < j then i else j, if i < j then j else i;
    assert s == s[..hi] + [s[hi]] + s[hi + 1..];
    assert s[..hi][lo] == s[lo];
  }

  /** A value occurring twice sits at a second position. */
  lemma {:induction false} OtherPosition<T>(s: seq<T>, i: nat)
    requires i < |s| && multiset(s)[s[i]] >= 2
    ensures exists j :: 0 <= j < |s| && j != i && s[j] == s[i]
  {
    assert s == s[..i] + [s[i]] + s[i + 1..];
    if s[i] in s[..i] {
      var j :| 0 <= j < i && s[..i][j] == s[i];
      assert s[j] == s[i];
    } else {
      assert s[i] in s[i + 1..];
      var j :| 0 <= j < |s| - i - 1 && s[i + 1..][j] == s[i];
      assert s[i + 1 + j] == s[i];
    }
  }

  /** In any rearrangement of strips the strip rule does not throw on, two
   *  strips of the same module both have readable strip numbers. */
  lemma {:induction false} StripReadable(s: seq<AuxDetSensitiveGeo>, before: seq<AuxDetSensitiveGeo>, i: nat, j: nat)
    requires multiset(s) == multiset(before) && |before| >= 2 && !SensitiveSortThrows(before)
    requires i < |s| && j < |s| && i != j && SensitiveModule(s[i]) == SensitiveModule(s[j])
    ensures SensitiveStrip(s[i]).Ok?
  {
    assert s[i] in multiset(before) && s[j] in multiset(before) by {
      assert s[i] in s && s[j] in s;
    }
    var p :| 0 <= p < |before| && before[p] == s[i];
    var q :| 0 <= q < |before| && before[q] == s[j];
    if p == q {
      TwoPositions(s, i, j);
      OtherPosition(before, p);
      var q' :| 0 <= q' < |before| && q' != p && before[q'] == before[p];
      assert SensitiveModule(before[p]) == SensitiveModule(before[q']);
    } else {
      assert SensitiveModule(before[p]) == SensitiveModule(before[q]);
    }
  }

  /** Strips sorted by key, out of an arrangement the strip rule does not
   *  throw on, are sorted by the strip rule. */
  lemma {:induction false} SensitiveKeyOrderIsRuleOrder(s: seq<AuxDetSensitiveGeo>, before: seq<AuxDetSensitiveGeo>)
    requires multiset(s) == multiset(before) && |before| >= 2 && !SensitiveSortThrows(before)
    requires forall i, j :: 0 <= i < j < |s| ==> SensitiveKey(s[i]) <= SensitiveKey(s[j])
    ensures forall i, j :: 0 <= i < j < |s| ==> AuxDetSensitiveStandardSortingRule(s[j], s[i]) == Ok(false)
  {
    forall i, j | 0 <= i < j < |s|
      ensures AuxDetSensitiveStandardSortingRule(s[j], s[i]) == Ok(false)
    {
      assert s[i] in multiset(before) && s[j] in multiset(before) by {
        assert s[i] in s && s[j] in s;
      }
      var p :| 0 <= p < |before| && before[p] == s[i];
      var q :| 0 <= q < |before| && before[q] == s[j];
      assert SensitiveModule(before[p]).Ok? && SensitiveModule(before[q]).Ok?;
      if SensitiveModule(s[i]) == SensitiveModule(s[j]) {
        StripReadable(s, before, i, j);
        StripReadable(s, before, j, i);
      }
      SensitiveRuleIsKeyOrder(s[j], s[i]);
    }
  }

  /** The first strip whose module number cannot be read, if any. */
  method CheckModules(s: seq<AuxDetSensitiveGeo>) returns (error: Option<string>)
    ensures error.Some? <==> exists i :: 0 <= i < |s| && SensitiveModule(s[i]).Err?
  {
    for k := 0 to |s|
      invariant forall i :: 0 <= i < k ==> SensitiveModule(s[i]).Ok?
    {
      var m := SensitiveModule(s[k]);
      if m.Err? {
        return Some(m.error);
      }
      ModuleReadableStep(s, k);
    }
    return None;
  }

  lemma {:induction false} ModuleReadableStep(s: seq<AuxDetSensitiveGeo>, k: nat)
    requires k < |s| && SensitiveModule(s[k]).Ok?
    requires forall i :: 0 <= i < k ==> SensitiveModule(s[i]).Ok?
    ensures forall i :: 0 <= i < k + 1 ==> SensitiveModule(s[i]).Ok?
  {
  }

  /** The first strip whose strip number cannot be read while another strip
   *  shares its module, if any. */
  method CheckStrips(s: seq<AuxDetSensitiveGeo>) returns (error: Option<string>)
    ensures error.Some? <==> exists i, j :: 0 <= i < |s| && 0 <= j < |s| && i != j
                                           && SensitiveModule(s[i]) == SensitiveModule(s[j]) && SensitiveStrip(s[i]).Err?
  {
    for k := 0 to |s|
      invariant forall i, j ::
                  (0 <= i < k && 0 <= j < |s| && i != j && SensitiveModule(s[i]) == SensitiveModule(s[j]))
                  ==> SensitiveStrip(s[i]).Ok?
    {
      var strip := SensitiveStrip(s[k]);
      if strip.Err? {
        for l := 0 to |s|
          invariant forall j :: 0 <= j < l && j != k ==> SensitiveModule(s[j]) != SensitiveModule(s[k])
        {
          if l != k && SensitiveModule(s[l]) == SensitiveModule(s[k]) {
            return Some(strip.error);
          }
        }
      }
    }
    return None;
  }

  /** The first error the strip rule would throw on `s`, if any. */
  method CheckSensitive(s: seq<AuxDetSensitiveGeo>) returns (error: Option<string>)
    requires |s| >= 2
    ensures error.Some? <==> SensitiveSortThrows(s)
  {
    error := CheckModules(s);
    if error.None? {
      error := CheckStrips(s);
    }
  }

  /** `SortAuxDetSensitiveStandard`: sorts the strips in place by module
   *  number, then strip number.  When the rule throws, the exception is
   *  reported.  The names are all read before anything moves, so the
   *  strips are then left as they were; `std::sort` throws from inside the
   *  sort and gives no such guarantee. */
  method SortAuxDetSensitiveStandard(adsgeo: array<AuxDetSensitiveGeo>) returns (error: Option<string>)
    modifies adsgeo
    ensures error.Some? <==> SensitiveSortThrows(old(adsgeo[..]))
    ensures error.Some? ==> adsgeo[..] == old(adsgeo[..])
    ensures error.None? ==> multiset(adsgeo[..]) == old(multiset(adsgeo[..]))
    ensures error.None? ==>
              forall i, j :: 0 <= i < j < adsgeo.Length
                ==> AuxDetSensitiveStandardSortingRule(adsgeo[j], adsgeo[i]) == Ok(false)
  {
    if adsgeo.Length < 2 {
      return None;
    }
    error := CheckSensitive(adsgeo[..]);
    if error.Some? {
      return;
    }
    ghost var before := adsgeo[..];
    SortByKey(adsgeo, SensitiveKey);
    SensitiveKeyOrderIsRuleOrder(adsgeo[..], before);
  }

  /** On names without underscores, the standard module rule and the
   *  ICARUS sorter's comparison agree. */
  lemma {:induction false} StandardRuleMatchesICARUS(ad1: AuxDetGeo, ad2: AuxDetGeo)
    requires forall i :: 0 <= i < |ad1.name| ==> ad1.name[i] != '_'
    requires forall i :: 0 <= i < |ad2.name| ==> ad2.name[i] != '_'
    ensures AuxDetStandardSortingRule(ad1, ad2) == AuxDetGeoObjectSorterICARUS.CompareAuxDets(ad1, ad2)
  {
    AuxDetGeoObjectSorterICARUS.NoUnderscoreKept(ad1.name);
    AuxDetGeoObjectSorterICARUS.NoUnderscoreKept(ad2.name);
  }

  /** On names without underscores, the standard strip rule and the ICARUS
   *  sorter's comparison agree. */
  lemma {:induction false} SensitiveRuleMatchesICARUS(ad1: AuxDetSensitiveGeo, ad2: AuxDetSensitiveGeo)
    requires forall i :: 0 <= i < |ad1.name| ==> ad1.name[i] != '_'
    requires forall i :: 0 <= i < |ad2.name| ==> ad2.name[i] != '_'
    ensures AuxDetSensitiveStandardSortingRule(ad1, ad2) == AuxDetGeoObjectSorterICARUS.CompareAuxDetSensitives(ad1, ad2)
  {
    AuxDetGeoObjectSorterICARUS.NoUnderscoreKept(ad1.name);
    AuxDetGeoObjectSorterICARUS.NoUnderscoreKept(ad2.name);
  }
}
