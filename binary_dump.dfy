/** The text formatters of `BinaryDumpUtils.h`: fixed-width hexadecimal
 *  (`printHex`, `HexObj`), bit strings (`BinObj`), runs of a character
 *  (`Blanks`), the hexadecimal table (`HexDumper`) and field padding
 *  (`ZeroPadder`), together with the guard that restores a stream's format
 *  settings (`FormatFlagsGuard`).
 *
 *  An integral value is an `int`; its digits are those of its
 *  two's-complement pattern, which Euclidean `/` and `%` produce for
 *  negative values exactly as an arithmetic right shift followed by a mask
 *  does.  A stream is the text written to it so far plus its fill character
 *  and format flags. */
module BinaryDump {
  import opened IntMath

  /** `Digits` and `DIGITS`: the lower- and upper-case digit tables. */
  const LowerDigits: string := "0123456789abcdef"
  const UpperDigits: string := "0123456789ABCDEF"

  /** `table` holds `base` distinct digit characters. */
  predicate DigitTable(table: string, base: nat)
  {
    |table| == base && forall i, j :: 0 <= i < j < base ==> table[i] != table[j]
  }

  /** Digit `k` (counting from the least significant) of `v` in `base`. */
  function Digit(v: int, base: nat, k: nat): (d: nat)
    requires base > 0
    ensures d < base
  {
    (v / Pow(base, k)) % base
  }

  /** Digits `hi - 1` down to `lo` of `v`, most significant first. */
  function Render(v: int, base: nat, hi: nat, lo: nat, table: string): (s: string)
    requires 0 < base <= |table| && lo <= hi
    ensures |s| == hi - lo
    decreases hi - lo
  {
    if hi == lo then [] else [table[Digit(v, base, hi - 1)]] + Render(v, base, hi - 1, lo, table)
  }

  lemma {:induction false} RenderExtend(v: int, base: nat, hi: nat, lo: nat, table: string)
    requires 0 < base <= |table| && 0 < lo <= hi
    ensures Render(v, base, hi, lo, table) + [table[Digit(v, base, lo - 1)]] == Render(v, base, hi, lo - 1, table)
    decreases hi - lo
  {
    if hi > lo {
      RenderExtend(v, base, hi - 1, lo, table);
    }
  }

  /** The position of `c` in `table` (`|table|` when absent). */
  function IndexIn(table: string, c: char): (i: nat)
    ensures i <= |table|
  {
    if |table| == 0 then 0 else if table[0] == c then 0 else 1 + IndexIn(table[1..], c)
  }

  lemma {:induction false} IndexOfDigit(table: string, base: nat, d: nat)
    requires DigitTable(table, base) && d < base
    ensures IndexIn(table, table[d]) == d
  {
    if d > 0 {
      assert table[0] != table[d];
      assert table[1..][d - 1] == table[d];
      IndexOfDigit(table[1..], base - 1, d - 1);
    }
  }

  /** Reads a digit string back into a number. */
  function Parse(s: string, table: string, base: nat): (v: nat)
  {
    if |s| == 0 then 0 else IndexIn(table, s[0]) * Pow(base, |s| - 1) + Parse(s[1..], table, base)
  }

  /** Reading the `n` rendered digits back gives the value modulo
   *  `base^n`: no digit is lost or misplaced. */
  lemma {:induction false} ParseRender(v: int, base: nat, n: nat, table: string)
    requires base > 0 && DigitTable(table, base)
    ensures Parse(Render(v, base, n, 0, table), table, base) == v % Pow(base, n)
  {
    if n > 0 {
      var s := Render(v, base, n, 0, table);
      assert s[1..] == Render(v, base, n - 1, 0, table);
      ParseRender(v, base, n - 1, table);
      IndexOfDigit(table, base, Digit(v, base, n - 1));
      ModSplit(v, base, Pow(base, n - 1));
    }
  }

  /** `printHex`: all `2 * size` nibbles of a `size`-byte value, most
   *  significant first, each looked up in `digits`. */
  method PrintHex(value: int, size: nat, digits: string) returns (out: string)
    requires |digits| >= 16
    ensures out == Render(value, 16, 2 * size, 0, digits)
    ensures |out| == 2 * size
    ensures DigitTable(digits, 16) ==> Parse(out, digits, 16) == value % Pow(16, 2 * size)
  {
    var nibblesLeft: nat := 2 * size;
    out := [];
    while nibblesLeft != 0
      invariant nibblesLeft <= 2 * size
      invariant out == Render(value, 16, 2 * size, nibblesLeft, digits)
    {
      nibblesLeft := nibblesLeft - 1;
      var digit := (value / Pow(16, nibblesLeft)) % 16;
      RenderExtend(value, 16, 2 * size, nibblesLeft + 1, digits);
      out := out + [digits[digit]];
    }
    if DigitTable(digits, 16) {
      ParseRender(value, 16, 2 * size, digits);
    }
  }

  /** The separator after the bit that leaves `i` bits to go. */
  function Separator(i: nat): string
  {
    if i > 0 && i % 4 == 0 then " " else ""
  }

  /** Bits `hi - 1` down to `lo`, each followed by a space when the bits
   *  still to go are a positive multiple of 4. */
  function BinRange(v: int, hi: nat, lo: nat, digits: string): (s: string)
    requires 2 <= |digits| && lo <= hi
    decreases hi - lo
  {
    if hi == lo then []
    else [digits[Digit(v, 2, hi - 1)]] + Separator(hi - 1) + BinRange(v, hi - 1, lo, digits)
  }

  lemma {:induction false} BinRangeExtend(v: int, hi: nat, lo: nat, digits: string)
    requires 2 <= |digits| && 0 < lo <= hi
    ensures BinRange(v, hi, lo, digits) + [digits[Digit(v, 2, lo - 1)]] + Separator(lo - 1)
            == BinRange(v, hi, lo - 1, digits)
    decreases hi - lo
  {
    if hi > lo {
      var head := [digits[Digit(v, 2, hi - 1)]] + Separator(hi - 1);
      var d, sep := [digits[Digit(v, 2, lo - 1)]], Separator(lo - 1);
      var mid := BinRange(v, hi - 1, lo, digits);
      BinRangeExtend(v, hi - 1, lo, digits);
      ConcatAssociates(head, mid, d);
      ConcatAssociates(head, mid + d, sep);
    }
  }

  lemma {:induction false} ConcatAssociates<T>(a: seq<T>, b: seq<T>, c: seq<T>)
    ensures (a + b) + c == a + (b + c)
  {
  }

  /** `n` bits take `n` characters plus one space per complete group of four
   *  below the first bit. */
  lemma {:induction false} BinRangeLength(v: int, n: nat, digits: string)
    requires 2 <= |digits| && n > 0
    ensures |BinRange(v, n, 0, digits)| == n + (n - 1) / 4
  {
    if n > 1 {
      BinRangeLength(v, n - 1, digits);
    }
  }

  /** The text without its spaces. */
  function WithoutSpaces(s: string): (r: string)
  {
    if |s| == 0 then [] else (if s[0] == ' ' then [] else [s[0]]) + WithoutSpaces(s[1..])
  }

  lemma {:induction false} WithoutSpacesConcat(a: string, b: string)
    ensures WithoutSpaces(a + b) == WithoutSpaces(a) + WithoutSpaces(b)
  {
    if |a| > 0 {
      assert (a + b)[1..] == a[1..] + b;
      WithoutSpacesConcat(a[1..], b);
    } else {
      assert a + b == b;
    }
  }

  /** Dropping the group spaces of a bit string leaves the plain base-2
   *  digits, so the bits read back to the value modulo `2^n`. */
  lemma {:induction false} BinRangeDigits(v: int, n: nat, digits: string)
    requires 2 <= |digits| && digits[0] != ' ' && digits[1] != ' '
    ensures WithoutSpaces(BinRange(v, n, 0, digits)) == Render(v, 2, n, 0, digits)
  {
    if n > 0 {
      var d := [digits[Digit(v, 2, n - 1)]];
      WithoutSpacesConcat(d + Separator(n - 1), BinRange(v, n - 1, 0, digits));
      WithoutSpacesConcat(d, Separator(n - 1));
      assert WithoutSpaces(Separator(n - 1)) == [] by {
        if n - 1 > 0 && (n - 1) % 4 == 0 {
          assert WithoutSpaces(" ") == [] + WithoutSpaces(""); 
        }
      }
      assert WithoutSpaces(d) == d by {
        assert WithoutSpaces(d) == d + WithoutSpaces([]);
      }
      BinRangeDigits(v, n - 1, digits);
    }
  }

  /** Decimal text of a count, as the stream writes it. */
  function DecimalText(n: nat): (s: string)
    ensures |s| > 0
  {
    if n < 10 then [LowerDigits[n]] else DecimalText(n / 10) + [LowerDigits[n % 10]]
  }

  /** `(Bits) ` followed by the bit string. */
  function BinText(v: int, bits: nat, digits: string): string
    requires 2 <= |digits|
  {
    "(" + DecimalText(bits) + ") " + BinRange(v, bits, 0, digits)
  }

  /** `operator<<` for `BinObj`, with a mask that selects exactly one bit:
   *  the lowest `bits` bits of `value`, most significant first. */
  method BinDump(value: int, bits: nat, digits: string) returns (out: string)
    requires bits > 0 && 2 <= |digits|
    ensures out == BinText(value, bits, digits)
  {
    var header := "(" + DecimalText(bits) + ") ";
    out := header;
    var bitsLeft := bits;
    var maskBit := bits - 1;
    while true
      invariant 0 < bitsLeft <= bits && maskBit == bitsLeft - 1
      invariant out == header + BinRange(value, bits, bitsLeft, digits)
      decreases bitsLeft
    {
      var bit := BitDigit(value, maskBit, digits);
      ghost var before := out;
      out := out + [bit];
      bitsLeft := bitsLeft - 1;
      if bitsLeft == 0 {
        BinStep(value, bits, 1, digits, header, before);
        assert out == out + Separator(0);
        break;
      }
      maskBit := maskBit - 1;
      if bitsLeft % 4 == 0 {
        out := out + " ";
      }
      BinStep(value, bits, bitsLeft + 1, digits, header, before);
    }
  }

  /** The digit for bit `maskBit`: whether `value & mask` is set, with the
   *  mask on that bit alone. */
  method BitDigit(value: int, maskBit: nat, digits: string) returns (c: char)
    requires 2 <= |digits|
    ensures c == digits[Digit(value, 2, maskBit)]
  {
    var isSet := (value / Pow(2, maskBit)) % 2 != 0;
    c := digits[if isSet then 1 else 0];
  }

  /** One pass of the loop: the digit of bit `lo - 1` and its separator
   *  extend the dump down to that bit. */
  lemma {:induction false} BinStep(v: int, bits: nat, lo: nat, digits: string, header: string, before: string)
    requires 2 <= |digits| && 0 < lo <= bits
    requires before == header + BinRange(v, bits, lo, digits)
    ensures before + [digits[Digit(v, 2, lo - 1)]] + Separator(lo - 1) == header + BinRange(v, bits, lo - 1, digits)
  {
    BinRangeExtend(v, bits, lo, digits);
  }

  /** The bit dump is `(Bits) ` and `bits` digits, one space per complete
   *  group of four below the first bit, and its digits read back to the
   *  value modulo `2^bits`. */
  lemma {:induction false} BinTextLayout(v: int, bits: nat, digits: string)
    requires bits > 0 && DigitTable(digits, 2) && digits[0] != ' ' && digits[1] != ' '
    ensures var text := BinText(v, bits, digits);
            var header := 3 + |DecimalText(bits)|;
            |text| == header + bits + (bits - 1) / 4
            && Parse(WithoutSpaces(text[header..]), digits, 2) == v % Pow(2, bits)
  {
    var header := "(" + DecimalText(bits) + ") ";
    BinRangeLength(v, bits, digits);
    assert BinText(v, bits, digits)[|header|..] == BinRange(v, bits, 0, digits);
    BinRangeDigits(v, bits, digits);
    ParseRender(v, 2, bits, digits);
  }

  /** Whether any of bits `lo` to `hi` of `v` is set. */
  predicate AnySet(v: int, lo: nat, hi: nat)
    requires lo <= hi
  {
    (v / Pow(2, lo)) % Pow(2, hi - lo + 1) != 0
  }

  /** The digits `operator<<` for `BinObj` writes as coded: the mask at the
   *  bit leaving `i` to go covers bits `i` to `top` when the mask started on
   *  the sign bit of a signed type (so that `>>=` copies the sign bit down),
   *  and bit `i` alone otherwise (`top < 0`). */
  function MaskedRange(v: int, hi: nat, lo: nat, top: int, digits: string): string
    requires 2 <= |digits| && lo <= hi
    decreases hi - lo
  {
    if hi == lo then []
    else
      var i := hi - 1;
      [MaskDigit(v, i, top, digits)] + Separator(i)
      + MaskedRange(v, hi - 1, lo, top, digits)
  }

  /** The digit the coded loop writes for bit `i`: whether any bit from `i`
   *  up to the top of the mask is set. */
  function MaskDigit(v: int, i: nat, top: int, digits: string): char
    requires 2 <= |digits|
  {
    digits[if AnySet(v, i, if top > i then top else i) then 1 else 0]
  }

  lemma {:induction false} MaskedRangeExtend(v: int, hi: nat, lo: nat, top: int, digits: string)
    requires 2 <= |digits| && 0 < lo <= hi
    ensures MaskedRange(v, hi, lo, top, digits)
              + [MaskDigit(v, lo - 1, top, digits)]
              + Separator(lo - 1)
            == MaskedRange(v, hi, lo - 1, top, digits)
    decreases hi - lo
  {
    if hi > lo {
      var head := [MaskDigit(v, hi - 1, top, digits)] + Separator(hi - 1);
      var d, sep := [MaskDigit(v, lo - 1, top, digits)], Separator(lo - 1);
      var mid := MaskedRange(v, hi - 1, lo, top, digits);
      MaskedRangeExtend(v, hi - 1, lo, top, digits);
      ConcatAssociates(head, mid, d);
      ConcatAssociates(head, mid + d, sep);
    }
  }

  /** A one-bit mask tests exactly that bit: without the sign-bit case the
   *  coded output is the bit string. */
  lemma {:induction false} SingleBitMasks(v: int, n: nat, digits: string)
    requires 2 <= |digits|
    ensures MaskedRange(v, n, 0, -1, digits) == BinRange(v, n, 0, digits)
  {
    if n > 0 {
      assert Pow(2, 0) == 1;
      assert AnySet(v, n - 1, n - 1) <==> Digit(v, 2, n - 1) == 1;
      SingleBitMasks(v, n - 1, digits);
    }
  }

  /** `operator<<` for `BinObj<T, Bits>` as coded, for a `width`-bit type
   *  `T`: `T{1} << (bits - 1)` is the sign bit, a negative value, exactly
   *  when `T` is signed and `bits == width`; shifting a negative mask right
   *  keeps its sign bit set. */
  method BinDumpAsWritten(value: int, bits: nat, width: nat, isSigned: bool, digits: string)
    returns (out: string)
    requires 0 < bits <= width && 2 <= |digits|
    ensures var top := if isSigned && bits == width then width - 1 else -1;
            out == "(" + DecimalText(bits) + ") " + MaskedRange(value, bits, 0, top, digits)
  {
    var header := "(" + DecimalText(bits) + ") ";
    ghost var top := if isSigned && bits == width then width - 1 else -1;
    var negative := isSigned && bits == width;
    // the mask covers bits maskLow to maskHigh
    var maskLow, maskHigh := bits - 1, bits - 1;
    out := header;
    var bitsLeft := bits;
    while true
      invariant 0 < bitsLeft <= bits && maskLow == bitsLeft - 1
      invariant maskHigh == if negative then width - 1 else maskLow
      invariant out == header + MaskedRange(value, bits, bitsLeft, top, digits)
      decreases bitsLeft
    {
      var digit := MaskedDigit(value, maskLow, maskHigh, top, digits);
      ghost var before := out;
      out := out + [digit];
      bitsLeft := bitsLeft - 1;
      if bitsLeft == 0 {
        MaskedStep(value, bits, 1, top, digits, header, before);
        assert out == out + Separator(0);
        break;
      }
      maskLow := maskLow - 1;
      if !negative {
        maskHigh := maskHigh - 1;
      }
      if bitsLeft % 4 == 0 {
        out := out + " ";
      }
      MaskedStep(value, bits, bitsLeft + 1, top, digits, header, before);
    }
  }

  /** The digit the coded loop writes for the mask over bits `maskLow` to
   *  `maskHigh`: whether `value & mask` is not zero. */
  method MaskedDigit(value: int, maskLow: nat, maskHigh: nat, ghost top: int, digits: string) returns (c: char)
    requires 2 <= |digits| && maskLow <= maskHigh
    requires maskHigh == if top > maskLow then top else maskLow
    ensures c == MaskDigit(value, maskLow, top, digits)
  {
    var isSet := AnySet(value, maskLow, maskHigh);
    c := digits[if isSet then 1 else 0];
  }

  /** One pass of the coded loop: the digit of bit `lo - 1` and its
   *  separator extend the dump down to that bit. */
  lemma {:induction false} MaskedStep(v: int, bits: nat, lo: nat, top: int, digits: string, header: string, before: string)
    requires 2 <= |digits| && 0 < lo <= bits
    requires before == header + MaskedRange(v, bits, lo, top, digits)
    ensures before + [MaskDigit(v, lo - 1, top, digits)] + Separator(lo - 1)
            == header + MaskedRange(v, bits, lo - 1, top, digits)
  {
    MaskedRangeExtend(v, bits, lo, top, digits);
  }

  /** The documented bits of `0xAA` (`-86` as a signed byte), which the
   *  one-bit masks give. */
  lemma {:induction false} SignedByteBits()
    ensures BinRange(-86, 8, 0, UpperDigits) == "1010 1010"
  {
    SignedByteDigits();
    assert BinRange(-86, 1, 0, UpperDigits) == "0";
    assert BinRange(-86, 2, 0, UpperDigits) == "10";
    assert BinRange(-86, 3, 0, UpperDigits) == "010";
    assert BinRange(-86, 4, 0, UpperDigits) == "1010";
    assert BinRange(-86, 5, 0, UpperDigits) == "0 1010";
    assert BinRange(-86, 6, 0, UpperDigits) == "10 1010";
    assert BinRange(-86, 7, 0, UpperDigits) == "010 1010";
  }

  /** `bin<signed char>(0xAA)`: every mask the coded loop builds on a
   *  signed byte reaches the sign bit of `-86`, so every digit it writes is
   *  `1`, where the documented dump is the bit string "1010 1010". */
  lemma {:induction false} SignedByteMasks()
    ensures MaskedRange(-86, 8, 0, 7, UpperDigits) == "1111 1111"
  {
    SignedByteDigits();
    forall i | 0 <= i < 8
      ensures MaskDigit(-86, i, 7, UpperDigits) == '1'
    {
    }
    assert MaskedRange(-86, 1, 0, 7, UpperDigits) == "1";
    assert MaskedRange(-86, 2, 0, 7, UpperDigits) == "11";
    assert MaskedRange(-86, 3, 0, 7, UpperDigits) == "111";
    assert MaskedRange(-86, 4, 0, 7, UpperDigits) == "1111";
    assert MaskedRange(-86, 5, 0, 7, UpperDigits) == "1 1111";
    assert MaskedRange(-86, 6, 0, 7, UpperDigits) == "11 1111";
    assert MaskedRange(-86, 7, 0, 7, UpperDigits) == "111 1111";
  }

  /** The bits of `-86` and the masks that reach its sign bit. */
  lemma {:induction false} SignedByteDigits()
    ensures Digit(-86, 2, 7) == 1 && Digit(-86, 2, 6) == 0 && Digit(-86, 2, 5) == 1 && Digit(-86, 2, 4) == 0
    ensures Digit(-86, 2, 3) == 1 && Digit(-86, 2, 2) == 0 && Digit(-86, 2, 1) == 1 && Digit(-86, 2, 0) == 0
    ensures forall i :: 0 <= i < 8 ==> AnySet(-86, i, 7)
  {
    var p := [1, 2, 4, 8, 16, 32, 64, 128, 256];
    forall k | 0 <= k <= 8
      ensures Pow(2, k) == p[k]
    {
      PowTwoTable(k);
    }
  }

  lemma {:induction false} PowTwoTable(k: nat)
    requires k <= 8
    ensures Pow(2, k) == [1, 2, 4, 8, 16, 32, 64, 128, 256][k]
  {
    if k > 0 {
      PowTwoTable(k - 1);
    }
  }

  /** `Blanks<N, C>`: `n` copies of `c`. */
  method Blanks(n: nat, c: char) returns (out: string)
    ensures |out| == n && forall i :: 0 <= i < n ==> out[i] == c
  {
    out := [];
    for i := 0 to n
      invariant |out| == i && forall k :: 0 <= k < i ==> out[k] == c
    {
      out := out + [c];
    }
  }

  function Repeat(n: nat, c: char): (s: string)
    ensures |s| == n && forall i :: 0 <= i < n ==> s[i] == c
  {
    seq(n, _ => c)
  }

  /** The hexadecimal text of every atom of the table's data. */
  function HexCells(atoms: seq<int>, atomSize: nat, digits: string): (cells: seq<string>)
    requires |digits| >= 16
    ensures |cells| == |atoms|
  {
    seq(|atoms|, i requires 0 <= i < |atoms| => Render(atoms[i], 16, 2 * atomSize, 0, digits))
  }

  /** Every cell is `w` characters wide. */
  predicate Uniform(cells: seq<string>, w: nat)
  {
    forall i :: 0 <= i < |cells| ==> |cells[i]| == w
  }

  /** `cells` holds the hexadecimal text of each atom of `atoms`. */
  predicate CellsOf(cells: seq<string>, atoms: seq<int>, atomSize: nat, digits: string)
    requires |digits| >= 16
  {
    |cells| == |atoms| && forall i :: 0 <= i < |atoms| ==> IsCell(cells, atoms, i, atomSize, digits)
  }

  predicate IsCell(cells: seq<string>, atoms: seq<int>, i: nat, atomSize: nat, digits: string)
    requires |digits| >= 16 && i < |cells| == |atoms|
  {
    cells[i] == Render(atoms[i], 16, 2 * atomSize, 0, digits)
  }

  lemma {:induction false} HexCellsOf(atoms: seq<int>, atomSize: nat, digits: string)
    requires |digits| >= 16
    ensures CellsOf(HexCells(atoms, atomSize, digits), atoms, atomSize, digits)
  {
  }

  lemma {:induction false} HexCellsUniform(atoms: seq<int>, atomSize: nat, digits: string)
    requires |digits| >= 16
    ensures Uniform(HexCells(atoms, atomSize, digits), 2 * atomSize)
  {
  }

  /** `printAtoms`: `count` slots from position `from`, each after a space;
   *  a slot holds the cell of that atom, or `blank` past the end of the
   *  data. */
  function Slots(cells: seq<string>, blank: string, from: nat, count: nat): (s: string)
    decreases count
  {
    if count == 0 then []
    else " " + (if from < |cells| then cells[from] else blank) + Slots(cells, blank, from + 1, count - 1)
  }

  lemma {:induction false} SlotsLength(cells: seq<string>, blank: string, from: nat, count: nat)
    requires Uniform(cells, |blank|)
    ensures |Slots(cells, blank, from, count)| == count * (1 + |blank|)
    decreases count
  {
    if count > 0 {
      SlotsLength(cells, blank, from + 1, count - 1);
      assert count * (1 + |blank|) == (count - 1) * (1 + |blank|) + (1 + |blank|);
    }
  }

  /** Writing `a` slots and then `b` more is writing `a + b` slots. */
  lemma {:induction false} SlotsSplit(cells: seq<string>, blank: string, from: nat, a: nat, b: nat)
    ensures Slots(cells, blank, from, a) + Slots(cells, blank, from + a, b) == Slots(cells, blank, from, a + b)
    decreases a
  {
    if a > 0 {
      SlotsSplit(cells, blank, from + 1, a - 1, b);
      assert from + 1 + (a - 1) == from + a;
    }
  }

  /** Appending the next slot's text extends the slots written so far. */
  lemma {:induction false} SlotStep(cells: seq<string>, blank: string, from: nat, done: nat, slot: string)
    requires slot == if from + done < |cells| then cells[from + done] else blank
    ensures Slots(cells, blank, from, done) + " " + slot == Slots(cells, blank, from, done + 1)
  {
    SlotsSplit(cells, blank, from, done, 1);
    assert Slots(cells, blank, from + done, 1) == " " + slot + Slots(cells, blank, from + done + 1, 0);
  }

  /** The text of one slot: atom `i` in hexadecimal, or blanks past the
   *  last atom. */
  method PrintSlot(atoms: seq<int>, ghost cells: seq<string>, ghost blank: string, i: nat, atomSize: nat, digits: string)
    returns (slot: string)
    requires |digits| >= 16 && CellsOf(cells, atoms, atomSize, digits) && blank == Repeat(2 * atomSize, ' ')
    ensures slot == if i < |cells| then cells[i] else blank
  {
    if i < |atoms| {
      slot := PrintHex(atoms[i], atomSize, digits);
      assert IsCell(cells, atoms, i, atomSize, digits);
    } else {
      slot := Blanks(2 * atomSize, ' ');
      assert slot == blank;
    }
  }

  /** `SlotStep` after text written before the slots. */
  lemma {:induction false} AppendSlot(start: string, cells: seq<string>, blank: string, from: nat, done: nat, slot: string)
    requires slot == if from + done < |cells| then cells[from + done] else blank
    ensures start + Slots(cells, blank, from, done) + " " + slot == start + Slots(cells, blank, from, done + 1)
  {
    SlotStep(cells, blank, from, done, slot);
    var written := Slots(cells, blank, from, done);
    assert start + written + " " + slot == start + (written + " " + slot);
  }

  /** One table line starting at atom `start`: address, separator, the first
   *  `columns - columns/2` slots, an extra space for six or more columns,
   *  the other `columns/2` slots, separator. */
  function Line(cells: seq<string>, blank: string, start: nat, columns: nat, address: string): string
  {
    var left := columns - columns / 2;
    "\n" + address + " |" + Slots(cells, blank, start, left) + (if columns >= 6 then " " else "")
      + Slots(cells, blank, start + left, columns / 2) + " |"
  }

  function Concat(lines: seq<string>): string
  {
    if |lines| == 0 then [] else lines[0] + Concat(lines[1..])
  }

  /** The number of lines of a table of `n` atoms, `columns` to a line:
   *  each line takes up to `columns` atoms. */
  function LineTotal(n: nat, columns: nat): nat
    requires columns > 0
    decreases n
  {
    if n == 0 then 0 else if n <= columns then 1 else 1 + LineTotal(n - columns, columns)
  }

  /** The line count is the atom count divided by `columns`, rounded up. */
  lemma {:induction false} LineTotalIsCeiling(n: nat, columns: nat)
    requires columns > 0
    ensures LineTotal(n, columns) == (n + columns - 1) / columns
    decreases n
  {
    if n == 0 {
      ModUnique(columns - 1, columns, 0, columns - 1);
    } else if n <= columns {
      ModUnique(n + columns - 1, columns, 1, n - 1);
    } else {
      LineTotalIsCeiling(n - columns, columns);
      var q, m := (n - 1) / columns, (n - 1) % columns;
      assert n - 1 == q * columns + m;
      assert n - columns - 1 == (q - 1) * columns + m;
      ModUnique(n - columns + columns - 1, columns, q, m);
      ModUnique(n + columns - 1, columns, q + 1, m);
    }
  }

  /** The lines cover the atoms: every atom falls on some line, and the last
   *  line starts before the end of the data. */
  lemma {:induction false} LineTotalCovers(n: nat, columns: nat)
    requires columns > 0
    ensures Multiple(LineTotal(n, columns), columns) >= n
    ensures LineTotal(n, columns) == 0 || Multiple(LineTotal(n, columns) - 1, columns) < n
    decreases n
  {
    if n > columns {
      LineTotalCovers(n - columns, columns);
      NextMultiple(LineTotal(n - columns, columns), columns);
    }
  }

  lemma {:induction false} NextMultiple(k: nat, columns: nat)
    ensures Multiple(k + 1, columns) == Multiple(k, columns) + columns
    ensures k > 0 ==> Multiple(k, columns) == Multiple(k - 1, columns) + columns
  {
  }

  /** A line count that covers the atoms with no line starting past the end
   *  of the data is the table's line count. */
  lemma {:induction false} LineTotalExact(n: nat, columns: nat, k: nat)
    requires columns > 0 && Multiple(k, columns) >= n
    requires k == 0 || Multiple(k - 1, columns) < n
    ensures k == LineTotal(n, columns)
    decreases k
  {
    if k > 1 {
      assert Multiple(k - 1, columns) == Multiple(k - 2, columns) + columns;
      LineTotalExact(n - columns, columns, k - 1);
    }
  }

  /** A line starting before the end of the data is one of the table's. */
  lemma {:induction false} LineTotalBelow(n: nat, columns: nat, k: nat)
    requires columns > 0 && Multiple(k, columns) < n
    ensures k < LineTotal(n, columns)
    decreases k
  {
    if k > 0 {
      LineTotalBelow(n - columns, columns, k - 1);
    }
  }

  /** Every line has the same layout: its length depends only on the
   *  address text, the column count and the slot width. */
  lemma {:induction false} LineLength(cells: seq<string>, blank: string, start: nat, columns: nat, address: string)
    requires Uniform(cells, |blank|)
    ensures |Line(cells, blank, start, columns, address)|
            == 1 + |address| + 2 + columns * (1 + |blank|) + (if columns >= 6 then 1 else 0) + 2
  {
    var left := columns - columns / 2;
    var width := 1 + |blank|;
    SlotsLength(cells, blank, start, left);
    SlotsLength(cells, blank, start + left, columns / 2);
    assert left * width + (columns / 2) * width == columns * width by {
      assert left + columns / 2 == columns;
      DistributeOver(left, columns / 2, width);
    }
  }

  lemma {:induction false} DistributeOver(a: nat, b: nat, c: nat)
    ensures a * c + b * c == (a + b) * c
  {
  }

  /** The adjustment bits of a stream's format flags (`adjustfield`):
   *  none set (a new stream), `left`, `right` or `internal`. */
  datatype Adjust = NoAdjust | Left | Right | Internal

  /** A stream's format flags: the adjustment and, as a number, the rest. */
  datatype FormatFlags = FormatFlags(adjust: Adjust, other: nat)

  /** An output stream: the text written so far and its format state. */
  class OutStream {
    var text: string
    var fill: char
    var flags: FormatFlags

    constructor ()
      ensures text == [] && fill == ' ' && flags == FormatFlags(NoAdjust, 0)
    {
      text, fill, flags := [], ' ', FormatFlags(NoAdjust, 0);
    }
  }

  /** `FormatFlagsGuard`: saves a stream's flags and fill character, and puts
   *  them back on `Restore` (which the destructor calls). */
  class FormatFlagsGuard {
    const ios: OutStream
    const flags: FormatFlags
    const fill: char

    constructor (ios: OutStream)
      ensures this.ios == ios && flags == ios.flags && fill == ios.fill
    {
      this.ios := ios;
      flags := ios.flags;
      fill := ios.fill;
    }

    method Restore()
      modifies ios
      ensures ios.flags == flags && ios.fill == fill && ios.text == old(ios.text)
    {
      ios.flags := flags;
      ios.fill := fill;
    }
  }

  /** `printAtoms`: writes `count` slots from atom `ptr` and returns the atom
   *  after the last slot. */
  method PrintAtoms(out: OutStream, atoms: seq<int>, ghost cells: seq<string>, ghost blank: string,
                    ptr: nat, count: nat, atomSize: nat, digits: string)
    returns (next: nat)
    requires |digits| >= 16 && CellsOf(cells, atoms, atomSize, digits) && blank == Repeat(2 * atomSize, ' ')
    modifies out
    ensures next == ptr + count
    ensures out.text == old(out.text) + Slots(cells, blank, ptr, count)
    ensures out.fill == old(out.fill) && out.flags == old(out.flags)
  {
    ghost var start := out.text;
    next := ptr;
    while next != ptr + count
      invariant ptr <= next <= ptr + count
      invariant out.text == start + Slots(cells, blank, ptr, next - ptr)
      invariant out.fill == old(out.fill) && out.flags == old(out.flags)
      decreases ptr + count - next
    {
      var slot := PrintSlot(atoms, cells, blank, next, atomSize, digits);
      AppendSlot(start, cells, blank, ptr, next - ptr, slot);
      out.text := out.text + " " + slot;
      next := next + 1;
    }
  }

  /** `operator<<` for `HexDumper`: one line per `columns` atoms, then a
   *  newline; the fill character is `0` while the addresses are written and
   *  the stream's format is restored afterwards.  `address(i)` is the text
   *  the stream writes for the address of atom `i`. */
  method HexDump(out: OutStream, atoms: seq<int>, atomSize: nat, columns: nat, digits: string, address: nat -> string)
    requires |digits| >= 16 && columns > 0
    modifies out
    ensures out.text == old(out.text) + Concat(Table(atoms, atomSize, columns, digits, address)) + "\n"
    ensures out.fill == old(out.fill) && out.flags == old(out.flags)
  {
    ghost var table := Table(atoms, atomSize, columns, digits, address);
    ghost var cells, blank := HexCells(atoms, atomSize, digits), Repeat(2 * atomSize, ' ');
    HexCellsOf(atoms, atomSize, digits);
    assert forall k :: 0 <= k < |table| ==>
             table[k] == Line(cells, blank, Multiple(k, columns), columns, address(Multiple(k, columns)));
    var guard := new FormatFlagsGuard(out);
    out.fill := '0';
    WriteTable(out, atoms, cells, blank, table, atomSize, columns, digits, address);
    out.text := out.text + "\n";
    guard.Restore();
  }

  /** The loop of `operator<<` for `HexDumper`: the lines of the table, one
   *  after the other. */
  method WriteTable(out: OutStream, atoms: seq<int>, ghost cells: seq<string>, ghost blank: string, ghost table: seq<string>,
                    atomSize: nat, columns: nat, digits: string, address: nat -> string)
    requires |digits| >= 16 && columns > 0 && CellsOf(cells, atoms, atomSize, digits) && blank == Repeat(2 * atomSize, ' ')
    requires |table| == LineTotal(|atoms|, columns)
    requires forall k :: 0 <= k < |table| ==>
               table[k] == Line(cells, blank, Multiple(k, columns), columns, address(Multiple(k, columns)))
    modifies out
    ensures out.text == old(out.text) + Concat(table)
    ensures out.fill == old(out.fill) && out.flags == old(out.flags)
  {
    ghost var start := out.text;
    ghost var lines := 0;
    var ptr := 0;
    while ptr < |atoms|
      invariant ptr == Multiple(lines, columns) && lines <= |table|
      invariant lines == 0 || Multiple(lines - 1, columns) < |atoms|
      invariant out.text == start + Concat(table[..lines])
      invariant out.fill == old(out.fill) && out.flags == old(out.flags)
      decreases |atoms| - ptr
    {
      LineTotalBelow(|atoms|, columns, lines);
      ptr := WriteLine(out, atoms, cells, blank, ptr, atomSize, columns, digits, address(ptr));
      OneMoreLine(start, table, lines);
      lines := lines + 1;
    }
    LineTotalExact(|atoms|, columns, lines);
    assert table[..lines] == table;
  }

  /** Writing line `k` after the lines before it writes the lines up to
   *  `k`. */
  lemma {:induction false} OneMoreLine(start: string, table: seq<string>, k: nat)
    requires k < |table|
    ensures start + Concat(table[..k]) + table[k] == start + Concat(table[..k + 1])
  {
    ConcatPrefix(table, k);
  }

  /** One pass of the loop of `operator<<` for `HexDumper`: the line of
   *  the table that starts at atom `ptr`. */
  method WriteLine(out: OutStream, atoms: seq<int>, ghost cells: seq<string>, ghost blank: string,
                   ptr: nat, atomSize: nat, columns: nat, digits: string, address: string)
    returns (next: nat)
    requires |digits| >= 16 && CellsOf(cells, atoms, atomSize, digits) && blank == Repeat(2 * atomSize, ' ')
    modifies out
    ensures next == ptr + columns
    ensures out.text == old(out.text) + Line(cells, blank, ptr, columns, address)
    ensures out.fill == old(out.fill) && out.flags == old(out.flags)
  {
    ghost var before := out.text;
    var halfColumns := columns / 2;
    out.text := out.text + "\n" + address + " |";
    ghost var line := "\n" + address + " |";
    assert out.text == before + line;
    ghost var lead := line;
    ghost var piece := Slots(cells, blank, ptr, columns - halfColumns);
    ghost var first := piece;
    next := PrintAtoms(out, atoms, cells, blank, ptr, columns - halfColumns, atomSize, digits);
    Appended(before, line, piece);
    line := line + piece;
    assert out.text == before + line;
    var gap := if columns >= 6 then " " else "";
    if columns >= 6 {
      out.text := out.text + " ";
    }
    Appended(before, line, gap);
    line := line + gap;
    assert out.text == before + line;
    assert next == ptr + (columns - columns / 2);
    piece := Slots(cells, blank, ptr + (columns - columns / 2), columns / 2);
    ghost var second := piece;
    next := PrintAtoms(out, atoms, cells, blank, next, halfColumns, atomSize, digits);
    Appended(before, line, piece);
    line := line + piece;
    assert out.text == before + line;
    out.text := out.text + " |";
    Appended(before, line, " |");
    line := line + " |";
    assert out.text == before + line;
    LineParts(cells, blank, ptr, columns, address, lead, first, gap, second);
  }

  /** The table of `atoms`: line `k` starts at atom `k * columns`, and
   *  there are as many lines as it takes to reach the end of the data. */
  function Table(atoms: seq<int>, atomSize: nat, columns: nat, digits: string, address: nat -> string): (lines: seq<string>)
    requires |digits| >= 16 && columns > 0
    ensures |lines| == LineTotal(|atoms|, columns)
  {
    var cells, blank := HexCells(atoms, atomSize, digits), Repeat(2 * atomSize, ' ');
    seq(LineTotal(|atoms|, columns),
        k requires 0 <= k => Line(cells, blank, Multiple(k, columns), columns, address(Multiple(k, columns))))
  }

  lemma {:induction false} Appended(text: string, line: string, piece: string)
    ensures text + line + piece == text + (line + piece)
  {
  }

  /** Writing one more line extends the text of the lines before it. */
  lemma {:induction false} ConcatPrefix(lines: seq<string>, k: nat)
    requires k < |lines|
    ensures Concat(lines[..k + 1]) == Concat(lines[..k]) + lines[k]
  {
    assert lines[..k + 1] == lines[..k] + [lines[k]];
    ConcatSnoc(lines[..k], lines[k]);
  }

  lemma {:induction false} ConcatSnoc(lines: seq<string>, line: string)
    ensures Concat(lines + [line]) == Concat(lines) + line
  {
    if |lines| > 0 {
      assert (lines + [line])[1..] == lines[1..] + [line];
      ConcatSnoc(lines[1..], line);
    }
  }

  /** Where the text of slot `j` starts in a line whose address text is
   *  `addressLength` characters long: after the newline, the address, ` |`,
   *  the `j` slots before it with their spaces, its own space, and the
   *  extra space that separates the two halves of six or more columns. */
  function SlotOffset(addressLength: nat, columns: nat, j: nat, width: nat): nat
  {
    1 + addressLength + 2 + Multiple(j, 1 + width) + 1 + (if columns >= 6 && j >= columns - columns / 2 then 1 else 0)
  }

  /** The text of the slot of atom `n`: its cell, or the blank past the
   *  end of the data. */
  function SlotText(cells: seq<string>, blank: string, n: nat): string
  {
    if n < |cells| then cells[n] else blank
  }

  /** `s` holds a space at `o` and `cell` right after it. */
  predicate SlotIn(s: string, o: nat, cell: string)
  {
    o + 1 + |cell| <= |s| && s[o] == ' ' && s[o + 1..o + 1 + |cell|] == cell
  }

  /** Slot `j` of `count` slots: a space, then the cell of atom `n`, which
   *  is atom `from + j`, or the blank past the end of the data. */
  lemma {:induction false} SlotAt(cells: seq<string>, blank: string, from: nat, count: nat, j: nat, n: nat)
    requires Uniform(cells, |blank|) && j < count && n == from + j
    ensures SlotIn(Slots(cells, blank, from, count), Multiple(j, 1 + |blank|), SlotText(cells, blank, n))
    decreases j
  {
    var head := " " + SlotText(cells, blank, from);
    var rest := Slots(cells, blank, from + 1, count - 1);
    SlotsHead(cells, blank, from, count);
    if j == 0 {
      FirstSlot(head, rest, Multiple(j, 1 + |blank|), SlotText(cells, blank, n));
    } else {
      SlotAt(cells, blank, from + 1, count - 1, j - 1, n);
      SlotAfterHead(head, rest, Multiple(j - 1, 1 + |blank|), Multiple(j, 1 + |blank|), SlotText(cells, blank, n));
    }
    SlotInSame(Slots(cells, blank, from, count), head + rest, Multiple(j, 1 + |blank|), SlotText(cells, blank, n));
  }

  /** The first of `count` slots is a space and the slot text of atom
   *  `from`, as wide as the blank with its space. */
  lemma {:induction false} SlotsHead(cells: seq<string>, blank: string, from: nat, count: nat)
    requires Uniform(cells, |blank|) && count > 0
    ensures Slots(cells, blank, from, count) == " " + SlotText(cells, blank, from) + Slots(cells, blank, from + 1, count - 1)
    ensures |" " + SlotText(cells, blank, from)| == 1 + |blank|
  {
  }

  /** The first slot of a run of slots starts at its beginning. */
  lemma {:induction false} FirstSlot(head: string, rest: string, o: nat, cell: string)
    requires head == " " + cell && o == 0
    ensures SlotIn(head + rest, o, cell)
  {
    assert (head + rest)[1..1 + |cell|] == cell;
  }

  /** A slot of the rest of a run lies `|x|` further on in the run. */
  lemma {:induction false} SlotAfterHead(x: string, y: string, o: nat, p: nat, cell: string)
    requires SlotIn(y, o, cell) && p == |x| + o
    ensures SlotIn(x + y, p, cell)
  {
    assert (x + y)[p + 1..p + 1 + |cell|] == y[o + 1..o + 1 + |cell|];
  }

  /** A slot found at offset `o` of the middle piece of a concatenation is
   *  found `|x|` further on in the whole. */
  lemma {:induction false} PieceAt(x: string, y: string, z: string, o: nat, cell: string)
    requires SlotIn(y, o, cell)
    ensures SlotIn(x + y + z, |x| + o, cell)
  {
    var s := x + y + z;
    assert s[|x| + o] == y[o];
    assert s[|x| + o + 1..|x| + o + 1 + |cell|] == y[o + 1..o + 1 + |cell|];
  }

  /** Slot `j` of a line: a space, then at `SlotOffset` the cell of atom
   *  `start + j`, or the blank past the end of the data. */
  lemma {:induction false} LineSlot(cells: seq<string>, blank: string, start: nat, columns: nat, address: string, j: nat)
    requires Uniform(cells, |blank|) && j < columns
    ensures SlotIn(Line(cells, blank, start, columns, address), SlotOffset(|address|, columns, j, |blank|) - 1,
                   SlotText(cells, blank, start + j))
  {
    var left := columns - columns / 2;
    var lead := "\n" + address + " |";
    var first, gap, second := Slots(cells, blank, start, left), (if columns >= 6 then " " else ""), Slots(cells, blank, start + left, columns / 2);
    var at := SlotOffset(|address|, columns, j, |blank|) - 1;
    var cell := SlotText(cells, blank, start + j);
    assert |lead| == 3 + |address|;
    if j < left {
      assert at == |lead| + Multiple(j, 1 + |blank|);
      FirstHalfSlot(cells, blank, start, left, j, lead, first, gap, second, at);
    } else {
      assert |gap| == (if columns >= 6 then 1 else 0);
      assert at == |lead| + Multiple(j, 1 + |blank|) + |gap|;
      SecondHalfSlot(cells, blank, start, left, columns / 2, j, lead, first, gap, second, at);
    }
    LineParts(cells, blank, start, columns, address, lead, first, gap, second);
    SlotInSame(Line(cells, blank, start, columns, address), lead + first + gap + second + " |", at, cell);
  }

  /** `LineSlot` for a slot of the first half of the line. */
  lemma {:induction false} FirstHalfSlot(cells: seq<string>, blank: string, start: nat, left: nat, j: nat,
                                         lead: string, first: string, gap: string, second: string, at: nat)
    requires Uniform(cells, |blank|) && j < left && first == Slots(cells, blank, start, left)
    requires at == |lead| + Multiple(j, 1 + |blank|)
    ensures SlotIn(lead + first + gap + second + " |", at, SlotText(cells, blank, start + j))
  {
    SlotAt(cells, blank, start, left, j, start + j);
    SlotBefore(lead, first, gap, second, " |", Multiple(j, 1 + |blank|), at, SlotText(cells, blank, start + j));
  }

  /** `LineSlot` for a slot of the second half of the line. */
  lemma {:induction false} SecondHalfSlot(cells: seq<string>, blank: string, start: nat, left: nat, right: nat, j: nat,
                                          lead: string, first: string, gap: string, second: string, at: nat)
    requires Uniform(cells, |blank|) && left <= j < left + right
    requires first == Slots(cells, blank, start, left) && second == Slots(cells, blank, start + left, right)
    requires at == |lead| + Multiple(j, 1 + |blank|) + |gap|
    ensures SlotIn(lead + first + gap + second + " |", at, SlotText(cells, blank, start + j))
  {
    var i := j - left;
    SlotAt(cells, blank, start + left, right, i, start + j);
    SlotsWidth(cells, blank, start, left);
    SlotAfter(lead, first, gap, second, " |", |blank|, left, i, j, at, SlotText(cells, blank, start + j));
  }

  /** A line is its lead, its two halves of slots with the gap between
   *  them, and its closing bar. */
  lemma {:induction false} LineParts(cells: seq<string>, blank: string, start: nat, columns: nat, address: string,
                                     lead: string, first: string, gap: string, second: string)
    requires lead == "\n" + address + " |" && gap == (if columns >= 6 then " " else "")
    requires first == Slots(cells, blank, start, columns - columns / 2)
    requires second == Slots(cells, blank, start + (columns - columns / 2), columns / 2)
    ensures Line(cells, blank, start, columns, address) == lead + first + gap + second + " |"
  {
  }

  /** `SlotIn` carried over an equality of texts. */
  lemma {:induction false} SlotInSame(s: string, t: string, o: nat, cell: string)
    requires s == t && SlotIn(t, o, cell)
    ensures SlotIn(s, o, cell)
  {
  }

  /** A slot of the first piece of slots, after the lead, is a slot of the line. */
  lemma {:induction false} SlotBefore(lead: string, first: string, gap: string, second: string, tail: string,
                                      o: nat, at: nat, cell: string)
    requires at == |lead| + o && SlotIn(first, o, cell)
    ensures SlotIn(lead + first + gap + second + tail, at, cell)
  {
    PieceAt(lead, first, gap + second + tail, o, cell);
    Regroup(lead, first, gap, second, tail);
  }

  /** A slot of the second piece of slots, after the first piece and the
   *  gap, is a slot of the line. */
  lemma {:induction false} SlotAfter(lead: string, first: string, gap: string, second: string, tail: string,
                                     w: nat, left: nat, i: nat, j: nat, at: nat, cell: string)
    requires |first| == Multiple(left, 1 + w) && j == left + i && at == |lead| + Multiple(j, 1 + w) + |gap|
    requires SlotIn(second, Multiple(i, 1 + w), cell)
    ensures SlotIn(lead + first + gap + second + tail, at, cell)
  {
    MultipleAdd(left, i, 1 + w);
    PieceAt(lead + first + gap, second, tail, Multiple(i, 1 + w), cell);
  }

  /** Regrouping five pieces of text. */
  lemma {:induction false} Regroup(a: string, b: string, c: string, d: string, e: string)
    ensures a + b + (c + d + e) == a + b + c + d + e
  {
  }

  /** `count` slots take `count` times the width of a slot and its space. */
  lemma {:induction false} SlotsWidth(cells: seq<string>, blank: string, from: nat, count: nat)
    requires Uniform(cells, |blank|)
    ensures |Slots(cells, blank, from, count)| == Multiple(count, 1 + |blank|)
    decreases count
  {
    if count > 0 {
      SlotsWidth(cells, blank, from + 1, count - 1);
    }
  }

  /** The slot whose text starts at `at` in `line` follows a space and
   *  holds atom `i` in hexadecimal, which reads back as that atom's low
   *  `2 * atomSize` nibbles, or holds blanks past the end of the data. */
  predicate SlotHoldsAtom(line: string, at: nat, atoms: seq<int>, i: nat, atomSize: nat, digits: string)
    requires |digits| >= 16
  {
    && 1 <= at && at + 2 * atomSize <= |line| && line[at - 1] == ' '
    && (i < |atoms| ==> line[at..at + 2 * atomSize] == Render(atoms[i], 16, 2 * atomSize, 0, digits))
    && (i < |atoms| && DigitTable(digits, 16) ==> Parse(line[at..at + 2 * atomSize], digits, 16) == atoms[i] % Pow(16, 2 * atomSize))
    && (i >= |atoms| ==> line[at..at + 2 * atomSize] == Repeat(2 * atomSize, ' '))
  }

  /** Slot `j` of a line printed from atom `start` on holds atom
   *  `start + j` in hexadecimal, which reads back as that atom's low
   *  `2 * sizeof(Atom)` nibbles, and holds blanks past the end of the data.
   *  Line `k` of `Table` is the line printed from atom `k * columns` on. */
  lemma {:induction false} LineSlotContents(cells: seq<string>, atoms: seq<int>, atomSize: nat, columns: nat, digits: string,
                                            address: string, start: nat, j: nat)
    requires |digits| >= 16 && CellsOf(cells, atoms, atomSize, digits) && j < columns
    ensures SlotHoldsAtom(Line(cells, Repeat(2 * atomSize, ' '), start, columns, address), SlotOffset(|address|, columns, j, 2 * atomSize),
                          atoms, start + j, atomSize, digits)
  {
    LineSlotHolds(cells, Repeat(2 * atomSize, ' '), atoms, atomSize, columns, digits, address, start, j,
                  Line(cells, Repeat(2 * atomSize, ' '), start, columns, address));
  }

  /** `LineSlotContents` for a text `line` equal to the printed line. */
  lemma {:induction false} LineSlotHolds(cells: seq<string>, blank: string, atoms: seq<int>, atomSize: nat, columns: nat, digits: string,
                                         address: string, start: nat, j: nat, line: string)
    requires |digits| >= 16 && CellsOf(cells, atoms, atomSize, digits) && j < columns && blank == Repeat(2 * atomSize, ' ')
    requires line == Line(cells, blank, start, columns, address)
    ensures SlotHoldsAtom(line, SlotOffset(|address|, columns, j, 2 * atomSize), atoms, start + j, atomSize, digits)
  {
    CellsUniform(cells, atoms, atomSize, digits);
    SlotOfLine(cells, blank, 2 * atomSize, start, columns, address, j, line);
    SlotContents(line, SlotOffset(|address|, columns, j, 2 * atomSize), cells, atoms, atomSize, digits, start + j);
  }

  /** `LineSlotContents` for any text holding the slot text of atom `i`
   *  right after a space just before `at`. */
  lemma {:induction false} SlotContents(line: string, at: nat, cells: seq<string>, atoms: seq<int>, atomSize: nat, digits: string, i: nat)
    requires |digits| >= 16 && CellsOf(cells, atoms, atomSize, digits) && at >= 1
    requires SlotIn(line, at - 1, SlotText(cells, Repeat(2 * atomSize, ' '), i))
    ensures SlotHoldsAtom(line, at, atoms, i, atomSize, digits)
  {
    var text := SlotText(cells, Repeat(2 * atomSize, ' '), i);
    CellsUniform(cells, atoms, atomSize, digits);
    assert |text| == 2 * atomSize;
    SlotInAt(line, at, text);
    CellFacts(line[at..at + 2 * atomSize], cells, atoms, atomSize, digits, i);
  }

  /** Every cell is as wide as the blank. */
  lemma {:induction false} CellsUniform(cells: seq<string>, atoms: seq<int>, atomSize: nat, digits: string)
    requires |digits| >= 16 && CellsOf(cells, atoms, atomSize, digits)
    ensures Uniform(cells, 2 * atomSize)
  {
    forall i | 0 <= i < |cells|
      ensures |cells[i]| == 2 * atomSize
    {
      assert IsCell(cells, atoms, i, atomSize, digits);
    }
  }

  /** A slot just before `at` is a space followed by its text from `at` on. */
  lemma {:induction false} SlotInAt(s: string, at: nat, cell: string)
    requires at >= 1 && SlotIn(s, at - 1, cell)
    ensures at + |cell| <= |s| && s[at - 1] == ' ' && s[at..at + |cell|] == cell
  {
  }

  /** What the slot text of atom `i` holds, and what it reads back as. */
  lemma {:induction false} CellFacts(slice: string, cells: seq<string>, atoms: seq<int>, atomSize: nat, digits: string, i: nat)
    requires |digits| >= 16 && CellsOf(cells, atoms, atomSize, digits)
    requires slice == SlotText(cells, Repeat(2 * atomSize, ' '), i)
    ensures i < |atoms| ==> slice == Render(atoms[i], 16, 2 * atomSize, 0, digits)
    ensures i < |atoms| && DigitTable(digits, 16) ==> Parse(slice, digits, 16) == atoms[i] % Pow(16, 2 * atomSize)
    ensures i >= |atoms| ==> slice == Repeat(2 * atomSize, ' ')
  {
    if i < |atoms| {
      assert IsCell(cells, atoms, i, atomSize, digits);
      if DigitTable(digits, 16) {
        ParseRender(atoms[i], 16, 2 * atomSize, digits);
      }
    }
  }

  /** The text of slot `j` of `line` starts at `SlotOffset`, right after
   *  a space. */
  lemma {:induction false} SlotOfLine(cells: seq<string>, blank: string, w: nat, start: nat, columns: nat, address: string, j: nat, line: string)
    requires |blank| == w && Uniform(cells, w) && j < columns && line == Line(cells, blank, start, columns, address)
    ensures SlotIn(line, SlotOffset(|address|, columns, j, w) - 1, SlotText(cells, blank, start + j))
  {
    LineSlot(cells, blank, start, columns, address, j);
  }

  /** Every line of the table has the same length, fixed by its address
   *  text, the column count and the atom size. */
  lemma {:induction false} TableLayout(atoms: seq<int>, atomSize: nat, columns: nat, digits: string, address: nat -> string, k: nat)
    requires |digits| >= 16 && columns > 0 && k < LineTotal(|atoms|, columns)
    ensures |Table(atoms, atomSize, columns, digits, address)[k]|
            == 1 + |address(Multiple(k, columns))| + 2 + columns * (1 + 2 * atomSize) + (if columns >= 6 then 1 else 0) + 2
  {
    HexCellsUniform(atoms, atomSize, digits);
    LineLength(HexCells(atoms, atomSize, digits), Repeat(2 * atomSize, ' '), Multiple(k, columns), columns, address(Multiple(k, columns)));
  }

  /** The text a stream writes for a field of `field` characters: the
   *  sign or base prefix the value's formatting puts first (empty for text
   *  that has none), then its other characters `body`, padded with `pad`
   *  where the stream's adjustment says.  Left adjustment pads after the
   *  text, internal adjustment between the prefix and the body, and right
   *  adjustment, or none, before the text. */
  function Padded(prefix: string, body: string, field: nat, pad: char, adjust: Adjust): (s: string)
    ensures |s| == if field > |prefix| + |body| then field else |prefix| + |body|
    ensures adjust == Left ==>
              && s[..|prefix| + |body|] == prefix + body
              && forall i :: |prefix| + |body| <= i < |s| ==> s[i] == pad
    ensures adjust == Internal ==>
              && s[..|prefix|] == prefix && s[|s| - |body|..] == body
              && forall i :: |prefix| <= i < |s| - |body| ==> s[i] == pad
    ensures (adjust == Right || adjust == NoAdjust) ==>
              && s[|s| - |prefix| - |body|..] == prefix + body
              && forall i :: 0 <= i < |s| - |prefix| - |body| ==> s[i] == pad
  {
    var padding := Repeat(if field > |prefix| + |body| then field - |prefix| - |body| else 0, pad);
    match adjust
    case Left => prefix + body + padding
    case Internal => prefix + padding + body
    case _ => padding + prefix + body
  }

  /** `operator<<` for `ZeroPadder`: the data, as the stream formats it
   *  (`prefix` and `body`), in a field of `field` characters padded with
   *  `pad` as the stream's adjustment says; the stream's fill character is
   *  restored afterwards. */
  method WriteZeroPadded(out: OutStream, prefix: string, body: string, field: nat, pad: char)
    modifies out
    ensures out.text == old(out.text) + Padded(prefix, body, field, pad, old(out.flags).adjust)
    ensures out.fill == old(out.fill) && out.flags == old(out.flags)
  {
    var guard := new FormatFlagsGuard(out);
    out.fill := pad;
    out.text := out.text + Padded(prefix, body, field, out.fill, out.flags.adjust);
    guard.Restore();
  }
}
