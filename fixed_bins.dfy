/** `icarus::ns::util::FixedBins`: counts in bins of fixed width aligned to an
 *  offset, with storage that grows on either side as values are added.
 *
 *  A bin index is fixed by the first value added (its bin is index 0) and
 *  does not move when storage is prepended; `minBin` is the bin index of the
 *  first stored counter and `min` its lower edge.  Counters are unbounded
 *  naturals. */
module FixedBins {
  import opened RealMath

  /** The index of the bin of `value`, for bins `width` wide whose bin
   *  `minBin` starts at `min`. */
  function BinIndex(minBin: int, min: real, width: real, value: real): int
    requires width != 0.0
  {
    minBin + Floor((value - min) / width)
  }

  function Zeros(n: nat): (s: seq<nat>)
    ensures |s| == n && forall k :: 0 <= k < n ==> s[k] == 0
  {
    seq(n, _ => 0)
  }

  class FixedBins {
    const width: real
    const offset: real
    var minBin: int
    var min: real
    var counters: seq<nat>

    /** The width is not zero (negative widths are accepted), and the lowest
     *  stored bin is aligned to the offset. */
    predicate Valid()
      reads this
    {
      width != 0.0 && Integral((min - offset) / width)
    }

    /** The constructor allocates nothing.  The first lower edge, left
     *  unset by the source until the first value, starts at the offset. */
    constructor (width: real, offset: real)
      requires width != 0.0
      ensures Valid() && Empty()
      ensures this.width == width && this.offset == offset && minBin == 0
    {
      this.width := width;
      this.offset := offset;
      minBin := 0;
      min := offset;
      counters := [];
      new;
      assert (min - offset) / width == 0.0;
    }

    /** `nBins()`: how many bins have storage, from `minBin()` to
     *  `maxBin()`. */
    function NBins(): (n: nat)
      reads this
      ensures n == 0 <==> Empty()
      ensures !Empty() ==> n == MaxBin() - MinBin() + 1
    {
      |counters|
    }

    /** `empty()`: no storage index is valid. */
    predicate Empty()
      reads this
      ensures Empty() <==> forall stIndex :: !HasStorageIndex(stIndex)
    {
      assert |counters| > 0 ==> HasStorageIndex(0);
      |counters| == 0
    }

    /** `relativeBinIndex()`: how many widths `value` lies from `ref`. */
    function RelativeBinIndex(value: real, ref: real): (r: int)
      reads this
      requires width != 0.0
      ensures r as real <= (value - ref) / width < r as real + 1.0
    {
      Floor((value - ref) / width)
    }

    /** `binWith()`: the bin index of `value`, or 0 without storage. */
    function BinWith(value: real): (b: int)
      reads this
      requires Valid()
      ensures Empty() ==> b == 0
      ensures !Empty() ==> b == BinIndex(minBin, min, width, value)
    {
      if Empty() then 0 else BinIndex(minBin, min, width, value)
    }

    /** `storageIndex()`: where bin `index` is stored, if anywhere. */
    function StorageIndex(index: int): (st: int)
      reads this
      ensures 0 <= st < |counters| ==> CountIn(counters, minBin, index) == counters[st]
      ensures !HasStorageIndex(st) ==> CountIn(counters, minBin, index) == 0
    {
      index - minBin
    }

    /** `hasStorageIndex()`: the index holds a counter, that of bin
     *  `minBin() + stIndex`. */
    predicate HasStorageIndex(stIndex: int)
      reads this
      ensures HasStorageIndex(stIndex) ==>
                0 <= stIndex < |counters| && CountIn(counters, minBin, minBin + stIndex) == counters[stIndex]
    {
      0 <= stIndex < |counters|
    }

    /** `count()`: the counter of bin `index`, 0 when it has no storage. */
    function Count(index: int): (c: nat)
      reads this
      ensures c > 0 ==> MinBin() <= index <= MaxBin()
    {
      CountIn(counters, minBin, index)
    }

    /** `countFor()`: the counter of the bin holding `value`. */
    function CountFor(value: real): (c: nat)
      reads this
      requires Valid()
      ensures Empty() ==> c == 0
      ensures c > 0 ==> MinBin() <= BinWith(value) <= MaxBin()
    {
      Count(BinWith(value))
    }

    /** `range()`: the span of the bins with storage. */
    function Range(): (r: real)
      reads this
      ensures r == Max() - Min()
    {
      width * |counters| as real
    }

    /** `minBin()`: the bin index of the first stored counter. */
    function MinBin(): (b: int)
      reads this
      ensures !Empty() ==> HasStorageIndex(StorageIndex(b)) && !HasStorageIndex(StorageIndex(b - 1))
    {
      minBin
    }

    /** `maxBin()`: the bin index of the last stored counter. */
    function MaxBin(): (b: int)
      reads this
      ensures !Empty() ==> HasStorageIndex(StorageIndex(b)) && !HasStorageIndex(StorageIndex(b + 1))
    {
      minBin + |counters| - 1
    }

    /** `min()`: the lower edge of `minBin()`, aligned to the offset. */
    function Min(): (m: real)
      reads this
      ensures m == LowerEdge(MinBin())
      ensures Valid() ==> Integral((m - offset) / width)
    {
      min
    }

    /** `max()`: the upper edge of the last stored bin. */
    function Max(): (m: real)
      reads this
      ensures !Empty() ==> m == UpperEdge(MaxBin())
    {
      min + width * |counters| as real
    }

    /** `lowerEdge()` as written: offset plus `(minBin + index)` widths,
     *  which ignores where bin 0 was placed by the first value. */
    function LowerEdgeAsWritten(index: int): (e: real)
      reads this
      ensures e == LowerEdge(index) + (offset - min) + 2.0 * minBin as real * width
      ensures minBin == 0 && min == offset ==> e == LowerEdge(index)
    {
      offset + (minBin + index) as real * width
    }

    /** The lower edge of bin `index`: counted in widths from the lower edge
     *  of the first stored bin. */
    function LowerEdge(index: int): (e: real)
      reads this
      ensures index == minBin ==> e == min
    {
      min + (index - minBin) as real * width
    }

    /** `upperEdge()`: the lower edge of the next bin. */
    function UpperEdge(index: int): (e: real)
      reads this
      ensures e == LowerEdge(index) + width
    {
      LowerEdge(index + 1)
    }

    /** The state after `add(value)` compared with the state before: one
     *  counter, that of the bin of `value`, went up by one; storage now
     *  reaches that bin; no bin index moved. */
    twostate predicate Added(value: real, bin: int)
      reads this
      requires old(Valid())
    {
      && Valid()
      && bin == old(BinWith(value)) && bin == BinWith(value)
      && (forall i :: Count(i) == old(Count(i)) + (if i == bin then 1 else 0))
      && MinBin() <= bin <= MaxBin()
      && (old(Empty()) ==> minBin == 0 && min == offset + width * RelativeBinIndex(value, offset) as real && |counters| == 1)
      && (!old(Empty()) ==>
            minBin == if bin < old(minBin) then bin else old(minBin))
      && (!old(Empty()) ==> forall v :: BinWith(v) == old(BinWith(v)))
    }

    /** `add()`, returning the bin index its documentation promises. */
    method Add(value: real) returns (bin: int)
      requires Valid()
      modifies this
      ensures Added(value, bin)
    {
      var stIndex := AddAsWritten(value);
      bin := stIndex + minBin;
    }

    /** `add()` as written: it returns the storage index of the counter,
     *  which is the bin index only while `minBin()` is 0. */
    method AddAsWritten(value: real) returns (stIndex: nat)
      requires Valid()
      modifies this
      ensures Added(value, stIndex + minBin)
    {
      if Empty() {
        stIndex := InitializeWith(value);
      } else {
        stIndex := AllocateBin(BinWith(value));
      }
      Increment(stIndex);
    }

    /** `++fCounters[stIndex]`: one more entry in the counter stored at
     *  `stIndex`; nothing else changes. */
    method Increment(stIndex: nat)
      requires Valid() && HasStorageIndex(stIndex)
      modifies this
      ensures Valid() && minBin == old(minBin) && min == old(min) && |counters| == old(|counters|)
      ensures forall i :: Count(i) == old(Count(i)) + (if i == stIndex + minBin then 1 else 0)
      ensures forall v :: BinWith(v) == old(BinWith(v))
    {
      counters := counters[stIndex := counters[stIndex] + 1];
    }

    /** `initializeWith()`: the first bin, aligned to the offset, is bin 0. */
    method InitializeWith(value: real) returns (stIndex: nat)
      requires Valid() && Empty()
      modifies this
      ensures Valid()
      ensures minBin == 0 && counters == [0] && stIndex == 0
      ensures min == offset + width * RelativeBinIndex(value, offset) as real
      ensures BinWith(value) == 0
    {
      var k := RelativeBinIndex(value, offset);
      minBin := 0;
      min := offset + width * k as real;
      counters := counters + [0];
      stIndex := 0;
      assert (min - offset) / width == k as real;
      assert Integral(k as real);
      assert (value - min) / width == (value - offset) / width - k as real;
      FloorShift((value - offset) / width, -k);
    }

    /** `allocateBin()`: extends the storage down or up to reach bin
     *  `index`, filling the new counters with zero. */
    method AllocateBin(index: int) returns (stIndex: nat)
      requires Valid() && !Empty()
      modifies this
      ensures Valid()
      ensures stIndex == StorageIndex(index) && HasStorageIndex(stIndex)
      ensures minBin == if index < old(minBin) then index else old(minBin)
      ensures forall i :: Count(i) == old(Count(i))
      ensures forall v :: BinWith(v) == old(BinWith(v))
    {
      var st := StorageIndex(index);
      if st < 0 {
        ExtendDown(-st);
        stIndex := 0;
      } else {
        if st >= |counters| {
          ExtendUp(st + 1 - |counters|);
        }
        stIndex := st;
      }
    }

    /** The part of `allocateBin()` that prepends `nExtend` zero counters. */
    method ExtendDown(nExtend: nat)
      requires Valid() && !Empty()
      modifies this
      ensures Valid() && !Empty()
      ensures counters == Zeros(nExtend) + old(counters) && minBin == old(minBin) - nExtend
      ensures forall i :: Count(i) == old(Count(i))
      ensures forall v :: BinWith(v) == old(BinWith(v))
    {
      ghost var oldMin := min;
      var newMin := min - nExtend as real * width;
      PrependKeepsAlignment(oldMin, newMin, offset, width, nExtend);
      counters := Zeros(nExtend) + counters;
      minBin := minBin - nExtend;
      min := newMin;
      assert Valid() && !Empty();
      forall i
        ensures Count(i) == old(Count(i))
      {
        PrependKeepsCounts(old(counters), nExtend, old(minBin), i);
      }
      PrependedBinIndices(old(minBin), oldMin, minBin, min, width, nExtend);
    }

    /** The part of `allocateBin()` that appends `nExtend` zero counters. */
    method ExtendUp(nExtend: nat)
      requires Valid() && !Empty()
      modifies this
      ensures Valid() && !Empty()
      ensures counters == old(counters) + Zeros(nExtend) && minBin == old(minBin) && min == old(min)
      ensures forall i :: Count(i) == old(Count(i))
      ensures forall v :: BinWith(v) == old(BinWith(v))
    {
      counters := counters + Zeros(nExtend);
      forall i
        ensures Count(i) == old(Count(i))
      {
        AppendKeepsCounts(old(counters), nExtend, minBin, i);
      }
    }

    /** `clear()`: storage goes, width and offset stay. */
    method Clear()
      modifies this
      ensures Empty() && counters == []
      ensures minBin == old(minBin) && min == old(min)
      ensures forall i :: Count(i) == 0
    {
      counters := [];
    }
  }

  /** The counter of bin `index` in storage starting at bin `minBin`. */
  function CountIn(counters: seq<nat>, minBin: int, index: int): (c: nat)
    ensures c > 0 ==> minBin <= index < minBin + |counters|
  {
    if 0 <= index - minBin < |counters| then counters[index - minBin] else 0
  }

  /** Zero counters prepended, with the first bin index moved down as far,
   *  leave every bin's count as it was. */
  lemma {:induction false} PrependKeepsCounts(counters: seq<nat>, n: nat, minBin: int, index: int)
    ensures CountIn(Zeros(n) + counters, minBin - n, index) == CountIn(counters, minBin, index)
  {
    var st := index - (minBin - n);
    if 0 <= st < n {
      assert (Zeros(n) + counters)[st] == 0;
    } else if n <= st < n + |counters| {
      assert (Zeros(n) + counters)[st] == counters[st - n];
    }
  }

  /** Zero counters appended leave every bin's count as it was. */
  lemma {:induction false} AppendKeepsCounts(counters: seq<nat>, n: nat, minBin: int, index: int)
    ensures CountIn(counters + Zeros(n), minBin, index) == CountIn(counters, minBin, index)
  {
    var st := index - minBin;
    if 0 <= st < |counters| {
      assert (counters + Zeros(n))[st] == counters[st];
    } else if |counters| <= st < |counters| + n {
      assert (counters + Zeros(n))[st] == 0;
    }
  }

  /** Moving the first lower edge down by `n` widths keeps it aligned. */
  lemma {:induction false} PrependKeepsAlignment(oldMin: real, newMin: real, offset: real, width: real, n: nat)
    requires width != 0.0 && Integral((oldMin - offset) / width)
    requires newMin == oldMin - n as real * width
    ensures Integral((newMin - offset) / width)
  {
    assert (newMin - offset) / width == (oldMin - offset) / width - n as real;
    FloorShift((oldMin - offset) / width, -(n as int));
  }

  /** Prepending `n` bins moves both the first bin index and the first
   *  lower edge down by `n`, which leaves the bin of a value in place. */
  lemma {:induction false} PrependedBinIndices(minBin: int, oldMin: real, newMinBin: int, newMin: real, width: real, n: nat)
    requires width != 0.0 && newMinBin == minBin - n && newMin == oldMin - n as real * width
    ensures forall v :: BinIndex(newMinBin, newMin, width, v) == BinIndex(minBin, oldMin, width, v)
  {
    forall v
      ensures BinIndex(newMinBin, newMin, width, v) == BinIndex(minBin, oldMin, width, v)
    {
      PrependedBinIndex(v, minBin, oldMin, width, n);
    }
  }

  lemma {:induction false} PrependedBinIndex(v: real, minBin: int, oldMin: real, width: real, n: nat)
    requires width != 0.0
    ensures BinIndex(minBin - n, oldMin - n as real * width, width, v) == BinIndex(minBin, oldMin, width, v)
  {
    PrependKeepsBins(v, oldMin, width, n);
  }

  lemma {:induction false} PrependKeepsBins(v: real, oldMin: real, width: real, n: nat)
    requires width != 0.0
    ensures Floor((v - (oldMin - n as real * width)) / width) == Floor((v - oldMin) / width) + n
  {
    QuotientShift(v, oldMin, width, n);
    FloorShift((v - oldMin) / width, n);
  }

  /** The bin of a value, for positive widths, is the one whose edges
   *  enclose it; every bin index with storage holds exactly the values
   *  between its edges. */
  lemma {:induction false} BinWithIffBetweenEdges(bins: FixedBins, value: real, index: int)
    requires bins.Valid() && !bins.Empty() && bins.width > 0.0
    ensures bins.BinWith(value) == index <==> bins.LowerEdge(index) <= value < bins.UpperEdge(index)
  {
    FloorOfQuotient(value - bins.min, bins.width, index - bins.minBin);
  }

  /** Width 2, offset -1, after `add(3.5)`: the stored bin is bin 0 and
   *  spans [3, 5), but the written `lowerEdge(0)` is -1, and 3.5 is not in
   *  [-1, 1). */
  method LowerEdgeAsWrittenMisplaced() returns (edgeAsWritten: real, edge: real, bin: int)
    ensures bin == 0 && edge == 3.0 && edgeAsWritten == -1.0
    ensures edge <= 3.5 < edge + 2.0
    ensures !(edgeAsWritten <= 3.5 < edgeAsWritten + 2.0)
  {
    var bins := new FixedBins(2.0, -1.0);
    FloorUnique(2.25, 2);
    bin := bins.Add(3.5);
    edgeAsWritten := bins.LowerEdgeAsWritten(bin);
    edge := bins.LowerEdge(bin);
  }

  /** Width 2, offset -1, `add(3.5)` then `add(-4.0)`: the second value
   *  lands in bin -4 and the written `add()` returns 0, its storage index. */
  method AddAsWrittenReturnsStorageIndex() returns (returned: int, bin: int)
    ensures returned == 0 && bin == -4
  {
    var bins := new FixedBins(2.0, -1.0);
    FloorUnique(2.25, 2);
    var first := bins.AddAsWritten(3.5);
    FloorUnique(-3.5, -4);
    bin := bins.BinWith(-4.0);
    var second := bins.AddAsWritten(-4.0);
    returned := second;
  }
}
