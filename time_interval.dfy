/** Half-open time intervals `[start, stop)` (`TimeInterval` of the
 *  utilities library): the interval value with its pure queries and
 *  free operators, and the mutable object whose in-place operations are
 *  specified by those functions. */
module TimeIntervals {

  /** The value of an interval. It is empty when `start >= stop`. */
  datatype Interval = Interval(start: real, stop: real)
  {
    /** `empty()`: no time at all is contained. */
    predicate Empty()
      ensures Empty() <==> forall t :: !Contains(t)
    {
      assert start < stop ==> Contains(start);
      start >= stop
    }

    /** A positive duration exactly for a non-empty interval. */
    function Duration(): (d: real)
      ensures d > 0.0 <==> !Empty()
    {
      stop - start
    }

    /** Start is included, stop is excluded: only a non-empty interval
     *  contains a time, and then it contains its start. */
    predicate Contains(t: real)
      ensures Contains(t) ==> start < stop
      ensures t == start ==> (Contains(t) <==> start < stop)
    {
      start <= t < stop
    }

    /** `shift`: both ends move, but only for a non-empty interval. */
    function Shifted(amount: real): (r: Interval)
      ensures Empty() ==> r == this
      ensures !Empty() ==> forall t :: r.Contains(t + amount) <==> Contains(t)
      ensures r.Duration() == Duration()
    {
      if Empty() then this else Interval(start + amount, stop + amount)
    }

    /** `intersect`: the later start and the earlier stop. */
    function Intersection(other: Interval): (r: Interval)
      ensures forall t :: r.Contains(t) <==> Contains(t) && other.Contains(t)
      ensures r.start >= start && r.start >= other.start
      ensures r.stop <= stop && r.stop <= other.stop
    {
      Interval(if start < other.start then other.start else start,
               if stop > other.stop then other.stop else stop)
    }

    /** `extend`: an empty interval is replaced, an empty `other` changes
     *  nothing, otherwise the result is the hull of both. */
    function Extension(other: Interval): (r: Interval)
      ensures Empty() ==> r == other
      ensures !Empty() && other.Empty() ==> r == this
      ensures forall t :: Contains(t) || other.Contains(t) ==> r.Contains(t)
      ensures !Empty() && !other.Empty() ==>
        (r.start == start || r.start == other.start) && (r.stop == stop || r.stop == other.stop)
    {
      if Empty() then other
      else if other.Empty() then this
      else Interval(if other.start < start then other.start else start,
                    if other.stop > stop then other.stop else stop)
    }

    /** Free `operator+`: shifts both ends even when the interval is empty. */
    function Plus(amount: real): (r: Interval)
      ensures r.Duration() == Duration() && r.Empty() == Empty()
      ensures forall t :: r.Contains(t + amount) <==> Contains(t)
    {
      Interval(start + amount, stop + amount)
    }

    /** Free `operator-`: the inverse of `Plus`. */
    function Minus(amount: real): (r: Interval)
      ensures r.Plus(amount) == this
      ensures r == Plus(-amount)
    {
      Interval(start - amount, stop - amount)
    }

    /** `get<0>` is the start, `get<1>` the stop. */
    function Get(i: nat): (t: real)
      requires i < 2
      ensures i == 0 ==> t == start
      ensures i == 1 ==> t == stop
    {
      if i == 0 then start else stop
    }
  }

  /** Extending by an interval and intersecting back with it gives it back. */
  lemma {:induction false} ExtensionThenIntersection(i: Interval, other: Interval)
    requires !other.Empty()
    ensures i.Extension(other).Intersection(other) == other
  {
  }

  /** Stream form: `[ empty ]` or `[ start ; stop]`; `fmt` renders a time. */
  function Format(i: Interval, fmt: real -> string): (s: string)
    ensures i.Empty() ==> s == "[ empty ]"
    ensures !i.Empty() ==> ';' in s && |s| >= 2 && s[..2] == "[ " && s[|s| - 1] == ']'
  {
    if i.Empty() then "[ empty ]"
    else
      var from := "[ " + fmt(i.start);
      var r := from + " ; " + fmt(i.stop) + "]";
      assert r[|from| + 1] == ';';
      r
  }

  /** The mutable `TimeInterval` object. */
  class TimeInterval {
    var start: real
    var stop: real

    function Value(): Interval
      reads this
    {
      Interval(start, stop)
    }

    /** Default construction: both ends at the time origin. */
    constructor Default()
      ensures Value() == Interval(0.0, 0.0) && Value().Empty()
    {
      start, stop := 0.0, 0.0;
    }

    /** A single time gives an empty interval starting and stopping there. */
    constructor At(t: real)
      ensures Value() == Interval(t, t) && Value().Empty()
    {
      start, stop := t, t;
    }

    constructor (start: real, stop: real)
      ensures Value() == Interval(start, stop)
    {
      this.start, this.stop := start, stop;
    }

    method Shift(amount: real)
      modifies this
      ensures Value() == old(Value()).Shifted(amount)
    {
      if !(start >= stop) {
        start := start + amount;
        stop := stop + amount;
      }
    }

    method Intersect(other: Interval)
      modifies this
      ensures Value() == old(Value()).Intersection(other)
    {
      if start < other.start { start := other.start; }
      if stop > other.stop { stop := other.stop; }
    }

    method Extend(other: Interval)
      modifies this
      ensures Value() == old(Value()).Extension(other)
    {
      if start >= stop {
        start, stop := other.start, other.stop;
      } else if !(other.start >= other.stop) {
        if other.start < start { start := other.start; }
        if other.stop > stop { stop := other.stop; }
      }
    }

    /** `operator+=`, which is `shift`. */
    method AddAssign(amount: real)
      modifies this
      ensures Value() == old(Value()).Shifted(amount)
    {
      Shift(amount);
    }

    /** `operator-=`, which is `shift` by the opposite amount. */
    method SubtractAssign(amount: real)
      modifies this
      ensures Value() == old(Value()).Shifted(-amount)
    {
      Shift(-amount);
    }
  }
}
