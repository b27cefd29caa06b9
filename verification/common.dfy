/** Shared vocabulary of the model: optional values (a nullable column or an
    absent request field), record identifiers, timestamps in milliseconds, and
    the small arithmetic the models and helpers share (the floor at zero applied
    by every pool update, absolute value, ceiling division, message joining). */
module Common {

  /** A nullable column, an optional argument, or a request field that may be absent. */
  datatype Option<+T> = None | Some(value: T)

  /** Record identifiers are UUID strings. */
  type Id = string

  /** Milliseconds in one day and in one minute. */
  const DayMs: int := 24 * 60 * 60 * 1000
  const MinuteMs: int := 60 * 1000

  /** JavaScript truthiness of an optional text argument: `null`, `undefined`
      and the empty string are all falsy. */
  predicate Given(s: Option<string>) {
    s.Some? && s.value != ""
  }

  /** `Math.max(0, x)`: the floor that keeps a pool from going negative. */
  function FloorAtZero(x: real): (r: real)
    ensures r >= 0.0 && r >= x
    ensures r == x || r == 0.0
  {
    if x < 0.0 then 0.0 else x
  }

  /** `Math.abs(x)`. */
  function Abs(x: real): (r: real)
    ensures r >= 0.0
    ensures r == x || r == -x
  {
    if x < 0.0 then -x else x
  }

  /** `Math.ceil(a / b)` for a positive divisor. Dafny's division is Euclidean,
      so the ceiling is the negated floor of the negated dividend. */
  function CeilDiv(a: int, b: int): (q: int)
    requires b > 0
    ensures (q - 1) * b < a <= q * b
  {
    var f := (-a) / b;
    var m := (-a) % b;
    assert -a == f * b + m && 0 <= m < b;
    assert -f * b == a + m;
    assert (-f - 1) * b == a + m - b;
    -f
  }

  /** `xs.map(f)`: the image of every element, in order. */
  function MapSeq<T, U>(xs: seq<T>, f: T -> U): (ys: seq<U>)
    ensures |ys| == |xs|
    ensures forall i :: 0 <= i < |xs| ==> ys[i] == f(xs[i])
  {
    if |xs| == 0 then [] else [f(xs[0])] + MapSeq(xs[1..], f)
  }

  /** `Array.prototype.join`. */
  function Join(parts: seq<string>, sep: string): (r: string)
    ensures |parts| == 0 ==> r == ""
    ensures |parts| == 1 ==> r == parts[0]
    ensures |parts| > 0 ==> |parts[0]| <= |r| && r[..|parts[0]|] == parts[0]
  {
    if |parts| == 0 then ""
    else if |parts| == 1 then parts[0]
    else parts[0] + sep + Join(parts[1..], sep)
  }

  /** The integers from `lo` up to but not including `hi`. */
  function Range(lo: int, hi: int): (s: set<int>)
    ensures forall m :: m in s <==> lo <= m < hi
    decreases hi - lo
  {
    if lo >= hi then {} else {lo} + Range(lo + 1, hi)
  }

  lemma {:induction false} RangeSize(lo: int, hi: int)
    requires lo <= hi
    ensures |Range(lo, hi)| == hi - lo
    decreases hi - lo
  {
    if lo < hi {
      RangeSize(lo + 1, hi);
      assert lo !in Range(lo + 1, hi);
    }
  }

  /** Removing the top of a range leaves the range below it. */
  lemma RangeTop(a: set<int>, lo: int, hi: int)
    requires lo < hi
    requires a <= Range(lo, hi)
    ensures a - {hi - 1} <= Range(lo, hi - 1)
    ensures Range(lo, hi) == Range(lo, hi - 1) + {hi - 1}
  {
  }

  /** A subset of a range is no larger than the range. */
  lemma {:induction false} SubrangeSize(a: set<int>, lo: int, hi: int)
    requires lo <= hi
    requires a <= Range(lo, hi)
    ensures |a| <= hi - lo
    decreases hi - lo
  {
    if lo < hi {
      var x := hi - 1;
      RangeTop(a, lo, hi);
      SubrangeSize(a - {x}, lo, x);
      assert |a - {x}| >= |a| - 1 by {
        if x in a {
          assert |a - {x}| == |a| - |{x}|;
        } else {
          assert a - {x} == a;
        }
      }
    } else {
      assert a == {};
    }
  }

  /** A subset of a range as large as the range is the whole range. */
  lemma {:induction false} FullSubrange(a: set<int>, lo: int, hi: int)
    requires lo <= hi
    requires a <= Range(lo, hi)
    requires |a| == hi - lo
    ensures a == Range(lo, hi)
    decreases hi - lo
  {
    if lo < hi {
      var x := hi - 1;
      RangeTop(a, lo, hi);
      if x in a {
        assert a == (a - {x}) + {x};
        FullSubrange(a - {x}, lo, x);
      } else {
        assert a <= Range(lo, x);
        SubrangeSize(a, lo, x);
        assert false;
      }
    } else {
      assert a == {};
    }
  }
}
