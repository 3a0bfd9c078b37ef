/** Arithmetic over finite sequences of readings, and Python's slice operator. */
module SeqMath {

  /** Python's built-in `sum`: accumulates from the left, starting at 0. */
  function Sum(s: seq<real>): real
  {
    if |s| == 0 then 0.0 else Sum(s[..|s| - 1]) + s[|s| - 1]
  }

  /** The arithmetic mean `sum(s) / len(s)`; Python raises on an empty list, so it is
      only defined for a non-empty one. */
  function Mean(s: seq<real>): real
    requires |s| > 0
  {
    Sum(s) / (|s| as real)
  }

  /** `sum` distributes over concatenation: summing two lists one after the other is
      summing them separately and adding the totals. */
  lemma {:induction false} SumConcat(s: seq<real>, t: seq<real>)
    ensures Sum(s + t) == Sum(s) + Sum(t)
    decreases |t|
  {
    if |t| == 0 {
      assert s + t == s;
    } else {
      assert (s + t)[..|s + t| - 1] == s + t[..|t| - 1];
      SumConcat(s, t[..|t| - 1]);
    }
  }

  /** A sum lies between its length times any lower bound and times any upper bound of
      its elements. */
  lemma {:induction false} SumWithinBounds(s: seq<real>, lo: real, hi: real)
    requires forall i | 0 <= i < |s| :: lo <= s[i] <= hi
    ensures (|s| as real) * lo <= Sum(s) <= (|s| as real) * hi
  {
    if |s| > 0 {
      SumWithinBounds(s[..|s| - 1], lo, hi);
    }
  }

  /** A mean lies between any lower and any upper bound of the values averaged. */
  lemma MeanWithinBounds(s: seq<real>, lo: real, hi: real)
    requires |s| > 0
    requires forall i | 0 <= i < |s| :: lo <= s[i] <= hi
    ensures lo <= Mean(s) <= hi
  {
    SumWithinBounds(s, lo, hi);
    var n := |s| as real;
    assert Mean(s) * n == Sum(s);
  }

  lemma SumSingle(a: real)
    ensures Sum([a]) == a
  {
    assert [a][..0] == [];
  }

  lemma SumPair(a: real, b: real)
    ensures Sum([a, b]) == a + b
  {
    SumSingle(a);
    SumSingle(b);
    SumConcat([a], [b]);
    assert [a] + [b] == [a, b];
  }

  lemma SumOfThree(a: real, b: real, c: real)
    ensures Sum([a, b, c]) == a + b + c
  {
    SumPair(a, b);
    SumSingle(c);
    SumConcat([a, b], [c]);
    assert [a, b] + [c] == [a, b, c];
  }

  lemma SumOfFour(a: real, b: real, c: real, d: real)
    ensures Sum([a, b, c, d]) == a + b + c + d
  {
    SumPair(a, b);
    SumPair(c, d);
    SumConcat([a, b], [c, d]);
    assert [a, b] + [c, d] == [a, b, c, d];
  }

  /** Where Python's slice bound `i` lands in a list of length `n`: a negative bound
      counts from the end, and the result is clamped to `[0, n]`. */
  function SliceBound(i: int, n: nat): (b: nat)
    ensures b <= n
    ensures 0 <= i <= n ==> b == i
  {
    if i < 0 then (if i + n < 0 then 0 else i + n)
    else if i > n then n
    else i
  }

  /** Python's `s[lo:hi]` (step 1): empty when the normalised bounds cross. */
  function PySlice<T>(s: seq<T>, lo: int, hi: int): seq<T>
  {
    var a, b := SliceBound(lo, |s|), SliceBound(hi, |s|);
    if a < b then s[a..b] else []
  }

  /** For bounds inside the list, Python's slice is Dafny's subsequence. */
  lemma PySliceInBounds<T>(s: seq<T>, lo: int, hi: int)
    requires 0 <= lo <= hi <= |s|
    ensures PySlice(s, lo, hi) == s[lo..hi]
  {
  }
}
