/** The string operations the aggregation uses: the substring test `sub in s`, the
    four-character prefix `date[:4]` and the integer conversion `int(s)`. */
module Text {
  import opened Wrappers

  /** `sub` occurs inside `s` starting at position `i`. */
  predicate OccursAt(sub: string, s: string, i: int)
  {
    0 <= i <= |s| - |sub| && s[i..i + |sub|] == sub
  }

  /** `sub` occurs somewhere inside `s`. */
  ghost predicate Occurs(sub: string, s: string)
  {
    exists i :: OccursAt(sub, s, i)
  }

  /** Python's `sub in s`: tries every start position from the left. */
  function Contains(s: string, sub: string): (r: bool)
    ensures r <==> Occurs(sub, s)
    decreases |s|
  {
    if sub <= s then
      assert OccursAt(sub, s, 0);
      true
    else if |s| == 0 then
      false
    else
      var r := Contains(s[1..], sub);
      assert r ==> Occurs(sub, s) by {
        if r {
          var i :| OccursAt(sub, s[1..], i);
          assert s[i + 1..i + 1 + |sub|] == s[1..][i..i + |sub|];
          assert OccursAt(sub, s, i + 1);
        }
      }
      assert Occurs(sub, s) ==> r by {
        if Occurs(sub, s) {
          var i :| OccursAt(sub, s, i);
          if i > 0 {
            assert s[1..][i - 1..i - 1 + |sub|] == s[i..i + |sub|];
            assert OccursAt(sub, s[1..], i - 1);
          }
        }
      }
      r
  }

  /** Python's `date[:4]`: the first four characters, or the whole string if it is shorter. */
  function YearPrefix(date: string): (y: string)
    ensures y <= date
    ensures |y| == if |date| < 4 then |date| else 4
  {
    if |date| < 4 then date else date[..4]
  }

  predicate IsDigit(c: char)
  {
    '0' <= c <= '9'
  }

  predicate AllDigits(s: string)
  {
    forall i | 0 <= i < |s| :: IsDigit(s[i])
  }

  function Pow10(n: nat): nat
  {
    if n == 0 then 1 else 10 * Pow10(n - 1)
  }

  /** The decimal value of a string of digits, most significant digit first. */
  function DigitsValue(s: string): (v: nat)
    requires AllDigits(s)
    ensures v < Pow10(|s|)
  {
    if |s| == 0 then 0
    else
      var rest := DigitsValue(s[..|s| - 1]);
      var d := (s[|s| - 1] as int) - ('0' as int);
      assert 10 * rest + d < 10 * Pow10(|s| - 1) by {
        assert rest + 1 <= Pow10(|s| - 1);
      }
      10 * rest + d
  }

  /** Python's `int(s)` on a year prefix: `None` where Python raises `ValueError`. */
  function ParseInt(s: string): (r: Option<int>)
    ensures r.Some? <==> |s| > 0 && AllDigits(s)
    ensures r.Some? ==> 0 <= r.value < Pow10(|s|)
  {
    if |s| > 0 && AllDigits(s) then Some(DigitsValue(s)) else None
  }
}
