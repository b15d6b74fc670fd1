/**
 * Vocabulary for stating what a piece of markup contains: how often a
 * character occurs, whether a text occurs, and whether one text occurs
 * before another.
 */
module Text {

  /** The number of occurrences of `c` in `s`. */
  function Count(c: char, s: string): (n: nat)
    ensures n <= |s|
    ensures n == 0 <==> c !in s
  {
    if s == [] then 0
    else (if s[0] == c then 1 else 0) + Count(c, s[1..])
  }

  lemma {:induction false} CountAppend(c: char, a: string, b: string)
    ensures Count(c, a + b) == Count(c, a) + Count(c, b)
  {
    if a == [] {
      assert a + b == b;
    } else {
      assert (a + b)[1..] == a[1..] + b;
      CountAppend(c, a[1..], b);
    }
  }

  /** `w` occurs in `s` as a contiguous piece. */
  predicate Contains(s: string, w: string) {
    exists i :: 0 <= i <= |s| && w <= s[i..]
  }

  /** `u` occurs in `s` and `v` occurs later, starting after the end of that `u`. */
  predicate Precedes(s: string, u: string, v: string) {
    exists i, j :: 0 <= i && i + |u| <= j <= |s| && u <= s[i..] && v <= s[j..]
  }

  lemma PrecedesMiddle(a: string, u: string, b: string, v: string, c: string)
    ensures Precedes(a + u + b + v + c, u, v)
  {
    var s := a + u + b + v + c;
    assert s[|a|..] == u + b + v + c;
    assert s[|a + u + b|..] == v + c;
  }

  lemma ContainsMiddle(a: string, w: string, b: string)
    ensures Contains(a + w + b, w)
  {
    var s := a + w + b;
    assert s[|a|..] == w + b;
  }

}
