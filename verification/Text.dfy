/** Cutting strings at a separator. */
module Text {
  /** The part of `s` before the first `c`, or all of it. */
  function Before(s: string, c: char): string {
    if s == "" || s[0] == c then "" else [s[0]] + Before(s[1..], c)
  }

  /** The part of `s` after the last `c`, or all of it. */
  function AfterLast(s: string, c: char): string {
    if s == "" || s[|s| - 1] == c then "" else AfterLast(s[..|s| - 1], c) + [s[|s| - 1]]
  }

  lemma {:induction false} BeforeJoin(a: string, c: char, s: string)
    requires c !in a
    ensures Before(a + [c] + s, c) == a
    decreases |a|
  {
    if a != "" {
      assert (a + [c] + s)[1..] == a[1..] + [c] + s;
      BeforeJoin(a[1..], c, s);
    }
  }

  lemma {:induction false} AfterLastJoin(s: string, c: char, a: string)
    requires c !in a
    ensures AfterLast(s + [c] + a, c) == a
    decreases |a|
  {
    var x := s + [c] + a;
    if a != "" {
      assert x[..|x| - 1] == s + [c] + a[..|a| - 1];
      AfterLastJoin(s, c, a[..|a| - 1]);
    }
  }

  /** A first part without the separator can be read back. */
  lemma SplitFirst(a: string, s: string, b: string, t: string, c: char)
    requires c !in a && c !in b && a + [c] + s == b + [c] + t
    ensures a == b && s == t
  {
    BeforeJoin(a, c, s);
    BeforeJoin(b, c, t);
    assert s == (a + [c] + s)[|a| + 1..];
    assert t == (b + [c] + t)[|b| + 1..];
  }

  /** A last part without the separator can be read back. */
  lemma SplitLast(s: string, a: string, t: string, b: string, c: char)
    requires c !in a && c !in b && s + [c] + a == t + [c] + b
    ensures a == b && s == t
  {
    AfterLastJoin(s, c, a);
    AfterLastJoin(t, c, b);
    assert |s| == |t|;
    assert s == (s + [c] + a)[..|s|];
    assert t == (t + [c] + b)[..|t|];
  }
}
