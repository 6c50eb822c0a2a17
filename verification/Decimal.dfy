/** Decimal text of integers. */
module Decimal {
  import opened Options

  predicate IsDigit(c: char) {
    '0' <= c <= '9'
  }

  predicate AllDigits(s: string) {
    forall i :: 0 <= i < |s| ==> IsDigit(s[i])
  }

  function Digit(d: nat): (c: char)
    requires d < 10
    ensures IsDigit(c) && DigitValue(c) == d
  {
    '0' + d as char
  }

  function DigitValue(c: char): nat
    requires IsDigit(c)
  {
    (c - '0') as nat
  }

  function Digits(n: nat): (s: string)
    ensures s != "" && AllDigits(s)
  {
    if n < 10 then [Digit(n)] else Digits(n / 10) + [Digit(n % 10)]
  }

  function Value(s: string): nat
    requires AllDigits(s)
  {
    if s == "" then 0 else 10 * Value(s[..|s| - 1]) + DigitValue(s[|s| - 1])
  }

  lemma ValueOfDigits(n: nat)
    ensures Value(Digits(n)) == n
  {
    if n >= 10 {
      assert Digits(n)[..|Digits(n)| - 1] == Digits(n / 10);
      ValueOfDigits(n / 10);
    }
  }

  // ---------------------------------------------------------------- Python's int()

  const BLANKS := {' ', '\t', '\n', '\r'}

  function Strip(s: string): string {
    if s != "" && s[0] in BLANKS then Strip(s[1..])
    else if s != "" && s[|s| - 1] in BLANKS then Strip(s[..|s| - 1])
    else s
  }

  /** Digits, with single underscores allowed between them. */
  predicate Grouped(s: string) {
    s != "" && forall i :: 0 <= i < |s| ==>
                             IsDigit(s[i]) || (s[i] == '_' && 0 < i < |s| - 1 && IsDigit(s[i - 1]) && IsDigit(s[i + 1]))
  }

  function Compact(s: string): string {
    if s == "" then "" else Compact(s[..|s| - 1]) + if s[|s| - 1] == '_' then "" else [s[|s| - 1]]
  }

  function ParseInt(s: string): Option<int> {
    var t := Strip(s);
    var body := if t != "" && t[0] in {'+', '-'} then t[1..] else t;
    if Grouped(body) && AllDigits(Compact(body)) then
      Some(if t[0] == '-' then -(Value(Compact(body)) as int) else Value(Compact(body)))
    else None
  }

  lemma CompactDigits(s: string)
    requires AllDigits(s)
    ensures Compact(s) == s
  {
    if s != "" {
      CompactDigits(s[..|s| - 1]);
      assert s == s[..|s| - 1] + [s[|s| - 1]];
    }
  }

  /** int() reads back what was printed. */
  lemma ParseDigits(n: nat)
    ensures ParseInt(Digits(n)) == Some(n)
  {
    var s := Digits(n);
    assert IsDigit(s[0]) && IsDigit(s[|s| - 1]);
    assert Strip(s) == s;
    CompactDigits(s);
    ValueOfDigits(n);
  }
}
