/** Bates numbering of makepdf/core/bates.py. A document is the number of its pages. */
module Bates {
  import opened Options
  import opened Decimal

  /** `s` with zeros in front up to the width. */
  function Fill(s: string, width: nat): (t: string)
    requires AllDigits(s)
    ensures AllDigits(t) && |t| == if |s| < width then width else |s|
  {
    if |s| < width then "0" + Fill(s, width - 1) else s
  }

  function Pad(n: nat, width: nat): (s: string)
    ensures AllDigits(s) && s != ""
  {
    Fill(Digits(n), width)
  }

  /** The format "0{digits}d": the sign counts towards the width. */
  function Number(n: int, digits: nat): string {
    if n >= 0 then Pad(n, digits) else "-" + Pad(-n, if digits == 0 then 0 else digits - 1)
  }

  function Label(n: int, prefix: string, suffix: string, digits: nat): string {
    prefix + Number(n, digits) + suffix
  }

  /** _format_bates with everything but the number fixed, as in one call of either program. */
  function Format(prefix: string, suffix: string, digits: nat): int -> string {
    n => Label(n, prefix, suffix, digits)
  }

  /** The labels of `count` pages numbered from `start`. */
  function Labels(start: int, count: nat, format: int -> string): (ls: seq<string>)
    ensures |ls| == count
  {
    if count == 0 then [] else Labels(start, count - 1, format) + [format(start + count - 1)]
  }

  /** Page i (from 0) gets the number start + i. */
  lemma {:induction false} LabelAt(start: int, count: nat, i: nat, format: int -> string)
    requires i < count
    ensures Labels(start, count, format)[i] == format(start + i)
    decreases count
  {
    if i < count - 1 { LabelAt(start, count - 1, i, format); }
  }

  /** Numbering goes on where it stopped. */
  lemma {:induction false} LabelsContinue(start: int, a: nat, b: nat, format: int -> string)
    ensures Labels(start, a, format) + Labels(start + a, b, format) == Labels(start, a + b, format)
    decreases b
  {
    if b > 0 { LabelsContinue(start, a, b - 1, format); }
  }

  function Total(pages: seq<nat>): nat {
    if pages == [] then 0 else Total(pages[..|pages| - 1]) + pages[|pages| - 1]
  }

  function Concat(parts: seq<seq<string>>): seq<string> {
    if parts == [] then [] else Concat(parts[..|parts| - 1]) + parts[|parts| - 1]
  }

  // ---------------------------------------------------------------- labels are distinct

  lemma ZeroInFront(s: string)
    requires AllDigits(s)
    ensures Value("0" + s) == Value(s)
  {
    var t := "0" + s;
    if s != "" {
      assert t[..|t| - 1] == "0" + s[..|s| - 1];
      ZeroInFront(s[..|s| - 1]);
    } else {
      assert t[..0] == "";
    }
  }

  lemma ValueOfFill(s: string, width: nat)
    requires AllDigits(s)
    ensures Value(Fill(s, width)) == Value(s)
  {
    if |s| < width {
      ValueOfFill(s, width - 1);
      ZeroInFront(Fill(s, width - 1));
    }
  }

  lemma ValueOfPad(n: nat, width: nat)
    ensures Value(Pad(n, width)) == n
  {
    ValueOfDigits(n);
    ValueOfFill(Digits(n), width);
  }

  /** The number that a numeric portion shows. */
  function Shown(s: string): Option<int> {
    if s != "" && s[0] == '-' && AllDigits(s[1..]) then Some(-(Value(s[1..]) as int))
    else if AllDigits(s) then Some(Value(s))
    else None
  }

  /** A numeric portion shows its number, negative ones included. */
  lemma NumberShowsItself(n: int, digits: nat)
    ensures Shown(Number(n, digits)) == Some(n)
  {
    if n >= 0 {
      ValueOfPad(n, digits);
      assert Pad(n, digits) != "" && IsDigit(Pad(n, digits)[0]);
    } else {
      var width := if digits == 0 then 0 else digits - 1;
      ValueOfPad(-n, width);
      assert Number(n, digits)[1..] == Pad(-n, width);
    }
  }

  /** It is as wide as asked for, sign included, and no wider unless the number needs it. */
  lemma NumberHasItsWidth(n: int, digits: nat)
    ensures |Number(n, digits)| == var bare := if n >= 0 then |Digits(n)| else 1 + |Digits(-n)|; if bare < digits then digits else bare
  {
  }

  /** Different numbers get different labels. */
  lemma LabelsAreDistinct(m: int, n: int, prefix: string, suffix: string, digits: nat)
    requires Label(m, prefix, suffix, digits) == Label(n, prefix, suffix, digits)
    ensures m == n
  {
    Middle(prefix, Number(m, digits), suffix);
    Middle(prefix, Number(n, digits), suffix);
    NumberShowsItself(m, digits);
    NumberShowsItself(n, digits);
  }

  lemma Middle(prefix: string, s: string, suffix: string)
    ensures (prefix + s + suffix)[|prefix|..|prefix + s + suffix| - |suffix|] == s
  {
  }

  // ---------------------------------------------------------------- lexicographic order

  predicate LexLess(a: string, b: string) {
    b != "" && (a == "" || a[0] < b[0] || (a[0] == b[0] && LexLess(a[1..], b[1..])))
  }

  lemma LexPrefix(p: string, a: string, b: string)
    ensures LexLess(p + a, p + b) <==> LexLess(a, b)
  {
    if p == "" {
      assert p + a == a && p + b == b;
    } else {
      assert (p + a)[1..] == p[1..] + a && (p + b)[1..] == p[1..] + b;
      LexPrefix(p[1..], a, b);
    }
  }

  lemma LexSuffix(a: string, b: string, x: string, y: string)
    requires |a| == |b| && LexLess(a, b)
    ensures LexLess(a + x, b + y)
  {
    assert (a + x)[1..] == a[1..] + x && (b + y)[1..] == b[1..] + y;
    if a[0] == b[0] && !(a[0] < b[0]) { LexSuffix(a[1..], b[1..], x, y); }
  }

  function Pow10(n: nat): nat {
    if n == 0 then 1 else 10 * Pow10(n - 1)
  }

  /** The last w decimal digits of n. */
  function Fixed(n: nat, w: nat): (s: string)
    ensures |s| == w
  {
    if w == 0 then "" else Fixed(n / 10, w - 1) + [Digit(n % 10)]
  }

  lemma {:induction false} FixedIsOrdered(m: nat, n: nat, w: nat)
    requires m < n < Pow10(w)
    ensures LexLess(Fixed(m, w), Fixed(n, w))
    decreases w
  {
    if m / 10 < n / 10 {
      FixedIsOrdered(m / 10, n / 10, w - 1);
      LexSuffix(Fixed(m / 10, w - 1), Fixed(n / 10, w - 1), [Digit(m % 10)], [Digit(n % 10)]);
    } else {
      assert m / 10 == n / 10;
      LexPrefix(Fixed(m / 10, w - 1), [Digit(m % 10)], [Digit(n % 10)]);
    }
  }

  lemma FillLast(s: string, c: char, width: nat)
    requires AllDigits(s) && IsDigit(c) && 1 <= width
    ensures Fill(s + [c], width) == Fill(s, width - 1) + [c]
  {
    if |s + [c]| < width { FillLast(s, c, width - 1); }
  }

  /** The number of digits of n: the w with 10^(w-1) <= n < 10^w, or 1 for 0. */
  lemma DigitsBounds(n: nat)
    ensures n < Pow10(|Digits(n)|) && (n > 0 ==> Pow10(|Digits(n)| - 1) <= n)
  {
    if n >= 10 { DigitsBounds(n / 10); }
  }

  lemma FixedZero(w: nat)
    ensures Fixed(0, w) == Fill("", w)
  {
    if w > 0 {
      FixedZero(w - 1);
      FillLast("", '0', w);
      assert "" + ['0'] == "0" && Fill("", w) == Fill("0", w);
    }
  }

  lemma {:induction false} DigitsFixed(n: nat, w: nat)
    requires |Digits(n)| <= w
    ensures Fixed(n, w) == Fill(Digits(n), w)
    decreases w
  {
    if n < 10 {
      FixedZero(w - 1);
      FillLast("", Digit(n), w);
      assert "" + [Digit(n)] == Digits(n);
    } else {
      DigitsFixed(n / 10, w - 1);
      FillLast(Digits(n / 10), Digit(n % 10), w);
    }
  }

  function Width(n: nat, digits: nat): nat {
    |Pad(n, digits)|
  }

  lemma PadIsFixed(n: nat, digits: nat)
    ensures Pad(n, digits) == Fixed(n, Width(n, digits)) && n < Pow10(Width(n, digits))
  {
    DigitsBounds(n);
    DigitsFixed(n, Width(n, digits));
    PowGrows(|Digits(n)|, Width(n, digits));
  }

  lemma PowGrows(a: nat, b: nat)
    requires a <= b
    ensures Pow10(a) <= Pow10(b)
    decreases b
  {
    if a < b { PowGrows(a, b - 1); }
  }

  lemma {:induction false} LongerIsGreater(m: nat, n: nat)
    requires |Digits(m)| < |Digits(n)|
    ensures m < n
  {
    DigitsBounds(m);
    DigitsBounds(n);
    PowGrows(|Digits(m)|, |Digits(n)| - 1);
  }

  lemma WidthGrows(m: nat, n: nat, digits: nat)
    requires m <= n
    ensures Width(m, digits) <= Width(n, digits)
  {
    if |Digits(n)| < |Digits(m)| { LongerIsGreater(n, m); }
  }

  lemma SameWidthInOrder(m: nat, n: nat, prefix: string, suffix: string, digits: nat)
    requires m < n && Width(m, digits) == Width(n, digits)
    ensures LexLess(Label(m, prefix, suffix, digits), Label(n, prefix, suffix, digits))
  {
    PadIsFixed(m, digits);
    PadIsFixed(n, digits);
    FixedIsOrdered(m, n, Width(n, digits));
    LexSuffix(Pad(m, digits), Pad(n, digits), suffix, suffix);
    LexPrefix(prefix, Pad(m, digits) + suffix, Pad(n, digits) + suffix);
    assert prefix + (Pad(m, digits) + suffix) == Label(m, prefix, suffix, digits);
    assert prefix + (Pad(n, digits) + suffix) == Label(n, prefix, suffix, digits);
  }

  lemma PowerDigits(w: nat)
    requires w >= 1
    ensures Pow10(w) >= 10
    ensures |Digits(Pow10(w) - 1)| == w && Digits(Pow10(w) - 1)[0] == '9'
    ensures |Digits(Pow10(w))| == w + 1 && Digits(Pow10(w))[0] == '1'
  {
    if w == 1 {
      assert Digits(10) == Digits(1) + [Digit(0)];
    } else {
      PowerDigits(w - 1);
      assert (Pow10(w) - 1) / 10 == Pow10(w - 1) - 1 && Pow10(w) / 10 == Pow10(w - 1);
    }
  }

  lemma HeadsDecide(prefix: string, p: string, q: string, suffix: string)
    requires p != "" && q != "" && p[0] > q[0]
    ensures !LexLess(prefix + p + suffix, prefix + q + suffix)
  {
    var a, b := p + suffix, q + suffix;
    assert a[0] == p[0] && b[0] == q[0];
    LexPrefix(prefix, a, b);
    assert prefix + a == prefix + p + suffix && prefix + b == prefix + q + suffix;
  }

  lemma WiderIsOutOfOrder(w: nat, prefix: string, suffix: string, digits: nat)
    requires 1 <= w && digits <= w
    ensures Pow10(w) >= 1
    ensures !LexLess(Label(Pow10(w) - 1, prefix, suffix, digits), Label(Pow10(w), prefix, suffix, digits))
  {
    PowerDigits(w);
    HeadsDecide(prefix, Digits(Pow10(w) - 1), Digits(Pow10(w)), suffix);
  }

  lemma NonnegativeOrder(start: nat, last: nat, prefix: string, suffix: string, digits: nat)
    requires start <= last
    ensures InOrder(start, last, prefix, suffix, digits) <==> Width(start, digits) == Width(last, digits)
  {
    if Width(start, digits) == Width(last, digits) {
      forall m: int, n: int | start <= m < n <= last
        ensures LexLess(Label(m, prefix, suffix, digits), Label(n, prefix, suffix, digits))
      {
        WidthGrows(start, m, digits);
        WidthGrows(m, n, digits);
        WidthGrows(n, last, digits);
        SameWidthInOrder(m, n, prefix, suffix, digits);
      }
    } else {
      var w := Width(start, digits);
      WidthGrows(start, last, digits);
      DigitsBounds(last);
      PadIsFixed(start, digits);
      PowGrows(w, |Digits(last)| - 1);
      WiderIsOutOfOrder(w, prefix, suffix, digits);
      assert start <= Pow10(w) - 1 < Pow10(w) <= last;
    }
  }

  /** The labels of the numbers from start to last sort in page order. */
  ghost predicate InOrder(start: int, last: int, prefix: string, suffix: string, digits: nat) {
    forall m: int, n: int :: start <= m < n <= last ==> LexLess(Label(m, prefix, suffix, digits), Label(n, prefix, suffix, digits))
  }

  /** The width of the digits of a negative number, after its sign. */
  function BareWidth(digits: nat): nat {
    if digits == 0 then 0 else digits - 1
  }

  lemma NegativeLabel(n: int, prefix: string, suffix: string, digits: nat)
    requires n < 0
    ensures Label(n, prefix, suffix, digits) == Label(-n, prefix + "-", suffix, BareWidth(digits))
  {
    var p := Pad(-n, BareWidth(digits));
    assert Number(n, digits) == "-" + p && Number(-n, BareWidth(digits)) == p;
    assert prefix + ("-" + p) + suffix == (prefix + "-") + p + suffix;
  }

  /** A minus sign sorts before every digit. */
  lemma NegativeFirst(m: int, n: nat, prefix: string, suffix: string, digits: nat)
    requires m < 0
    ensures LexLess(Label(m, prefix, suffix, digits), Label(n, prefix, suffix, digits))
  {
    assert Number(m, digits)[0] == '-' && IsDigit(Number(n, digits)[0]);
    HeadsInOrder(prefix, Number(m, digits), Number(n, digits), suffix);
  }

  lemma LexAsymmetric(a: string, b: string)
    requires LexLess(a, b)
    ensures !LexLess(b, a)
  {
    if a != "" && a[0] == b[0] { LexAsymmetric(a[1..], b[1..]); }
  }

  /** Two negative numbers of the same width sort the wrong way round. */
  lemma NegativesReversed(m: int, n: int, prefix: string, suffix: string, digits: nat)
    requires m < n < 0 && Width(-m, BareWidth(digits)) == Width(-n, BareWidth(digits))
    ensures !LexLess(Label(m, prefix, suffix, digits), Label(n, prefix, suffix, digits))
  {
    SameWidthInOrder(-n, -m, prefix + "-", suffix, BareWidth(digits));
    NegativeLabel(m, prefix, suffix, digits);
    NegativeLabel(n, prefix, suffix, digits);
    LexAsymmetric(Label(n, prefix, suffix, digits), Label(m, prefix, suffix, digits));
  }

  /** Where the width of the digits changes they sort the right way round: 10^w comes before 10^w - 1. */
  lemma WidthDrops(k: nat, digits: nat)
    requires k >= 1 && Width(k, digits) < Width(k + 1, digits)
    ensures exists w: nat :: w >= 1 && digits <= w && k + 1 == Pow10(w)
    ensures digits <= |Digits(k)| && digits <= |Digits(k + 1)| && Digits(k + 1)[0] == '1' && Digits(k)[0] == '9'
  {
    var w := |Digits(k)|;
    DigitsBounds(k);
    DigitsBounds(k + 1);
    if k + 1 < Pow10(w) { PowGrows(w, |Digits(k + 1)| - 1); }
    assert k + 1 == Pow10(w);
    PowerDigits(w);
  }

  lemma DropInOrder(k: int, prefix: string, suffix: string, digits: nat)
    requires k >= 1 && Width(k, BareWidth(digits)) < Width(k + 1, BareWidth(digits))
    ensures LexLess(Label(-(k + 1), prefix, suffix, digits), Label(-k, prefix, suffix, digits))
  {
    WidthDrops(k, BareWidth(digits));
    NegativeLabel(-k, prefix, suffix, digits);
    NegativeLabel(-(k + 1), prefix, suffix, digits);
    HeadsInOrder(prefix + "-", Digits(k + 1), Digits(k), suffix);
  }

  lemma HeadsInOrder(prefix: string, p: string, q: string, suffix: string)
    requires p != "" && q != "" && p[0] < q[0]
    ensures LexLess(prefix + p + suffix, prefix + q + suffix)
  {
    assert (p + suffix)[0] == p[0] && (q + suffix)[0] == q[0];
    LexPrefix(prefix, p + suffix, q + suffix);
    assert prefix + (p + suffix) == prefix + p + suffix && prefix + (q + suffix) == prefix + q + suffix;
  }

  /** The exact condition. From a start of at least 0: the first and the last number have the same width;
      from -1: 0 and the last number have; from further below only one page, or the two pages of -10^w and
      -10^w + 1 when the digits get fewer. */
  predicate SortsInOrder(start: int, last: int, digits: nat)
    requires start <= last
  {
    if start == last then true
    else if start >= 0 then Width(start, digits) == Width(last, digits)
    else if start == -1 then Width(0, digits) == Width(last, digits)
    else last == start + 1 && Width(-last, BareWidth(digits)) < Width(-start, BareWidth(digits))
  }

  /** The labels of pages numbered start to last sort in page order if and only if SortsInOrder. */
  lemma LabelOrderIsPageOrder(start: int, last: int, prefix: string, suffix: string, digits: nat)
    requires start <= last
    ensures InOrder(start, last, prefix, suffix, digits) <==> SortsInOrder(start, last, digits)
  {
    if start >= 0 {
      NonnegativeOrder(start, last, prefix, suffix, digits);
    } else if start == -1 {
      if last >= 0 {
        NonnegativeOrder(0, last, prefix, suffix, digits);
        forall n: int | 0 <= n <= last ensures LexLess(Label(-1, prefix, suffix, digits), Label(n, prefix, suffix, digits)) {
          NegativeFirst(-1, n, prefix, suffix, digits);
        }
      }
    } else if start < last {
      NegativeOrder(start, last, prefix, suffix, digits);
    }
  }

  /** Two pages with negative numbers. */
  lemma TwoNegatives(start: int, prefix: string, suffix: string, digits: nat)
    requires start < -1
    ensures LexLess(Label(start, prefix, suffix, digits), Label(start + 1, prefix, suffix, digits)) <==>
            Width(-(start + 1), BareWidth(digits)) < Width(-start, BareWidth(digits))
  {
    WidthGrows(-(start + 1), -start, BareWidth(digits));
    if Width(-(start + 1), BareWidth(digits)) == Width(-start, BareWidth(digits)) {
      NegativesReversed(start, start + 1, prefix, suffix, digits);
    } else {
      DropInOrder(-(start + 1), prefix, suffix, digits);
    }
  }

  lemma NegativeOrder(start: int, last: int, prefix: string, suffix: string, digits: nat)
    requires start < last && start < -1
    ensures InOrder(start, last, prefix, suffix, digits) <==> SortsInOrder(start, last, digits)
  {
    TwoNegatives(start, prefix, suffix, digits);
    if last > start + 1 && Width(-(start + 1), BareWidth(digits)) < Width(-start, BareWidth(digits)) {
      OnlyOneDrop(-start, BareWidth(digits));
      TwoNegatives(start + 1, prefix, suffix, digits);
    }
  }

  /** Below 10^w the digits get fewer only once in a row. */
  lemma OnlyOneDrop(k: nat, digits: nat)
    requires k >= 2 && Width(k - 1, digits) < Width(k, digits)
    ensures k >= 10 && Width(k - 2, digits) == Width(k - 1, digits)
  {
    WidthGrows(k - 2, k - 1, digits);
    if Width(k - 2, digits) < Width(k - 1, digits) {
      WidthDrops(k - 2, digits);
      var v: nat :| v >= 1 && digits <= v && k - 1 == Pow10(v);
      MultipleOfTen(v);
    }
    WidthDrops(k - 1, digits);
    var w: nat :| w >= 1 && digits <= w && k == Pow10(w);
    MultipleOfTen(w);
  }

  lemma MultipleOfTen(w: nat)
    requires w >= 1
    ensures Pow10(w) >= 10 && Pow10(w) % 10 == 0
  {
    PowGrows(0, w - 1);
    assert Pow10(w) == 10 * Pow10(w - 1);
  }

  lemma WidthWithinDigits(n: nat, digits: nat)
    requires n < Pow10(digits)
    ensures Width(n, digits) == Width(0, digits)
  {
    DigitsBounds(n);
    if |Digits(n)| > digits { PowGrows(digits, |Digits(n)| - 1); }
  }

  /** In particular from -1 on while the last number is below 10^digits. */
  lemma OrderedWithinDigits(start: int, last: int, prefix: string, suffix: string, digits: nat)
    requires -1 <= start <= last < Pow10(digits)
    ensures InOrder(start, last, prefix, suffix, digits)
  {
    if last >= 0 { WidthWithinDigits(last, digits); }
    if start >= 0 { WidthWithinDigits(start, digits); }
    LabelOrderIsPageOrder(start, last, prefix, suffix, digits);
  }

  // ---------------------------------------------------------------- the two programs

  const POSITIONS := {"bottom-left", "bottom-center", "bottom-right", "top-left", "top-center", "top-right"}

  datatype Stamped<T> = Stamps(labels: T) | InputError

  /** add_bates_numbers: one label per page, counting up from `start`. */
  method AddBatesNumbers(pages: nat, prefix: string, suffix: string, start: int, digits: nat, position: string)
    returns (r: Stamped<seq<string>>)
    ensures r == if position in POSITIONS then Stamps(Labels(start, pages, Format(prefix, suffix, digits))) else InputError
    ensures r.Stamps? ==> |r.labels| == pages && forall i :: 0 <= i < pages ==> r.labels[i] == prefix + Number(start + i, digits) + suffix
  {
    if position !in POSITIONS {
      return InputError;
    }
    var labels, next := StampPages(start, pages, Format(prefix, suffix, digits));
    forall i | 0 <= i < pages ensures labels[i] == prefix + Number(start + i, digits) + suffix {
      LabelAt(start, pages, i, Format(prefix, suffix, digits));
    }
    return Stamps(labels);
  }

  /** The page loop that both programs contain. */
  method StampPages(start: int, pages: nat, format: int -> string) returns (labels: seq<string>, currentNumber: int)
    ensures labels == Labels(start, pages, format) && currentNumber == start + pages
  {
    currentNumber := start;
    labels := [];
    for page := 0 to pages
      invariant currentNumber == start + page && labels == Labels(start, page, format)
    {
      labels := labels + [format(currentNumber)];
      currentNumber := currentNumber + 1;
    }
  }

  /** add_bates_to_batch: the labels of the files, one after the other, are those of the single document
      that has all their pages, and each file gets as many as it has pages. */
  method AddBatesToBatch(files: seq<nat>, prefix: string, suffix: string, start: int, digits: nat, position: string)
    returns (r: Stamped<seq<seq<string>>>)
    ensures r.InputError? <==> files == [] || position !in POSITIONS
    ensures r.Stamps? ==> |r.labels| == |files| && forall f :: 0 <= f < |files| ==> |r.labels[f]| == files[f]
    ensures r.Stamps? ==> Concat(r.labels) == Labels(start, Total(files), Format(prefix, suffix, digits))
  {
    if files == [] || position !in POSITIONS {
      return InputError;
    }
    var outputs := StampFiles(files, start, Format(prefix, suffix, digits));
    assert files[..|files|] == files;
    return Stamps(outputs);
  }

  /** The first f files are numbered as one document. */
  predicate Numbered(files: seq<nat>, f: nat, outputs: seq<seq<string>>, start: int, format: int -> string)
    requires f <= |files|
  {
    && |outputs| == f && (forall i :: 0 <= i < f ==> |outputs[i]| == files[i])
    && Concat(outputs) == Labels(start, Total(files[..f]), format)
  }

  lemma NextFile(files: seq<nat>, f: nat, outputs: seq<seq<string>>, labels: seq<string>, start: int, format: int -> string)
    requires f < |files| && Numbered(files, f, outputs, start, format)
    requires labels == Labels(start + Total(files[..f]), files[f], format) && |labels| == files[f]
    ensures Total(files[..f + 1]) == Total(files[..f]) + files[f]
    ensures Numbered(files, f + 1, outputs + [labels], start, format)
  {
    TotalGrows(files, f);
    assert (outputs + [labels])[..|outputs|] == outputs;
    LabelsContinue(start, Total(files[..f]), files[f], format);
  }

  lemma TotalGrows(files: seq<nat>, f: nat)
    requires f < |files|
    ensures Total(files[..f + 1]) == Total(files[..f]) + files[f]
  {
    assert files[..f + 1][..f] == files[..f];
  }

  method StampFiles(files: seq<nat>, start: int, format: int -> string) returns (outputs: seq<seq<string>>)
    ensures Numbered(files, |files|, outputs, start, format)
  {
    var currentNumber := start;
    outputs := [];
    for f := 0 to |files|
      invariant Numbered(files, f, outputs, start, format)
      invariant currentNumber == start + Total(files[..f])
    {
      var labels, next := StampPages(currentNumber, files[f], format);
      NextFile(files, f, outputs, labels, start, format);
      outputs, currentNumber := outputs + [labels], next;
    }
  }
}
