/**
 * The string primitives the SFEN codec relies on: JavaScript's white space
 * (the `\s` of a regular expression and `String.prototype.trim`), digits and
 * letters, decimal numbers as `String(n)` writes them and `+s` reads them,
 * `split` on one character, and maximal runs of one character class, the
 * building block of the hand-written scanners that replace the regular
 * expressions.
 */
module Text {

  /** JavaScript's white space and line terminators. */
  predicate IsSpace(ch: char)
  {
    var n := ch as int;
    (9 <= n <= 13) || n == 0x20 || n == 0xA0 || n == 0x1680 || (0x2000 <= n <= 0x200A) ||
    n == 0x2028 || n == 0x2029 || n == 0x202F || n == 0x205F || n == 0x3000 || n == 0xFEFF
  }

  predicate IsDigit(ch: char) { '0' <= ch <= '9' }
  predicate IsLetter(ch: char) { 'a' <= ch <= 'z' || 'A' <= ch <= 'Z' }
  predicate IsAlnum(ch: char) { IsLetter(ch) || IsDigit(ch) }

  predicate AllDigits(s: string) { forall i :: 0 <= i < |s| ==> IsDigit(s[i]) }

  function DigitValue(ch: char): nat
    requires IsDigit(ch)
  {
    ch as int - '0' as int
  }

  function DigitToChar(d: nat): (ch: char)
    requires d < 10
    ensures IsDigit(ch) && DigitValue(ch) == d
  {
    "0123456789"[d]
  }

  /** `String(n)` for a natural number: its decimal digits, no leading zero. */
  function NatToString(n: nat): (s: string)
    ensures |s| >= 1 && AllDigits(s)
    ensures n >= 1 ==> s[0] != '0'
    decreases n
  {
    if n < 10 then [DigitToChar(n)] else NatToString(n / 10) + [DigitToChar(n % 10)]
  }

  /** `String(n)` for any integer. */
  function IntToString(n: int): string
  {
    if n < 0 then "-" + NatToString(-n) else NatToString(n)
  }

  /** `+s` for a string of decimal digits (the empty string reads 0). */
  function DecimalValue(s: string): nat
    requires AllDigits(s)
  {
    if s == [] then 0 else DecimalValue(s[..|s| - 1]) * 10 + DigitValue(s[|s| - 1])
  }

  lemma {:induction false} DecimalOfNatToString(n: nat)
    ensures DecimalValue(NatToString(n)) == n
    decreases n
  {
    var s := NatToString(n);
    if n >= 10 {
      DecimalOfNatToString(n / 10);
      assert s[..|s| - 1] == NatToString(n / 10);
    }
  }

  /** A one-digit count is written as one character. */
  lemma SmallNatToString(n: nat)
    requires n < 10
    ensures NatToString(n) == [DigitToChar(n)]
  {
  }

  lemma ConcatAssoc(a: string, b: string, c: string)
    ensures (a + b) + c == a + (b + c)
  {
  }

  /** `s.split(sep)`: the pieces between separators, empty ones included. */
  function Split(s: string, sep: char): (parts: seq<string>)
    ensures |parts| >= 1
    decreases |s|
  {
    if s == [] then [[]]
    else
      var rest := Split(s[1..], sep);
      if s[0] == sep then [[]] + rest else [[s[0]] + rest[0]] + rest[1..]
  }

  lemma SplitCons(x: char, t: string, sep: char)
    ensures Split([x] + t, sep) ==
              if x == sep then [[]] + Split(t, sep) else [[x] + Split(t, sep)[0]] + Split(t, sep)[1..]
  {
    assert ([x] + t)[1..] == t;
  }

  /** The split of a text with one more separator: the pieces on each side of it. */
  lemma {:induction false} SplitConcat(a: string, sep: char, c: string)
    ensures Split(a + [sep] + c, sep) == Split(a, sep) + Split(c, sep)
    decreases |a|
  {
    if a == [] {
      assert a + [sep] + c == [sep] + c;
      SplitCons(sep, c, sep);
    } else {
      SplitConcat(a[1..], sep, c);
      SplitConcatCons(a[0], a[1..], sep, c);
      assert a == [a[0]] + a[1..];
    }
  }

  /** One step of `SplitConcat`: a character in front of the left part. */
  lemma SplitConcatCons(x: char, tail: string, sep: char, c: string)
    requires Split(tail + [sep] + c, sep) == Split(tail, sep) + Split(c, sep)
    ensures Split([x] + tail + [sep] + c, sep) == Split([x] + tail, sep) + Split(c, sep)
  {
    var t := tail + [sep] + c;
    assert [x] + tail + [sep] + c == [x] + t;
    SplitCons(x, t, sep);
    SplitCons(x, tail, sep);
    if x == sep {
      ConsAppend([], Split(tail, sep), Split(c, sep));
    } else {
      HeadAppend(Split(tail, sep), Split(c, sep), x);
    }
  }

  lemma ConsAppend(h: string, sa: seq<string>, sc: seq<string>)
    ensures [h] + (sa + sc) == ([h] + sa) + sc
  {
  }

  /** Extending the first piece of a split that is followed by more pieces. */
  lemma HeadAppend(sa: seq<string>, sc: seq<string>, x: char)
    requires |sa| >= 1
    ensures [[x] + (sa + sc)[0]] + (sa + sc)[1..] == ([[x] + sa[0]] + sa[1..]) + sc
  {
    assert (sa + sc)[0] == sa[0];
    assert (sa + sc)[1..] == sa[1..] + sc;
  }

  /** A text without the separator splits into itself. */
  lemma {:induction false} SplitNoSep(a: string, sep: char)
    requires sep !in a
    ensures Split(a, sep) == [a]
    decreases |a|
  {
    if a != [] {
      SplitNoSep(a[1..], sep);
      assert [a[0]] + a[1..] == a;
    }
  }

  /** The character classes of the SFEN pattern. */
  datatype CharClass = BoardChar | SpaceChar | AlnumChar | DigitChar

  predicate InClass(ch: char, k: CharClass)
  {
    match k
    case BoardChar => IsAlnum(ch) || ch == '+' || ch == '/'
    case SpaceChar => IsSpace(ch)
    case AlnumChar => IsAlnum(ch)
    case DigitChar => IsDigit(ch)
  }

  predicate AllIn(s: string, k: CharClass)
  {
    forall i :: 0 <= i < |s| ==> InClass(s[i], k)
  }

  /** The longest prefix of `s` in class `k`. */
  function Span(s: string, k: CharClass): (r: string)
    ensures r <= s && AllIn(r, k)
    ensures |r| < |s| ==> !InClass(s[|r|], k)
    decreases |s|
  {
    if s != [] && InClass(s[0], k) then [s[0]] + Span(s[1..], k) else []
  }

  /** A run of class `k` followed by a character outside it is the span. */
  lemma SpanOf(a: string, b: string, k: CharClass)
    requires AllIn(a, k) && (b == [] || !InClass(b[0], k))
    ensures Span(a + b, k) == a
  {
    var r := Span(a + b, k);
    assert r == (a + b)[..|r|];
    assert a == (a + b)[..|a|];
  }

  /** The span of class `k` at the head of `s`, and what follows it. */
  function Scan(s: string, k: CharClass): (r: (string, string))
    ensures s == r.0 + r.1 && AllIn(r.0, k)
    ensures r.1 == [] || !InClass(r.1[0], k)
  {
    var run := Span(s, k);
    assert s == run + s[|run|..];
    (run, s[|run|..])
  }

  lemma ScanOf(a: string, b: string, k: CharClass)
    requires AllIn(a, k) && (b == [] || !InClass(b[0], k))
    ensures Scan(a + b, k) == (a, b)
  {
    SpanOf(a, b, k);
    assert (a + b)[|a|..] == b;
  }

  /** `s` without leading white space. */
  function TrimStart(s: string): (r: string)
    ensures |r| <= |s| && r == s[|s| - |r|..]
    ensures forall i :: 0 <= i < |s| - |r| ==> IsSpace(s[i])
    ensures r == [] || !IsSpace(r[0])
    decreases |s|
  {
    if s != [] && IsSpace(s[0]) then TrimStart(s[1..]) else s
  }

  /** `s` without trailing white space. */
  function TrimEnd(s: string): (r: string)
    ensures |r| <= |s| && r == s[..|r|]
    ensures forall i :: |r| <= i < |s| ==> IsSpace(s[i])
    ensures r == [] || !IsSpace(r[|r| - 1])
    decreases |s|
  {
    if s != [] && IsSpace(s[|s| - 1]) then TrimEnd(s[..|s| - 1]) else s
  }

  /** `s.trim()` */
  function Trim(s: string): string
  {
    TrimEnd(TrimStart(s))
  }

  /** A text that neither starts nor ends with white space is its own trim. */
  lemma TrimUnspaced(s: string)
    requires s == [] || (!IsSpace(s[0]) && !IsSpace(s[|s| - 1]))
    ensures Trim(s) == s
  {
  }
}
