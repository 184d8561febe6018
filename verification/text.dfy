/**
 * The JavaScript string primitives the two scripts lean on: `trim()`, the `\s`
 * character class, `length` in UTF-16 code units, `String(n)` for a natural
 * number, `padStart(2, '0')`, `split(sep)` and `parseInt(s)` without a radix.
 */
module Text {
  /** JavaScript's WhiteSpace and LineTerminator characters: the set `trim()`
      removes, the set `\s` matches and the set `parseInt` skips. */
  predicate IsSpace(c: char) {
    || c == '\t' || c == '\n' || c == '\U{000B}' || c == '\U{000C}' || c == '\r'
    || c == ' ' || c == '\U{00A0}' || c == '\U{1680}'
    || ('\U{2000}' <= c <= '\U{200A}')
    || c == '\U{2028}' || c == '\U{2029}' || c == '\U{202F}' || c == '\U{205F}'
    || c == '\U{3000}' || c == '\U{FEFF}'
  }

  predicate AllSpace(s: string) {
    forall i :: 0 <= i < |s| ==> IsSpace(s[i])
  }

  /** The number of white-space characters `s` starts with. */
  function LeadingSpace(s: string): (n: nat)
    ensures n <= |s|
    ensures AllSpace(s[..n])
    ensures n < |s| ==> !IsSpace(s[n])
  {
    if |s| > 0 && IsSpace(s[0]) then
      var n := 1 + LeadingSpace(s[1..]);
      assert s[..n] == [s[0]] + s[1..][..n - 1];
      n
    else 0
  }

  /** The number of white-space characters `s` ends with. */
  function TrailingSpace(s: string): (n: nat)
    ensures n <= |s|
    ensures AllSpace(s[|s| - n..])
    ensures n < |s| ==> !IsSpace(s[|s| - n - 1])
  {
    if |s| > 0 && IsSpace(s[|s| - 1]) then
      var n := 1 + TrailingSpace(s[..|s| - 1]);
      assert s[|s| - n..] == s[..|s| - 1][|s| - n..] + [s[|s| - 1]];
      n
    else 0
  }

  /** `s` with its leading white space removed, as `parseInt` does. */
  function TrimStart(s: string): (r: string)
    ensures |r| <= |s|
    ensures |r| > 0 ==> !IsSpace(r[0])
    ensures AllSpace(s[..|s| - |r|]) && r == s[|s| - |r|..]
  {
    s[LeadingSpace(s)..]
  }

  /** `String.prototype.trim`: the slice of `s` after its leading and before
      its trailing white space; empty exactly when `s` is all white space. */
  function Trim(s: string): (r: string)
    ensures |r| <= |s|
    ensures |r| == 0 <==> AllSpace(s)
    ensures |r| > 0 ==> !IsSpace(r[0]) && !IsSpace(r[|r| - 1])
    ensures |r| > 0 ==> r == s[LeadingSpace(s)..|s| - TrailingSpace(s)]
  {
    var a := LeadingSpace(s);
    if a == |s| then
      assert s[..a] == s;
      ""
    else
      var b := TrailingSpace(s);
      assert a < |s| - b;
      s[a..|s| - b]
  }

  /** `length`: the number of UTF-16 code units, where a character outside the
      Basic Multilingual Plane takes two. */
  function JsLength(s: string): (n: nat)
    ensures |s| <= n <= 2 * |s|
  {
    if |s| == 0 then 0
    else (if s[0] as int > 0xFFFF then 2 else 1) + JsLength(s[1..])
  }

  /** The length of a concatenation is the sum of the lengths. */
  lemma {:induction false} JsLengthConcat(a: string, b: string)
    ensures JsLength(a + b) == JsLength(a) + JsLength(b)
  {
    if |a| > 0 {
      assert (a + b)[0] == a[0] && (a + b)[1..] == a[1..] + b;
      JsLengthConcat(a[1..], b);
    } else {
      assert a + b == b;
    }
  }

  /** A character of the Basic Multilingual Plane, one UTF-16 code unit. */
  predicate InBmp(c: char) {
    c as int <= 0xFFFF
  }

  /** `length` counts characters exactly when every character lies in the
      Basic Multilingual Plane. */
  lemma {:induction false} JsLengthOfBmp(s: string)
    ensures JsLength(s) == |s| <==> forall i :: 0 <= i < |s| ==> InBmp(s[i])
  {
    if |s| > 0 {
      JsLengthOfBmp(s[1..]);
      assert forall i :: 1 <= i < |s| ==> s[i] == s[1..][i - 1];
    }
  }

  // ----- decimal digits -----

  predicate IsDigit(c: char) {
    '0' <= c <= '9'
  }

  predicate AllDigits(s: string) {
    forall i :: 0 <= i < |s| ==> IsDigit(s[i])
  }

  /** The value of `c` as a digit in radixes up to 36, or 36 when `c` is not
      a digit in any radix: `0`-`9`, then `a`-`z` and `A`-`Z` as 10-35. */
  function DigitValue(c: char): (v: nat)
    ensures v <= 36
    ensures v < 10 <==> IsDigit(c)
  {
    if '0' <= c <= '9' then c as int - '0' as int
    else if 'a' <= c <= 'z' then c as int - 'a' as int + 10
    else if 'A' <= c <= 'Z' then c as int - 'A' as int + 10
    else 36
  }

  function DigitChar(d: nat): (c: char)
    requires d < 10
    ensures IsDigit(c) && DigitValue(c) == d
  {
    ('0' as int + d) as char
  }

  /** `String(n)` for a natural number: its decimal digits, no leading zero. */
  function Decimal(n: nat): (s: string)
    ensures 1 <= |s|
    ensures AllDigits(s)
    ensures |s| == 1 <==> n < 10
  {
    if n < 10 then [DigitChar(n)] else Decimal(n / 10) + [DigitChar(n % 10)]
  }

  /** `String(n).padStart(2, '0')`. */
  function Pad2(n: nat): (s: string)
    ensures AllDigits(s)
    ensures |s| >= 2
    ensures n < 100 ==> |s| == 2
  {
    if n < 10 then "0" + Decimal(n) else Decimal(n)
  }

  /** The longest prefix of `s` made of digits of `radix`, as digit values. */
  function Digits(s: string, radix: nat): (ds: seq<nat>)
    ensures |ds| <= |s|
    ensures forall i :: 0 <= i < |ds| ==> ds[i] == DigitValue(s[i]) && ds[i] < radix
    ensures |ds| < |s| ==> DigitValue(s[|ds|]) >= radix
  {
    if |s| > 0 && DigitValue(s[0]) < radix then [DigitValue(s[0])] + Digits(s[1..], radix) else []
  }

  /** The number the digit values `ds` denote in `radix`, most significant first. */
  function Value(ds: seq<nat>, radix: nat): nat {
    if |ds| == 0 then 0 else Value(ds[..|ds| - 1], radix) * radix + ds[|ds| - 1]
  }

  /** The decimal number written by the digit string `s`. */
  function DecimalValue(s: string): nat {
    Value(Digits(s, 10), 10)
  }

  lemma {:induction false} DigitsOfDigitString(s: string)
    requires AllDigits(s)
    ensures |Digits(s, 10)| == |s|
  {
    if |s| > 0 {
      DigitsOfDigitString(s[1..]);
    }
  }

  lemma {:induction false} ValueLeadingZero(ds: seq<nat>, radix: nat)
    ensures Value([0] + ds, radix) == Value(ds, radix)
  {
    if |ds| > 0 {
      assert ([0] + ds)[..|ds|] == [0] + ds[..|ds| - 1];
      ValueLeadingZero(ds[..|ds| - 1], radix);
    }
  }

  lemma {:induction false} DigitsAppend(p: string, c: char)
    requires AllDigits(p) && IsDigit(c)
    ensures Digits(p + [c], 10) == Digits(p, 10) + [DigitValue(c)]
  {
    if |p| == 0 {
      assert p + [c] == [c];
    } else {
      assert (p + [c])[1..] == p[1..] + [c];
      DigitsAppend(p[1..], c);
    }
  }

  lemma ValueAppend(ds: seq<nat>, d: nat, radix: nat)
    ensures Value(ds + [d], radix) == Value(ds, radix) * radix + d
  {
    assert (ds + [d])[..|ds|] == ds;
  }

  /** Reading back the digits of `String(n)` gives `n`. */
  lemma {:induction false} DecimalRoundTrip(n: nat)
    ensures DecimalValue(Decimal(n)) == n
  {
    if n < 10 {
      var c := DigitChar(n);
      assert Digits([c], 10) == [n];
      ValueAppend([], n, 10);
      assert [] + [n] == [n];
    } else {
      var p := Decimal(n / 10);
      var c := DigitChar(n % 10);
      DigitsAppend(p, c);
      ValueAppend(Digits(p, 10), n % 10, 10);
      DecimalRoundTrip(n / 10);
    }
  }

  /** Reading back the digits of `String(n).padStart(2, '0')` gives `n`. */
  lemma Pad2RoundTrip(n: nat)
    ensures DecimalValue(Pad2(n)) == n
  {
    DecimalRoundTrip(n);
    if n < 10 {
      var s := Decimal(n);
      DigitsOfDigitString(s);
      assert Digits("0" + s, 10) == [0] + Digits(s, 10);
      ValueLeadingZero(Digits(s, 10), 10);
    }
  }

  // ----- split -----

  /** `s.split(sep)` for a one-character separator: the pieces between the
      occurrences of `sep`, always at least one. */
  function Split(s: string, sep: char): (parts: seq<string>)
    ensures |parts| >= 1
  {
    if |s| == 0 then [""]
    else
      var rest := Split(s[1..], sep);
      if s[0] == sep then [""] + rest else [[s[0]] + rest[0]] + rest[1..]
  }

  lemma {:induction false} SplitWithoutSeparator(a: string, sep: char)
    requires sep !in a
    ensures Split(a, sep) == [a]
  {
    if |a| > 0 {
      SplitWithoutSeparator(a[1..], sep);
      assert [a[0]] + a[1..] == a;
    }
  }

  /** Splitting at the first separator peels off the text before it. */
  lemma {:induction false} SplitAtSeparator(a: string, sep: char, t: string)
    requires sep !in a
    ensures Split(a + [sep] + t, sep) == [a] + Split(t, sep)
  {
    if |a| == 0 {
      assert a + [sep] + t == [sep] + t;
      assert ([sep] + t)[1..] == t;
    } else {
      assert (a + [sep] + t)[1..] == a[1..] + [sep] + t;
      SplitAtSeparator(a[1..], sep, t);
      assert [a[0]] + a[1..] == a;
    }
  }

  // ----- parseInt -----

  /** A JavaScript number as far as these scripts produce one: an integer or NaN. */
  datatype Num = NaN | Int(i: int)

  /** `parseInt(s)` with no radix argument: leading white space skipped, an
      optional sign, a `0x`/`0X` prefix switching to hexadecimal, then the
      longest run of digits; NaN when that run is empty. */
  function ParseInt(s: string): (r: Num)
    ensures |s| > 0 && AllDigits(s) ==> r == Int(DecimalValue(s))
  {
    var t := TrimStart(s);
    var neg := |t| > 0 && t[0] == '-';
    var u := if |t| > 0 && (t[0] == '-' || t[0] == '+') then t[1..] else t;
    var hex := |u| >= 2 && u[0] == '0' && (u[1] == 'x' || u[1] == 'X');
    var radix := if hex then 16 else 10;
    var ds := Digits(if hex then u[2..] else u, radix);
    var v: int := Value(ds, radix);
    if |ds| == 0 then NaN else if neg then Int(-v) else Int(v)
  }
}
