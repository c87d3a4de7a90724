/** The Python string operations `get_video_score` applies to ffprobe's
    output: `str.strip()`, `str.split(",")`, `int(...)` and `float(...)` on
    decimal text. */
module PyText {
  import opened Basics

  /** `str.isspace()`: the characters `strip()`, `int()` and `float()` trim. */
  predicate IsSpace(c: char)
  {
    || c == ' ' || c == '\t' || c == '\n' || c == '\r' || c == '\U{0B}' || c == '\U{0C}'
    || ('\U{1C}' <= c <= '\U{1F}') || c == '\U{85}' || c == '\U{A0}' || c == '\U{1680}'
    || ('\U{2000}' <= c <= '\U{200A}') || c == '\U{2028}' || c == '\U{2029}' || c == '\U{202F}'
    || c == '\U{205F}' || c == '\U{3000}'
  }

  predicate IsDigit(c: char)
  {
    '0' <= c <= '9'
  }

  function DigitValue(c: char): (n: nat)
    requires IsDigit(c)
    ensures n < 10
  {
    (c - '0') as nat
  }

  /** Leading white space removed. */
  function StripStart(s: string): (r: string)
    ensures |r| <= |s| && r == s[|s| - |r|..]
    ensures forall k :: 0 <= k < |s| - |r| ==> IsSpace(s[k])
    ensures r == [] || !IsSpace(r[0])
  {
    if s == [] || !IsSpace(s[0]) then s else StripStart(s[1..])
  }

  /** Trailing white space removed. */
  function StripEnd(s: string): (r: string)
    ensures |r| <= |s| && r == s[..|r|]
    ensures forall k :: |r| <= k < |s| ==> IsSpace(s[k])
    ensures r == [] || !IsSpace(r[|r| - 1])
  {
    if s == [] || !IsSpace(s[|s| - 1]) then s else StripEnd(s[..|s| - 1])
  }

  /** `str.strip()`. */
  function Strip(s: string): string
  {
    StripEnd(StripStart(s))
  }

  /** Text with no white space at either end is left alone by `strip()`. */
  lemma StripUntrimmed(s: string)
    requires s != [] && !IsSpace(s[0]) && !IsSpace(s[|s| - 1])
    ensures Strip(s) == s
  {
  }

  /** `str.split(sep)`: the pieces between separators, empty ones included. */
  function Split(s: string, sep: char): (r: seq<string>)
    ensures |r| >= 1
    ensures forall i :: 0 <= i < |r| ==> sep !in r[i]
  {
    if s == [] then [[]]
    else
      var pieces := Split(s[..|s| - 1], sep);
      if s[|s| - 1] == sep then pieces + [[]]
      else pieces[..|pieces| - 1] + [pieces[|pieces| - 1] + [s[|s| - 1]]]
  }

  /** `sep.join(pieces)`. */
  function JoinWith(pieces: seq<string>, sep: char): string
  {
    if pieces == [] then []
    else if |pieces| == 1 then pieces[0]
    else JoinWith(pieces[..|pieces| - 1], sep) + [sep] + pieces[|pieces| - 1]
  }

  /** Splitting and joining back is the identity. */
  lemma {:induction false} JoinSplit(s: string, sep: char)
    ensures JoinWith(Split(s, sep), sep) == s
  {
    if s != [] {
      var s' := s[..|s| - 1];
      var pieces := Split(s', sep);
      JoinSplit(s', sep);
      assert s == s' + [s[|s| - 1]];
      if s[|s| - 1] != sep {
        var init := pieces[..|pieces| - 1];
        if |pieces| > 1 {
          assert pieces == init + [pieces[|pieces| - 1]];
          assert init[..|init| - 1] == pieces[..|pieces| - 2];
        }
      } else {
        var r := pieces + [[]];
        assert r[..|r| - 1] == pieces;
      }
    }
  }

  /** Joining pieces free of the separator and splitting gives the pieces back. */
  lemma {:induction false} SplitJoin(pieces: seq<string>, sep: char)
    requires |pieces| >= 1
    requires forall i :: 0 <= i < |pieces| ==> sep !in pieces[i]
    ensures Split(JoinWith(pieces, sep), sep) == pieces
    decreases |pieces|
  {
    if |pieces| == 1 {
      SplitNoSep(pieces[0], sep);
    } else {
      var init := pieces[..|pieces| - 1];
      var last := pieces[|pieces| - 1];
      SplitJoin(init, sep);
      SplitAppend(JoinWith(init, sep), sep, last);
      assert pieces == init + [last];
    }
  }

  /** Text without the separator is one piece. */
  lemma {:induction false} SplitNoSep(s: string, sep: char)
    requires sep !in s
    ensures Split(s, sep) == [s]
  {
    if s != [] {
      SplitNoSep(s[..|s| - 1], sep);
      assert s == s[..|s| - 1] + [s[|s| - 1]];
    }
  }

  /** Splitting `a + [sep] + b`, where `b` has no separator, appends `b` as a
      last piece to the pieces of `a`. */
  lemma {:induction false} SplitAppend(a: string, sep: char, b: string)
    requires sep !in b
    ensures Split(a + [sep] + b, sep) == Split(a, sep) + [b]
    decreases |b|
  {
    var s := a + [sep] + b;
    if b == [] {
      assert s[..|s| - 1] == a;
    } else {
      var b' := b[..|b| - 1];
      assert s[..|s| - 1] == a + [sep] + b';
      SplitAppend(a, sep, b');
      assert b == b' + [b[|b| - 1]];
    }
  }

  /** A run of decimal digits in which single underscores may separate two
      digits, as `int()` and `float()` accept it; its value, or None. */
  function DigitGroup(s: string): (r: Option<nat>)
    decreases |s|
  {
    if s == [] || !IsDigit(s[|s| - 1]) then None
    else if |s| == 1 then Some(DigitValue(s[0]))
    else
      var init := s[..|s| - 1];
      var init' := if init[|init| - 1] == '_' then init[..|init| - 1] else init;
      match DigitGroup(init')
      case None => None
      case Some(n) => Some(10 * n + DigitValue(s[|s| - 1]))
  }

  /** The number of digits in a digit group (underscores do not count). */
  function DigitCount(s: string): nat
  {
    if s == [] then 0 else DigitCount(s[..|s| - 1]) + (if IsDigit(s[|s| - 1]) then 1 else 0)
  }

  /** `int(s)` in base 10: surrounding white space, an optional sign, then a
      digit group. None where Python raises `ValueError`. Non-ASCII digits
      are not modelled. */
  function ParseInt(s: string): Option<int>
  {
    SignedInt(Strip(s))
  }

  /** An optional sign and a digit group. */
  function SignedInt(t: string): Option<int>
  {
    var digits := DigitGroup(Unsigned(t));
    if digits.None? then None
    else
      var n: int := digits.value;
      Some(if Negative(t) then -n else n)
  }

  /** A leading `-`. */
  predicate Negative(t: string)
  {
    t != [] && t[0] == '-'
  }

  /** The text after an optional leading sign. */
  function Unsigned(t: string): string
  {
    if t != [] && (t[0] == '+' || t[0] == '-') then t[1..] else t
  }

  function Pow10(n: nat): (r: nat)
    ensures r >= 1
  {
    if n == 0 then 1 else 10 * Pow10(n - 1)
  }

  /** Index of the first occurrence of `c` in `s`, or |s|. */
  function IndexOf(s: string, c: char): (i: nat)
    ensures i <= |s|
    ensures i < |s| ==> s[i] == c
    ensures forall k :: 0 <= k < i ==> s[k] != c
  {
    if s == [] || s[0] == c then 0 else 1 + IndexOf(s[1..], c)
  }

  /** The digits before and after the point of a decimal mantissa: `ddd`,
      `ddd.`, `.ddd` or `ddd.ddd`. */
  function Mantissa(s: string): Option<real>
  {
    var p := IndexOf(s, '.');
    if p == |s| then
      match DigitGroup(s)
      case None => None
      case Some(n) => Some(n as real)
    else
      var whole, frac := s[..p], s[p + 1..];
      if whole == [] && frac == [] then None
      else
        var w := if whole == [] then Some(0) else DigitGroup(whole);
        var f := if frac == [] then Some(0) else DigitGroup(frac);
        if w.None? || f.None? then None
        else Some(Decimal(w.value, f.value, DigitCount(frac)))
  }

  /** The value of `<whole>.<fraction>` where the fraction has `k` digits. */
  function Decimal(whole: nat, fraction: nat, k: nat): real
  {
    whole as real + fraction as real / Pow10(k) as real
  }

  /** `float(s)` on finite decimal text: white space, an optional sign, a
      mantissa and an optional exponent `e`/`E` with an optional sign. The
      words `inf`, `infinity` and `nan` are not modelled (None). */
  function ParseFloat(s: string): Option<real>
  {
    SignedFloat(Strip(s))
  }

  /** An optional sign and an unsigned float. */
  function SignedFloat(t: string): Option<real>
  {
    match UnsignedFloat(Unsigned(t))
    case None => None
    case Some(v) => Some(if Negative(t) then -v else v)
  }

  /** An unsigned mantissa, scaled by the exponent if there is one. */
  function UnsignedFloat(body: string): Option<real>
  {
    var e := min(IndexOf(body, 'e'), IndexOf(body, 'E'));
    var m := Mantissa(body[..e]);
    if m.None? || e == |body| then m
    else
      var exp := body[e + 1..];
      match DigitGroup(Unsigned(exp))
      case None => None
      case Some(x) => Some(if Negative(exp) then m.value / Pow10(x) as real else m.value * Pow10(x) as real)
  }

  function min(a: nat, b: nat): nat
  {
    if a <= b then a else b
  }

  /** Decimal digits of a natural number, as `str(n)` prints them. */
  function NatText(n: nat): (r: string)
    ensures r != [] && forall c :: c in r ==> IsDigit(c)
  {
    if n < 10 then ['0' + n as char] else NatText(n / 10) + ['0' + (n % 10) as char]
  }

  /** `str(n)` for any integer. */
  function IntText(n: int): (r: string)
    ensures r != [] && !IsSpace(r[0]) && !IsSpace(r[|r| - 1]) && ',' !in r
  {
    var digits := NatText(if n < 0 then -n else n);
    assert digits[|digits| - 1] in digits && digits[0] in digits;
    if n < 0 then "-" + digits else digits
  }

  /** Reading back the digits of `n` gives `n`, counting one digit per character. */
  lemma {:induction false} DigitGroupNatText(n: nat)
    ensures DigitGroup(NatText(n)) == Some(n)
    ensures DigitCount(NatText(n)) == |NatText(n)|
  {
    var s := NatText(n);
    if n >= 10 {
      DigitGroupNatText(n / 10);
      var init := NatText(n / 10);
      assert s[..|s| - 1] == init;
      assert init[|init| - 1] in init;
    }
  }

  /** `int(str(n)) == n`. */
  lemma ParseIntText(n: int)
    ensures ParseInt(IntText(n)) == Some(n)
  {
    var s := IntText(n);
    var m: nat := if n < 0 then -n else n;
    var digits := NatText(m);
    StripUntrimmed(s);
    DigitGroupNatText(m);
    assert IsDigit(digits[0]) by {
      assert digits[0] in digits;
    }
    if n < 0 {
      assert s == "-" + digits && s[1..] == digits;
      assert Unsigned(s) == digits && Negative(s);
    } else {
      assert s == digits;
      assert Unsigned(s) == digits && !Negative(s);
    }
  }

  /** `float("<a>.<b>")` for digit strings `a` and `b`, as ffprobe prints a
      duration: the whole part plus the fraction. */
  lemma ParseFloatDecimal(a: nat, b: string)
    requires b != [] && forall c :: c in b ==> IsDigit(c)
    ensures DigitGroup(b).Some?
    ensures ParseFloat(NatText(a) + "." + b) == Some(Decimal(a, DigitGroup(b).value, |b|))
  {
    var w := NatText(a);
    var s := w + "." + b;
    DigitsAreGroup(b);
    DigitGroupNatText(a);
    assert w[0] in w && b[|b| - 1] in b;
    assert 'e' !in s && 'E' !in s by {
      assert forall x :: x in s ==> x == '.' || x in w || x in b;
    }
    ParseFloatPlain(s);
    MantissaDecimal(w, b, a, DigitGroup(b).value, |b|);
  }

  /** Unsigned text without an exponent and without surrounding white space
      reads as its mantissa. */
  lemma ParseFloatPlain(s: string)
    requires s != [] && IsDigit(s[0]) && IsDigit(s[|s| - 1])
    requires 'e' !in s && 'E' !in s
    ensures ParseFloat(s) == Mantissa(s)
  {
    StripUntrimmed(s);
    assert Unsigned(s) == s && !Negative(s);
    NoIndex(s, 'e');
    NoIndex(s, 'E');
    assert s[..|s|] == s;
  }

  /** The mantissa `<w>.<b>` of two digit groups. */
  lemma MantissaDecimal(w: string, b: string, x: nat, y: nat, k: nat)
    requires forall c :: c in w ==> IsDigit(c)
    requires DigitGroup(w) == Some(x) && DigitGroup(b) == Some(y) && DigitCount(b) == k
    ensures Mantissa(w + "." + b) == Some(Decimal(x, y, k))
  {
    var s := w + "." + b;
    IndexAfterPrefix(w, b);
    assert s[..|w|] == w && s[|w| + 1..] == b;
  }

  /** A plain digit string is a digit group with one digit per character. */
  lemma {:induction false} DigitsAreGroup(b: string)
    requires b != [] && forall c :: c in b ==> IsDigit(c)
    ensures DigitGroup(b).Some? && DigitCount(b) == |b|
  {
    if |b| > 1 {
      var init := b[..|b| - 1];
      assert forall c :: c in init ==> c in b;
      assert init[|init| - 1] in init;
      DigitsAreGroup(init);
    }
  }

  lemma IndexAfterPrefix(w: string, b: string)
    requires forall c :: c in w ==> IsDigit(c)
    ensures IndexOf(w + "." + b, '.') == |w|
  {
    var s := w + "." + b;
    if w != [] {
      assert s[1..] == w[1..] + "." + b;
      assert w[0] in w;
      IndexAfterPrefix(w[1..], b);
    }
  }

  lemma NoIndex(s: string, c: char)
    requires c !in s
    ensures IndexOf(s, c) == |s|
  {
    if s != [] {
      assert s[0] in s;
      assert forall x :: x in s[1..] ==> x in s;
      NoIndex(s[1..], c);
    }
  }
}
