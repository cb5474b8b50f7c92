/**
 * The string primitives the annotation tool relies on, stated the way Python
 * evaluates them: `str.strip()`, `str.split(sep)` for a one-character
 * separator, `int()` on ASCII text, `str(n)`, the zero-padded `{n:0wd}` format
 * and the code-point order that `sorted` uses on strings.
 */
module Text {
  import opened Wrappers

  // ---------------------------------------------------------------------------
  // Whitespace and str.strip()

  /** The characters Python's `str.isspace()` accepts; `str.strip()` removes exactly these. */
  predicate IsSpace(c: char) {
    || ('\t' <= c <= '\r')
    || ('\U{1C}' <= c <= '\U{20}')
    || c == '\U{85}' || c == '\U{A0}' || c == '\U{1680}'
    || ('\U{2000}' <= c <= '\U{200A}')
    || c == '\U{2028}' || c == '\U{2029}' || c == '\U{202F}' || c == '\U{205F}'
    || c == '\U{3000}'
  }

  predicate AllSpace(s: string) {
    forall i :: 0 <= i < |s| ==> IsSpace(s[i])
  }

  /** Every character of `s` in `[lo, hi)` is whitespace. */
  predicate SpaceBetween(s: string, lo: int, hi: int)
    requires 0 <= lo <= hi <= |s|
  {
    forall k :: lo <= k < hi ==> IsSpace(s[k])
  }

  /** Where the text starts: the first non-whitespace position at or after `i`, or `|s|`. */
  function TextStart(s: string, i: nat): (r: nat)
    requires i <= |s|
    ensures i <= r <= |s| && SpaceBetween(s, i, r)
    ensures r < |s| ==> !IsSpace(s[r])
    decreases |s| - i
  {
    if i < |s| && IsSpace(s[i]) then TextStart(s, i + 1) else i
  }

  /** Where the text ends: the smallest `r` in `[lo, j]` after which `s[..j]` holds only whitespace. */
  function TextEnd(s: string, lo: nat, j: nat): (r: nat)
    requires lo <= j <= |s|
    ensures lo <= r <= j && SpaceBetween(s, r, j)
    ensures r > lo ==> !IsSpace(s[r - 1])
    decreases j - lo
  {
    if j > lo && IsSpace(s[j - 1]) then TextEnd(s, lo, j - 1) else j
  }

  /**
   * Python's `s.strip()`: the slice of `s` between its leading and its
   * trailing whitespace. What is cut away is whitespace and what is kept
   * neither starts nor ends with it.
   */
  function Strip(s: string): (r: string)
    ensures var i := TextStart(s, 0);
      var j := TextEnd(s, i, |s|);
      r == s[i..j] && SpaceBetween(s, 0, i) && SpaceBetween(s, j, |s|)
    ensures r != [] ==> !IsSpace(r[0]) && !IsSpace(r[|r| - 1])
  {
    var i := TextStart(s, 0);
    s[i..TextEnd(s, i, |s|)]
  }

  /** `s.strip()` is empty exactly when `s` is all whitespace. */
  lemma StripEmptyIff(s: string)
    ensures Strip(s) == [] <==> AllSpace(s)
  {
    var i := TextStart(s, 0);
    var j := TextEnd(s, i, |s|);
    if i == j {
      assert i == |s|;
      assert SpaceBetween(s, 0, |s|);
    }

  }

  /** Stripping twice is stripping once. */
  lemma StripIdempotent(s: string)
    ensures Strip(Strip(s)) == Strip(s)
  {
    var r := Strip(s);
    if r != [] {
      assert TextStart(r, 0) == 0;
      assert TextEnd(r, 0, |r|) == |r|;
      assert r[0..|r|] == r;
    }
  }

  // ---------------------------------------------------------------------------
  // str.split(sep) for a single-character separator

  function CountChar(s: string, c: char): (n: nat)
    ensures n <= |s|
    ensures n == 0 <==> c !in s
  {
    if s == [] then 0 else (if s[0] == c then 1 else 0) + CountChar(s[1..], c)
  }

  /** Glues the parts back together with the separator between consecutive parts. */
  function Join(parts: seq<string>, sep: char): string
  {
    if |parts| <= 1 then (if parts == [] then "" else parts[0])
    else parts[0] + [sep] + Join(parts[1..], sep)
  }

  /**
   * Python's `s.split(sep)`: one more part than there are separators and no
   * part contains the separator; joining the parts gives `s` back (`JoinSplit`).
   */
  function Split(s: string, sep: char): (parts: seq<string>)
    ensures |parts| == CountChar(s, sep) + 1
    ensures forall k :: 0 <= k < |parts| ==> sep !in parts[k]
  {
    if s == [] then [""]
    else
      var rest := Split(s[1..], sep);
      if s[0] == sep then [""] + rest
      else
        var parts := [[s[0]] + rest[0]] + rest[1..];
        assert parts[1..] == rest[1..];
        parts
  }

  /** Joining the parts of a split with the same separator gives the text back. */
  lemma {:induction false} JoinSplit(s: string, sep: char)
    ensures Join(Split(s, sep), sep) == s
  {
    if s != [] {
      var rest := Split(s[1..], sep);
      JoinSplit(s[1..], sep);
      if s[0] == sep {
        assert Join(Split(s, sep), sep) == [sep] + Join(rest, sep);
      } else if |rest| == 1 {
        assert Join(Split(s, sep), sep) == [s[0]] + rest[0];
      } else {
        var parts := Split(s, sep);
        assert parts[1..] == rest[1..];
        assert Join(parts, sep) == [s[0]] + rest[0] + [sep] + Join(rest[1..], sep);
      }
    }
  }

  /** A text without the separator is one part. */
  lemma {:induction false} SplitNoSeparator(s: string, sep: char)
    requires sep !in s
    ensures Split(s, sep) == [s]
  {
    if s != [] {
      SplitNoSeparator(s[1..], sep);
      assert s[0] != sep;
      assert [s[0]] + s[1..] == s;
    }
  }

  /** One unfolding of `Split` on a text that starts with `c`. */
  lemma SplitCons(c: char, t: string, sep: char)
    ensures Split([c] + t, sep) ==
      if c == sep then [""] + Split(t, sep)
      else [[c] + Split(t, sep)[0]] + Split(t, sep)[1..]
  {
    assert ([c] + t)[1..] == t;
  }

  /** Splitting `a + sep + b`, where `a` holds no separator, gives `a` followed by the parts of `b`. */
  lemma {:induction false} SplitAtFirst(a: string, b: string, sep: char)
    requires sep !in a
    ensures Split(a + [sep] + b, sep) == [a] + Split(b, sep)
  {
    if a == [] {
      assert a + [sep] + b == [sep] + b;
      SplitCons(sep, b, sep);
    } else {
      var t := a[1..] + [sep] + b;
      assert a + [sep] + b == [a[0]] + t;
      SplitCons(a[0], t, sep);
      SplitAtFirst(a[1..], b, sep);
      assert [a[0]] + a[1..] == a;
    }
  }

  // ---------------------------------------------------------------------------
  // Decimal digits, int() and str()

  predicate IsDigit(c: char) { '0' <= c <= '9' }

  predicate AllDigits(s: string) {
    forall i :: 0 <= i < |s| ==> IsDigit(s[i])
  }

  function DigitValue(c: char): (d: nat)
    requires IsDigit(c)
    ensures d < 10
  {
    (c as int) - ('0' as int)
  }

  function DigitChar(d: nat): (c: char)
    requires d < 10
    ensures IsDigit(c) && DigitValue(c) == d
  {
    (('0' as int) + d) as char
  }

  /** The value of a string of ASCII digits, most significant first; leading zeros are allowed. */
  function DecimalValue(s: string): nat
    requires AllDigits(s)
  {
    if s == [] then 0 else 10 * DecimalValue(s[..|s| - 1]) + DigitValue(s[|s| - 1])
  }

  /**
   * Python's `int(s)` on the inputs the model admits: an optional `-` followed
   * by one or more ASCII digits. Anything else is the `ValueError` case.
   */
  function ParseInt(s: string): (r: Option<int>)
    ensures r.Some? <==> (|s| >= 1 && AllDigits(s)) || (|s| >= 2 && s[0] == '-' && AllDigits(s[1..]))
    ensures r.Some? && s[0] != '-' ==> r.value >= 0
  {
    if |s| >= 2 && s[0] == '-' && AllDigits(s[1..]) then Some(0 - DecimalValue(s[1..]) as int)
    else if |s| >= 1 && AllDigits(s) then Some(DecimalValue(s))
    else None
  }

  /** Python's `str(n)` for `n >= 0`: the shortest digit string whose value is `n`. */
  function Decimal(n: nat): (r: string)
    ensures |r| >= 1 && AllDigits(r) && DecimalValue(r) == n
    ensures r[0] == '0' ==> n == 0
    ensures n < 10 <==> |r| == 1
  {
    if n < 10 then [DigitChar(n)]
    else
      var r := Decimal(n / 10) + [DigitChar(n % 10)];
      assert r[..|r| - 1] == Decimal(n / 10);
      r
  }

  function Zeros(k: nat): (z: string)
    ensures |z| == k && AllDigits(z)
  {
    seq(k, _ => '0')
  }

  /** Left-pads a digit string with zeros up to `width` characters. */
  function ZeroPad(s: string, width: nat): (r: string)
    ensures |r| == if |s| >= width then |s| else width
  {
    if |s| >= width then s else Zeros(width - |s|) + s
  }

  /** Python's `f"{n:0{width}d}"`: the sign comes first, then zeros up to the full width. */
  function PadInt(n: int, width: nat): string
  {
    if n < 0 then "-" + ZeroPad(Decimal(-n), if width == 0 then 0 else width - 1)
    else ZeroPad(Decimal(n), width)
  }

  /** Leading zeros do not change a decimal value. */
  lemma {:induction false} DecimalValueZeros(k: nat, s: string)
    requires AllDigits(s)
    ensures AllDigits(Zeros(k) + s) && DecimalValue(Zeros(k) + s) == DecimalValue(s)
  {
    var z := Zeros(k) + s;
    if s == [] {
      assert z == Zeros(k);
      ZerosValue(k);
    } else {
      assert z[..|z| - 1] == Zeros(k) + s[..|s| - 1];
      DecimalValueZeros(k, s[..|s| - 1]);
    }
  }

  /** A run of zeros has value zero. */
  lemma {:induction false} ZerosValue(k: nat)
    ensures DecimalValue(Zeros(k)) == 0
  {
    if k > 0 {
      assert Zeros(k)[..k - 1] == Zeros(k - 1);
      ZerosValue(k - 1);
    }
  }

  /** A digit string of value zero is all zeros. */
  lemma {:induction false} ValueZeroIsZeros(s: string)
    requires AllDigits(s) && DecimalValue(s) == 0
    ensures s == Zeros(|s|)
  {
    if s != [] {
      var front, c := s[..|s| - 1], s[|s| - 1];
      assert DecimalValue(front) == 0 && DigitValue(c) == 0;
      assert c == '0';
      ValueZeroIsZeros(front);
      assert s == front + [c];
      assert Zeros(|s|) == Zeros(|front|) + ['0'];
    }
  }

  /** `int()` reads back what `{n:0wd}` wrote, for every width and sign. */
  lemma PadIntRoundTrip(n: int, width: nat)
    ensures ParseInt(PadInt(n, width)) == Some(n)
  {
    if n < 0 {
      var p := ZeroPad(Decimal(-n), if width == 0 then 0 else width - 1);
      ZeroPadKeepsValue(Decimal(-n), if width == 0 then 0 else width - 1);
      assert PadInt(n, width) == "-" + p;
      ParseNegated(p);
    } else {
      var p := ZeroPad(Decimal(n), width);
      ZeroPadKeepsValue(Decimal(n), width);
      assert PadInt(n, width) == p;
      ParseDigits(p);
    }
  }

  /** Padding a digit string with zeros keeps it a digit string with the same value. */
  lemma ZeroPadKeepsValue(d: string, w: nat)
    requires |d| >= 1 && AllDigits(d)
    ensures var p := ZeroPad(d, w); |p| >= 1 && AllDigits(p) && DecimalValue(p) == DecimalValue(d)
  {
    if |d| < w {
      DecimalValueZeros(w - |d|, d);
    }
  }

  /** `int()` of a non-empty digit string is its value. */
  lemma ParseDigits(p: string)
    requires |p| >= 1 && AllDigits(p)
    ensures ParseInt(p) == Some(DecimalValue(p))
  {
    assert IsDigit(p[0]);
  }

  /** `int()` of a minus sign before a non-empty digit string is the negated value. */
  lemma ParseNegated(p: string)
    requires |p| >= 1 && AllDigits(p)
    ensures ParseInt("-" + p) == Some(0 - DecimalValue(p) as int)
  {
    assert ("-" + p)[1..] == p;
  }

  /** `{n:0wd}` uses only digits and the minus sign. */
  lemma PadIntAlphabet(n: int, width: nat)
    ensures forall i :: 0 <= i < |PadInt(n, width)| ==> IsDigit(PadInt(n, width)[i]) || PadInt(n, width)[i] == '-'
  {
    var w := if n < 0 then (if width == 0 then 0 else width - 1) else width;
    var d := Decimal(if n < 0 then -n else n);
    assert AllDigits(ZeroPad(d, w));
  }

  /**
   * Writing back the value of a digit string with as many zeros as it had
   * characters reproduces it exactly.
   */
  lemma {:induction false} ZeroPadDecimalOfDigits(s: string)
    requires |s| >= 1 && AllDigits(s)
    ensures ZeroPad(Decimal(DecimalValue(s)), |s|) == s
  {
    var front, c := s[..|s| - 1], s[|s| - 1];
    assert s == front + [c];
    var v := DecimalValue(front);
    if v == 0 {
      ValueZeroIsZeros(front);
      assert Decimal(DecimalValue(s)) == [c];
    } else {
      ZeroPadDecimalOfDigits(front);
      var x := Decimal(v);
      assert Decimal(DecimalValue(s)) == x + [c];
      assert ZeroPad(x + [c], |s|) == ZeroPad(x, |front|) + [c];
    }
  }

  function Pow10(k: nat): (p: nat)
    ensures p >= 1
  {
    if k == 0 then 1 else 10 * Pow10(k - 1)
  }

  /** A string of `k` digits has a value below 10^k. */
  lemma {:induction false} DecimalValueBound(d: string)
    requires AllDigits(d)
    ensures DecimalValue(d) < Pow10(|d|)
  {
    if d != [] {
      DecimalValueBound(d[..|d| - 1]);
    }
  }

  /** A value below 10^k takes at most `k` digits to write. */
  lemma {:induction false} DecimalLength(n: nat, k: nat)
    requires 1 <= k && n < Pow10(k)
    ensures |Decimal(n)| <= k
  {
    if n >= 10 {
      DecimalLength(n / 10, k - 1);
    }
  }

  /** Splitting `a + sep + b`, where neither side holds the separator, gives exactly the two sides. */
  lemma SplitTwo(a: string, b: string, sep: char)
    requires sep !in a && sep !in b
    ensures Split(a + [sep] + b, sep) == [a, b]
  {
    SplitAtFirst(a, b, sep);
    SplitNoSeparator(b, sep);
  }

  // ---------------------------------------------------------------------------
  // Code-point order on strings (Python's `<=` on str, used by `sorted`)

  predicate LexLessEq(a: string, b: string)
  {
    if a == [] then true
    else if b == [] then false
    else if a[0] != b[0] then a[0] < b[0]
    else LexLessEq(a[1..], b[1..])
  }

  lemma {:induction false} LexTotal(a: string, b: string)
    ensures LexLessEq(a, b) || LexLessEq(b, a)
  {
    if a != [] && b != [] && a[0] == b[0] {
      LexTotal(a[1..], b[1..]);
    }
  }

  lemma {:induction false} LexAntisymmetric(a: string, b: string)
    requires LexLessEq(a, b) && LexLessEq(b, a)
    ensures a == b
  {
    if a != [] && b != [] {
      LexAntisymmetric(a[1..], b[1..]);
      assert a == [a[0]] + a[1..];
      assert b == [b[0]] + b[1..];
    }
  }

  lemma {:induction false} LexTransitive(a: string, b: string, c: string)
    requires LexLessEq(a, b) && LexLessEq(b, c)
    ensures LexLessEq(a, c)
  {
    if a != [] && b != [] && c != [] && a[0] == b[0] && b[0] == c[0] {
      LexTransitive(a[1..], b[1..], c[1..]);
    }
  }
}
