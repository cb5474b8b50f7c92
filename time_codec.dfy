/**
 * The `MM:SS.mmm` time codec. The desktop panel (both copies), the Streamlit
 * annotator and the video player each carry their own `parse_time` and
 * `format_time`; this module states them once, with times as integer
 * milliseconds, and relates the copies to one another.
 */
module TimeCodec {
  import opened Wrappers
  import opened Text

  /** Python's `int(a / b)`: the quotient truncated toward zero. */
  function TruncDiv(a: int, b: int): int
    requires b > 0
  {
    if a >= 0 then a / b else -((-a) / b)
  }

  /** What is left after `TruncDiv`: it carries the sign of `a`. */
  function TruncRem(a: int, b: int): (r: int)
    requires b > 0
    ensures a == b * TruncDiv(a, b) + r
    ensures a >= 0 ==> 0 <= r < b
    ensures a < 0 ==> -b < r <= 0
  {
    a - b * TruncDiv(a, b)
  }

  /**
   * `parse_time`: split at `:` into exactly two parts, split the second part
   * at `.`, and read minutes, seconds and the text after the first `.` as
   * integers; a missing fraction counts as 0 and text after a second `.` is
   * ignored. The fraction is an integer count of milliseconds, so "00:05.5" is
   * 5005 ms. Ranges are not checked. Every failure is `None`.
   */
  function ParseTime(text: string): (t: Option<int>)
    ensures t.Some? ==> CountChar(text, ':') == 1
  {
    var parts := Split(text, ':');
    if |parts| != 2 then None
    else
      var secondsParts := Split(parts[1], '.');
      var secs := ParseInt(secondsParts[0]);
      var ms := if |secondsParts| > 1 then ParseInt(secondsParts[1]) else Some(0);
      var minutes := ParseInt(parts[0]);
      if secs.None? || ms.None? || minutes.None? then None
      else Some(minutes.value * 60000 + secs.value * 1000 + ms.value)
  }

  /**
   * `format_time` of the desktop panel and of the player: minutes by floor
   * division, seconds as the floor remainder modulo 60, and milliseconds as the
   * fraction truncated toward zero, each zero-padded (`02d`, `02d`, `03d`).
   */
  function FormatTime(t: int): string
  {
    PadInt(t / 60000, 2) + ":" + PadInt((t / 1000) % 60, 2) + "." + PadInt(TruncRem(t, 1000), 3)
  }

  /**
   * `format_time` of the Streamlit annotator: whole seconds are first
   * truncated toward zero, and minutes and seconds are taken from that.
   */
  function FormatTimeTruncating(t: int): string
  {
    var whole := TruncDiv(t, 1000);
    PadInt(whole / 60, 2) + ":" + PadInt(whole % 60, 2) + "." + PadInt(t - 1000 * whole, 3)
  }

  /** Text `parse_time` reads as written: 2-digit minutes, seconds below 60 and three millisecond digits. */
  predicate IsCanonical(s: string) {
    && |s| == 9 && s[2] == ':' && s[5] == '.'
    && AllDigits(s[..2]) && AllDigits(s[3..5]) && AllDigits(s[6..])
    && DecimalValue(s[3..5]) < 60
  }

  /**
   * How `parse_time` reads text of the shape `minutes:seconds.fraction`
   * whose fields hold neither separator: the three integers, or `None` as soon
   * as one of them is not an integer.
   */
  lemma ParseTimeFields(m: string, s: string, f: string)
    requires ':' !in m && ':' !in s && ':' !in f && '.' !in s && '.' !in f
    ensures ParseTime(m + ":" + s + "." + f) ==
      if ParseInt(m).Some? && ParseInt(s).Some? && ParseInt(f).Some?
      then Some(ParseInt(m).value * 60000 + ParseInt(s).value * 1000 + ParseInt(f).value)
      else None
  {
    var tail := s + ['.'] + f;
    assert m + ":" + s + "." + f == m + [':'] + tail;
    assert ':' !in tail;
    SplitTwo(m, tail, ':');
    SplitTwo(s, f, '.');
    ParseTimeOfParts(m + [':'] + tail, m, tail, s, f);
  }

  /** `parse_time` once the two splits are known. */
  lemma ParseTimeOfParts(text: string, m: string, tail: string, s: string, f: string)
    requires Split(text, ':') == [m, tail] && Split(tail, '.') == [s, f]
    ensures ParseTime(text) ==
      if ParseInt(m).Some? && ParseInt(s).Some? && ParseInt(f).Some?
      then Some(ParseInt(m).value * 60000 + ParseInt(s).value * 1000 + ParseInt(f).value)
      else None
  {
    var parts := Split(text, ':');
    assert |parts| == 2 && parts[0] == m && parts[1] == tail;
    var secondsParts := Split(parts[1], '.');
    assert |secondsParts| > 1 && secondsParts[0] == s && secondsParts[1] == f;
  }

  /** Without a fraction, the milliseconds are 0. */
  lemma ParseTimeNoFraction(m: string, s: string)
    requires ':' !in m && ':' !in s && '.' !in s
    ensures ParseTime(m + ":" + s) ==
      if ParseInt(m).Some? && ParseInt(s).Some?
      then Some(ParseInt(m).value * 60000 + ParseInt(s).value * 1000)
      else None
  {
    assert m + ":" + s == m + [':'] + s;
    SplitTwo(m, s, ':');
    SplitNoSeparator(s, '.');
  }

  /** Text without exactly one `:` is rejected (`None`, not an exception). */
  lemma ParseTimeNeedsOneColon(text: string)
    requires CountChar(text, ':') != 1
    ensures ParseTime(text) == None
  {
  }

  /** A one-digit fraction is one millisecond, not a tenth of a second. */
  lemma ParseTimeFractionIsMilliseconds(text: string)
    requires text == "00:05.5"
    ensures ParseTime(text) == Some(5005)
  {
    assert text == "00" + ":" + "05" + "." + "5";
    ExampleFields();
    ParseTimeFields("00", "05", "5");
  }

  /** The three fields of "00:05.5" as `int()` reads them. */
  lemma ExampleFields()
    ensures ParseInt("00") == Some(0) && ParseInt("05") == Some(5) && ParseInt("5") == Some(5)
  {
    assert "00"[..1] == "0" && "05"[..1] == "0";
    assert DecimalValue("00") == 0 && DecimalValue("05") == 5 && DecimalValue("5") == 5;
    ParseDigits("00");
    ParseDigits("05");
    ParseDigits("5");
  }

  /** A field that `int()` rejects makes the whole text unreadable. */
  lemma ParseTimeRejectsBadField(m: string, s: string, f: string)
    requires ':' !in m && ':' !in s && ':' !in f && '.' !in s && '.' !in f
    requires ParseInt(m).None? || ParseInt(s).None? || ParseInt(f).None?
    ensures ParseTime(m + ":" + s + "." + f) == None
  {
    ParseTimeFields(m, s, f);
  }

  /**
   * A letter (any character other than a digit or a minus sign) in any of the
   * three fields makes the whole text unreadable.
   */
  lemma ParseTimeRejectsLetters(m: string, s: string, f: string, c: char)
    requires ':' !in m && ':' !in s && ':' !in f && '.' !in s && '.' !in f
    requires c in m + s + f && !IsDigit(c) && c != '-'
    ensures ParseTime(m + ":" + s + "." + f) == None
  {
    if c in m {
      NonDigitRejected(m, c);
    } else if c in s {
      NonDigitRejected(s, c);
    } else {
      assert c in f;
      NonDigitRejected(f, c);
    }
    ParseTimeRejectsBadField(m, s, f);
  }

  /** `int()` rejects a field holding a character other than a digit or a minus sign. */
  lemma NonDigitRejected(x: string, c: char)
    requires c in x && !IsDigit(c) && c != '-'
    ensures ParseInt(x).None?
  {
    var k :| 0 <= k < |x| && x[k] == c;
    if k > 0 {
      assert x[1..][k - 1] == c;
    }
  }

  /** Floor division by 60000 is floor division by 1000 and then by 60. */
  lemma DivDiv(t: int)
    ensures t / 60000 == (t / 1000) / 60
  {
    var q, r := t / 60000, t % 60000;
    assert t == 60000 * q + r && 0 <= r < 60000;
    assert t == 1000 * (60 * q + r / 1000) + r % 1000;
    assert t / 1000 == 60 * q + r / 1000;
  }

  /** For negative times that are not whole seconds, floor and truncation differ by one second. */
  lemma FloorVersusTrunc(t: int)
    ensures t / 1000 == if t >= 0 || t % 1000 == 0 then TruncDiv(t, 1000) else TruncDiv(t, 1000) - 1
  {
    if t < 0 {
      var q, r := (-t) / 1000, (-t) % 1000;
      assert -t == 1000 * q + r;
      if r == 0 {
        assert t == 1000 * (-q);
      } else {
        assert t == 1000 * (-q - 1) + (1000 - r);
      }
    }
  }

  /** The time the three fields written by `format_time` stand for. */
  function Reassembled(t: int): int {
    (t / 60000) * 60000 + ((t / 1000) % 60) * 1000 + TruncRem(t, 1000)
  }

  /** `parse_time` reads back the three fields `format_time` wrote. */
  lemma FormatThenParseFields(t: int)
    ensures ParseTime(FormatTime(t)) == Some(Reassembled(t))
  {
    var m, s, f := PadInt(t / 60000, 2), PadInt((t / 1000) % 60, 2), PadInt(TruncRem(t, 1000), 3);
    PadIntAlphabet(t / 60000, 2);
    PadIntAlphabet((t / 1000) % 60, 2);
    PadIntAlphabet(TruncRem(t, 1000), 3);
    ParseTimeFields(m, s, f);
    PadIntRoundTrip(t / 60000, 2);
    PadIntRoundTrip((t / 1000) % 60, 2);
    PadIntRoundTrip(TruncRem(t, 1000), 3);
  }

  /**
   * What `parse_time` makes of `format_time`'s output: the same time for every
   * `t >= 0` (and for whole negative seconds); a negative time with a fraction
   * comes back one second lower, because minutes and seconds are floored while
   * the milliseconds are truncated.
   */
  lemma FormatThenParse(t: int)
    ensures ParseTime(FormatTime(t)) == Some(if t >= 0 || t % 1000 == 0 then t else t - 1000)
    ensures t >= 0 ==> ParseTime(FormatTime(t)) == Some(t)
  {
    FormatThenParseFields(t);
    FieldsSum(t);
  }

  /** The arithmetic behind `FormatThenParse`. */
  lemma FieldsSum(t: int)
    ensures Reassembled(t) == if t >= 0 || t % 1000 == 0 then t else t - 1000
  {
    DivDiv(t);
    FloorVersusTrunc(t);
    var w := t / 1000;
    var q, r := w / 60, w % 60;
    assert w == 60 * q + r;
    assert q * 60000 + r * 1000 == 1000 * w;
    assert TruncRem(t, 1000) == t - 1000 * TruncDiv(t, 1000);
  }

  /** Every canonical text is read and then written back unchanged. */
  lemma CanonicalRoundTrip(s: string)
    requires IsCanonical(s)
    ensures ParseTime(s).Some? && FormatTime(ParseTime(s).value) == s
  {
    CanonicalReads(s);
    CanonicalWrites(s);
  }

  /** The time a canonical text denotes. */
  function CanonicalValue(s: string): int
    requires IsCanonical(s)
  {
    DecimalValue(s[..2]) * 60000 + DecimalValue(s[3..5]) * 1000 + DecimalValue(s[6..])
  }

  /** How `parse_time` reads a canonical text. */
  lemma CanonicalReads(s: string)
    requires IsCanonical(s)
    ensures ParseTime(s) == Some(CanonicalValue(s))
  {
    var mm, ss, fff := s[..2], s[3..5], s[6..];
    assert s == mm + ":" + ss + "." + fff;
    forall i | 0 <= i < 2 ensures mm[i] != ':' && ss[i] != ':' && ss[i] != '.' { }
    forall i | 0 <= i < 3 ensures fff[i] != ':' && fff[i] != '.' { }
    ParseTimeFields(mm, ss, fff);
  }

  /** How `format_time` writes the time a canonical text denotes: the text itself. */
  lemma CanonicalWrites(s: string)
    requires IsCanonical(s)
    ensures FormatTime(CanonicalValue(s)) == s
  {
    var mm, ss, fff := s[..2], s[3..5], s[6..];
    var m, sec, ms := DecimalValue(mm), DecimalValue(ss), DecimalValue(fff);
    var t := CanonicalValue(s);
    DecimalValueBound(fff);
    CanonicalFields(m, sec, ms);
    assert t / 60000 == m && (t / 1000) % 60 == sec && TruncRem(t, 1000) == ms;
    PadIntOfDigits(mm);
    PadIntOfDigits(ss);
    PadIntOfDigits(fff);
    assert FormatTime(t) == mm + ":" + ss + "." + fff;
    assert s == mm + ":" + ss + "." + fff;
  }

  /** A digit string is what `{n:0wd}` writes for its value at its own width. */
  lemma PadIntOfDigits(d: string)
    requires |d| >= 1 && AllDigits(d)
    ensures PadInt(DecimalValue(d), |d|) == d
  {
    ZeroPadDecimalOfDigits(d);
  }

  /** The fields `format_time` recovers from a canonical reading. */
  lemma CanonicalFields(m: nat, sec: nat, ms: nat)
    requires sec < 60 && ms < 1000
    ensures var t := m * 60000 + sec * 1000 + ms;
      t / 60000 == m && (t / 1000) % 60 == sec && TruncRem(t, 1000) == ms
  {
    var t := m * 60000 + sec * 1000 + ms;
    assert t == 1000 * (m * 60 + sec) + ms;
    assert t / 1000 == m * 60 + sec;
    assert t == 60000 * m + (sec * 1000 + ms);
  }

  /** Below 100 minutes, `format_time` always writes canonical text. */
  lemma FormatTimeCanonical(t: int)
    requires 0 <= t < 6000000
    ensures IsCanonical(FormatTime(t))
  {
    var m, sec, ms := t / 60000, (t / 1000) % 60, TruncRem(t, 1000);
    assert Pow10(2) == 100 && Pow10(3) == 1000;
    PaddedField(m, 2);
    PaddedField(sec, 2);
    PaddedField(ms, 3);
    var pa, pb, pc := PadInt(m, 2), PadInt(sec, 2), PadInt(ms, 3);
    var r := FormatTime(t);
    assert r == pa + ":" + pb + "." + pc;
    assert r[..2] == pa && r[3..5] == pb && r[6..] == pc;
  }

  /** A non-negative number below `10^w`, padded to width `w`, is `w` digits with that value. */
  lemma PaddedField(n: nat, w: nat)
    requires 1 <= w && n < Pow10(w)
    ensures |PadInt(n, w)| == w && AllDigits(PadInt(n, w)) && DecimalValue(PadInt(n, w)) == n
  {
    var d := Decimal(n);
    DecimalLength(n, w);
    if |d| < w { DecimalValueZeros(w - |d|, d); }
  }

  /** The two `format_time` variants agree on every non-negative time. */
  lemma FormatVariantsAgree(t: int)
    requires t >= 0
    ensures FormatTimeTruncating(t) == FormatTime(t)
  {
    DivDiv(t);
  }

  /** They disagree on negative fractional times: -0.5 s is "-1:59.-500" in one and "00:00.-500" in the other. */
  lemma FormatVariantsDisagree()
    ensures FormatTime(-500)[0] == '-'
    ensures FormatTimeTruncating(-500)[0] == '0'
    ensures FormatTimeTruncating(-500) != FormatTime(-500)
  {
    FlooredStartsWithMinus();
    TruncatedStartsWithZero();
  }

  lemma FlooredStartsWithMinus()
    ensures FormatTime(-500)[0] == '-'
  {
    var minus := PadInt(-1, 2);
    assert minus[0] == '-';
    assert -500 / 60000 == -1;
    assert FormatTime(-500) == minus + (":" + PadInt((-500 / 1000) % 60, 2) + "." + PadInt(TruncRem(-500, 1000), 3));
  }

  lemma TruncatedStartsWithZero()
    ensures FormatTimeTruncating(-500)[0] == '0'
  {
    var zero := PadInt(0, 2);
    assert zero == Zeros(1) + Decimal(0);
    assert zero[0] == '0';
    assert TruncDiv(-500, 1000) == 0;
    assert FormatTimeTruncating(-500) == zero + (":" + PadInt(0, 2) + "." + PadInt(-500, 3));
  }
}
