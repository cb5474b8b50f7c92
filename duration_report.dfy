/**
 * The video statistics script: every video found below the root is counted
 * at a fixed 15 seconds, the total is written as days, hours, minutes and
 * seconds, and the videos are counted per first-level folder. The file
 * search, the clock and the log are outside the model; the files found are
 * given as their paths relative to the root.
 */
module DurationReport {
  import opened Wrappers
  import opened Text
  import opened Vocabulary
  import opened Catalog
  import opened Store

  /** `VIDEO_DURATION`: the seconds every video is counted as. */
  const VideoDuration: int := 15

  // ---------------------------------------------------------------------------
  // format_duration

  /** A whole number of seconds as `timedelta` normalises it: days, then hours, minutes and seconds of the day. */
  datatype Parts = Parts(days: int, hours: nat, minutes: nat, secs: nat)

  function DurationParts(n: int): (p: Parts)
    ensures p.days * 86400 + p.hours * 3600 + p.minutes * 60 + p.secs == n
    ensures p.hours < 24 && p.minutes < 60 && p.secs < 60
  {
    var inDay := n % 86400;
    Parts(n / 86400, inDay / 3600, (inDay % 3600) / 60, inDay % 60)
  }

  /** The split is the only one with hours below 24 and minutes and seconds below 60. */
  lemma DurationPartsUnique(n: int, p: Parts)
    requires p.days * 86400 + p.hours * 3600 + p.minutes * 60 + p.secs == n
    requires p.hours < 24 && p.minutes < 60 && p.secs < 60
    ensures p == DurationParts(n)
  {
    var q := DurationParts(n);
    var a := p.hours * 3600 + p.minutes * 60 + p.secs;
    var b := q.hours * 3600 + q.minutes * 60 + q.secs;
    assert 0 <= a < 86400 && 0 <= b < 86400;
    assert (p.days - q.days) * 86400 == b - a;
    assert p.days == q.days;
    assert p.hours * 3600 + (p.minutes * 60 + p.secs) == q.hours * 3600 + (q.minutes * 60 + q.secs);
    assert p.hours == q.hours;
    assert p.minutes * 60 + p.secs == q.minutes * 60 + q.secs;
    assert p.minutes == q.minutes;
  }

  /** Days are never negative for a non-negative count. */
  lemma DurationPartsOfNatural(n: nat)
    ensures DurationParts(n).days >= 0
    ensures n < 86400 ==> DurationParts(n).days == 0
  {
  }

  function Token(value: nat, unit: string): string {
    Decimal(value) + unit
  }

  /**
   * The fields `format_duration` shows: all four when there is a day;
   * otherwise from the largest non-zero unit down, and the seconds alone when
   * everything else is zero.
   */
  function Tokens(p: Parts): (ts: seq<string>)
    ensures |ts| == if p.days > 0 then 4 else if p.hours > 0 then 3 else if p.minutes > 0 then 2 else 1
    ensures ts[|ts| - 1] == Token(p.secs, "秒")
  {
    if p.days > 0 then [Token(p.days, "天"), Token(p.hours, "小时"), Token(p.minutes, "分钟"), Token(p.secs, "秒")]
    else if p.hours > 0 then [Token(p.hours, "小时"), Token(p.minutes, "分钟"), Token(p.secs, "秒")]
    else if p.minutes > 0 then [Token(p.minutes, "分钟"), Token(p.secs, "秒")]
    else [Token(p.secs, "秒")]
  }

  /** `format_duration` for seconds already truncated to an integer. */
  function FormatDuration(n: int): string {
    Join(Tokens(DurationParts(n)), ' ')
  }

  /** Reads one field back: digits followed by one of the four units. */
  function ReadToken(t: string): (r: Option<int>)
    ensures r.Some? ==> r.value >= 0
  {
    if |t| >= 2 && t[|t| - 1] == '天' && AllDigits(t[..|t| - 1]) then Some(DecimalValue(t[..|t| - 1]) * 86400)
    else if |t| >= 2 && t[|t| - 1] == '秒' && AllDigits(t[..|t| - 1]) then Some(DecimalValue(t[..|t| - 1]))
    else if |t| >= 3 && t[|t| - 2..] == "小时" && AllDigits(t[..|t| - 2]) then Some(DecimalValue(t[..|t| - 2]) * 3600)
    else if |t| >= 3 && t[|t| - 2..] == "分钟" && AllDigits(t[..|t| - 2]) then Some(DecimalValue(t[..|t| - 2]) * 60)
    else None
  }

  function ReadTokens(ts: seq<string>): Option<int> {
    if ts == [] then Some(0)
    else
      match ReadToken(ts[0])
      case None => None
      case Some(v) =>
        match ReadTokens(ts[1..])
        case None => None
        case Some(rest) => Some(v + rest)
  }

  /** The number of seconds a duration text stands for; `None` for text `format_duration` does not write. */
  function ReadDuration(text: string): Option<int> {
    ReadTokens(Split(text, ' '))
  }

  lemma TokenReads(value: nat, unit: string, scale: int)
    requires (unit, scale) in {("天", 86400), ("小时", 3600), ("分钟", 60), ("秒", 1)}
    ensures ' ' !in Token(value, unit)
    ensures ReadToken(Token(value, unit)) == Some(value * scale)
  {
    var d := Decimal(value);
    var t := Token(value, unit);
    assert t[..|d|] == d;
    assert t[|d|..] == unit;
    forall k | 0 <= k < |t| ensures t[k] != ' ' {
      if k < |d| {
        assert t[k] == d[k] && IsDigit(d[k]);
      } else {
        assert t[k] == unit[k - |d|];
      }
    }
  }

  /** Splitting joined fields that hold no separator gives the fields back. */
  lemma {:induction false} SplitJoin(parts: seq<string>, sep: char)
    requires |parts| >= 1
    requires forall k :: 0 <= k < |parts| ==> sep !in parts[k]
    ensures Split(Join(parts, sep), sep) == parts
  {
    if |parts| == 1 {
      SplitNoSeparator(parts[0], sep);
    } else {
      SplitJoin(parts[1..], sep);
      SplitAtFirst(parts[0], Join(parts[1..], sep), sep);
    }
  }

  /** The fields of `format_duration` are exactly the units it shows. */
  lemma FormatDurationFields(n: int)
    ensures Split(FormatDuration(n), ' ') == Tokens(DurationParts(n))
  {
    var p := DurationParts(n);
    TokenReads(p.secs, "秒", 1);
    TokenReads(p.minutes, "分钟", 60);
    TokenReads(p.hours, "小时", 3600);
    if p.days > 0 {
      TokenReads(p.days, "天", 86400);
    }
    SplitJoin(Tokens(p), ' ');
  }

  lemma ReadTokensCons(t: string, rest: seq<string>, v: int, w: int)
    requires ReadToken(t) == Some(v) && ReadTokens(rest) == Some(w)
    ensures ReadTokens([t] + rest) == Some(v + w)
  {
    assert ([t] + rest)[1..] == rest;
  }

  lemma ReadFromSeconds(p: Parts)
    ensures ReadTokens([Token(p.secs, "秒")]) == Some(p.secs)
  {
    TokenReads(p.secs, "秒", 1);
    ReadTokensCons(Token(p.secs, "秒"), [], p.secs, 0);
    assert [Token(p.secs, "秒")] + [] == [Token(p.secs, "秒")];
  }

  lemma ReadFromMinutes(p: Parts)
    ensures ReadTokens([Token(p.minutes, "分钟"), Token(p.secs, "秒")]) == Some(p.minutes * 60 + p.secs)
  {
    ReadFromSeconds(p);
    TokenReads(p.minutes, "分钟", 60);
    ReadTokensCons(Token(p.minutes, "分钟"), [Token(p.secs, "秒")], p.minutes * 60, p.secs);
  }

  lemma ReadFromHours(p: Parts)
    ensures ReadTokens([Token(p.hours, "小时"), Token(p.minutes, "分钟"), Token(p.secs, "秒")]) == Some(p.hours * 3600 + p.minutes * 60 + p.secs)
  {
    ReadFromMinutes(p);
    TokenReads(p.hours, "小时", 3600);
    var rest := [Token(p.minutes, "分钟"), Token(p.secs, "秒")];
    ReadTokensCons(Token(p.hours, "小时"), rest, p.hours * 3600, p.minutes * 60 + p.secs);
    assert [Token(p.hours, "小时")] + rest == [Token(p.hours, "小时"), Token(p.minutes, "分钟"), Token(p.secs, "秒")];
  }

  lemma ReadFromDays(p: Parts)
    requires p.days >= 0
    ensures ReadTokens([Token(p.days, "天"), Token(p.hours, "小时"), Token(p.minutes, "分钟"), Token(p.secs, "秒")])
      == Some(p.days * 86400 + p.hours * 3600 + p.minutes * 60 + p.secs)
  {
    ReadFromHours(p);
    var rest := [Token(p.hours, "小时"), Token(p.minutes, "分钟"), Token(p.secs, "秒")];
    TokenReads(p.days, "天", 86400);
    ReadTokensCons(Token(p.days, "天"), rest, p.days * 86400, p.hours * 3600 + p.minutes * 60 + p.secs);
    assert [Token(p.days, "天")] + rest == [Token(p.days, "天"), Token(p.hours, "小时"), Token(p.minutes, "分钟"), Token(p.secs, "秒")];
  }

  /** The seconds the fields `format_duration` shows stand for: the days only when they are shown. */
  function ShownValue(p: Parts): int {
    (if p.days > 0 then p.days * 86400 else 0) + p.hours * 3600 + p.minutes * 60 + p.secs
  }

  /** Reading the shown fields back gives the seconds they stand for. */
  lemma TokensRead(p: Parts)
    ensures ReadTokens(Tokens(p)) == Some(ShownValue(p))
  {
    if p.days > 0 {
      TokensReadWithDays(p);
    } else if p.hours > 0 {
      TokensReadFromHours(p);
    } else if p.minutes > 0 {
      TokensReadFromMinutes(p);
    } else {
      TokensReadSeconds(p);
    }
  }

  lemma TokensReadWithDays(p: Parts)
    requires p.days > 0
    ensures ReadTokens(Tokens(p)) == Some(ShownValue(p))
  {
    assert Tokens(p) == [Token(p.days, "天"), Token(p.hours, "小时"), Token(p.minutes, "分钟"), Token(p.secs, "秒")];
    ReadFromDays(p);
  }

  lemma TokensReadFromHours(p: Parts)
    requires p.days <= 0 && p.hours > 0
    ensures ReadTokens(Tokens(p)) == Some(ShownValue(p))
  {
    assert Tokens(p) == [Token(p.hours, "小时"), Token(p.minutes, "分钟"), Token(p.secs, "秒")];
    ReadFromHours(p);
  }

  lemma TokensReadFromMinutes(p: Parts)
    requires p.days <= 0 && p.hours == 0 && p.minutes > 0
    ensures ReadTokens(Tokens(p)) == Some(ShownValue(p))
  {
    assert Tokens(p) == [Token(p.minutes, "分钟"), Token(p.secs, "秒")];
    ReadFromMinutes(p);
  }

  lemma TokensReadSeconds(p: Parts)
    requires p.days <= 0 && p.hours == 0 && p.minutes == 0
    ensures ReadTokens(Tokens(p)) == Some(ShownValue(p))
  {
    assert Tokens(p) == [Token(p.secs, "秒")];
    ReadFromSeconds(p);
  }

  /**
   * Reading the text of `format_duration` back gives the seconds for any
   * non-negative count. For a negative count the (negative) days are not
   * shown and only the time of day is read back.
   */
  lemma FormatDurationReadsBack(n: int)
    ensures ReadDuration(FormatDuration(n)) == Some(if n >= 0 then n else n % 86400)
  {
    var p := DurationParts(n);
    FormatDurationFields(n);
    TokensRead(p);
    ShownSeconds(n);
  }

  /** The seconds the shown fields of `n` stand for. */
  lemma ShownSeconds(n: int)
    ensures ShownValue(DurationParts(n)) == if n >= 0 then n else n % 86400
  {
    var p := DurationParts(n);
    DayRemainder(n);
    ShownDays(n, p.days, p.hours * 3600 + p.minutes * 60 + p.secs);
  }

  /** Leaving out days that are not positive drops exactly the negative whole days. */
  lemma ShownDays(n: int, days: int, inDay: int)
    requires inDay == n % 86400 && n == days * 86400 + inDay
    ensures (if days > 0 then days * 86400 else 0) + inDay == if n >= 0 then n else n % 86400
  {
    assert days < 0 ==> days * 86400 <= -86400;
    assert days > 0 ==> days * 86400 >= 86400;
  }

  /** The hours, minutes and seconds shown make up the time of day. */
  lemma DayRemainder(n: int)
    ensures var p := DurationParts(n);
      p.hours * 3600 + p.minutes * 60 + p.secs == n % 86400 && n == p.days * 86400 + n % 86400
  {
    var inDay := n % 86400;
    var inHour := inDay % 3600;
    assert inDay == (inDay / 3600) * 3600 + inHour;
    assert inHour == (inHour / 60) * 60 + inHour % 60;
    assert inHour % 60 == inDay % 60;
  }

  /** Under a minute the text is the seconds alone. */
  lemma FormatDurationUnderAMinute(n: int)
    requires 0 <= n < 60
    ensures FormatDuration(n) == Decimal(n) + "秒"
  {
    DurationPartsUnique(n, Parts(0, 0, 0, n));
  }

  /** From a minute to an hour the text is the minutes and the seconds, the seconds shown even when zero. */
  lemma FormatDurationUnderAnHour(n: int)
    requires 60 <= n < 3600
    ensures FormatDuration(n) == Decimal(n / 60) + "分钟 " + Decimal(n % 60) + "秒"
  {
    var m, sec := n / 60, n % 60;
    assert n == m * 60 + sec && 1 <= m < 60 && 0 <= sec < 60;
    DurationPartsUnique(n, Parts(0, 0, m, sec));
    var ts := [Token(m, "分钟"), Token(sec, "秒")];
    assert Tokens(DurationParts(n)) == ts;
    JoinFields(ts);
    assert Token(m, "分钟") + " " + Token(sec, "秒") == Decimal(m) + "分钟 " + Decimal(sec) + "秒";
  }

  /** From an hour to a day the text is the hours, minutes and seconds, zeros included. */
  lemma FormatDurationUnderADay(n: int)
    requires 3600 <= n < 86400
    ensures var p := DurationParts(n);
      && p.days == 0 && p.hours == n / 3600
      && FormatDuration(n) == Decimal(p.hours) + "小时 " + Decimal(p.minutes) + "分钟 " + Decimal(p.secs) + "秒"
  {
    var p := DurationParts(n);
    JoinFields([Token(p.hours, "小时"), Token(p.minutes, "分钟"), Token(p.secs, "秒")]);
    assert Token(p.hours, "小时") + " " + Token(p.minutes, "分钟") + " " + Token(p.secs, "秒")
      == Decimal(p.hours) + "小时 " + Decimal(p.minutes) + "分钟 " + Decimal(p.secs) + "秒";
  }

  /** From a day on the text names every unit, zeros included. */
  lemma FormatDurationFromADay(n: int)
    requires n >= 86400
    ensures var p := DurationParts(n);
      && p.days == n / 86400
      && FormatDuration(n) == Decimal(p.days) + "天 " + Decimal(p.hours) + "小时 " + Decimal(p.minutes) + "分钟 " + Decimal(p.secs) + "秒"
  {
    var p := DurationParts(n);
    JoinFields([Token(p.days, "天"), Token(p.hours, "小时"), Token(p.minutes, "分钟"), Token(p.secs, "秒")]);
    assert Token(p.days, "天") + " " + Token(p.hours, "小时") + " " + Token(p.minutes, "分钟") + " " + Token(p.secs, "秒")
      == Decimal(p.days) + "天 " + Decimal(p.hours) + "小时 " + Decimal(p.minutes) + "分钟 " + Decimal(p.secs) + "秒";
  }

  /** Joining one to four fields with spaces. */
  lemma {:induction false} JoinFields(ts: seq<string>)
    requires 1 <= |ts| <= 4
    ensures |ts| == 1 ==> Join(ts, ' ') == ts[0]
    ensures |ts| == 2 ==> Join(ts, ' ') == ts[0] + " " + ts[1]
    ensures |ts| == 3 ==> Join(ts, ' ') == ts[0] + " " + ts[1] + " " + ts[2]
    ensures |ts| == 4 ==> Join(ts, ' ') == ts[0] + " " + ts[1] + " " + ts[2] + " " + ts[3]
  {
    if |ts| > 1 {
      var rest := ts[1..];
      assert Join(ts, ' ') == ts[0] + " " + Join(rest, ' ');
      JoinFields(rest);
      if |ts| == 2 {
        assert rest[0] == ts[1];
      } else if |ts| == 3 {
        assert rest[0] == ts[1] && rest[1] == ts[2];
        assert ts[0] + " " + (ts[1] + " " + ts[2]) == ts[0] + " " + ts[1] + " " + ts[2];
      } else {
        assert rest[0] == ts[1] && rest[1] == ts[2] && rest[2] == ts[3];
        assert ts[0] + " " + (ts[1] + " " + ts[2] + " " + ts[3]) == ts[0] + " " + ts[1] + " " + ts[2] + " " + ts[3];
      }
    }
  }

  // ---------------------------------------------------------------------------
  // scan_videos

  /** One entry of the scan: the file name, the path relative to the root, and the fixed duration. */
  datatype VideoEntry = VideoEntry(name: string, relativePath: Path, duration: int)

  predicate IsProgressPoint(idx: int, total: int) {
    1 <= idx <= total && (idx % 100 == 0 || idx == total)
  }

  /**
   * `scan_videos`: no entries when the root does not exist (`None`);
   * otherwise one entry per file found, in the order found, each at the
   * fixed duration. `progress` lists the 1-based positions at which a
   * progress line is logged: every hundredth file and the last one.
   */
  method ScanVideos(found: Option<seq<Path>>) returns (files: seq<VideoEntry>, progress: seq<int>)
    ensures found.None? ==> files == [] && progress == []
    ensures found.Some? ==> |files| == |found.value|
    ensures found.Some? ==> forall k :: 0 <= k < |files| ==>
      files[k] == VideoEntry(Name(found.value[k]), found.value[k], VideoDuration)
    ensures forall idx :: idx in progress <==> found.Some? && IsProgressPoint(idx, |found.value|)
    ensures forall j, k :: 0 <= j < k < |progress| ==> progress[j] < progress[k]
  {
    files := [];
    progress := [];
    if found.None? {
      return;
    }
    var paths := found.value;
    var total := |paths|;
    var idx := 1;
    while idx <= total
      invariant 1 <= idx <= total + 1 && |files| == idx - 1
      invariant forall k :: 0 <= k < |files| ==> files[k] == VideoEntry(Name(paths[k]), paths[k], VideoDuration)
      invariant forall i :: i in progress <==> IsProgressPoint(i, total) && i < idx
      invariant forall k :: 0 <= k < |progress| ==> progress[k] < idx
      invariant forall j, k :: 0 <= j < k < |progress| ==> progress[j] < progress[k]
    {
      var path := paths[idx - 1];
      files := files + [VideoEntry(Name(path), path, VideoDuration)];
      if idx % 100 == 0 || idx == total {
        progress := progress + [idx];
      }
      idx := idx + 1;
    }
  }

  // ---------------------------------------------------------------------------
  // generate_report

  /** The first-level folder a relative path is counted under; a path without parts counts under "root". */
  function FolderOf(relativePath: Path): string {
    if |relativePath| > 0 then relativePath[0] else "root"
  }

  function Folders(files: seq<VideoEntry>): (fs: seq<string>)
    ensures |fs| == |files| && forall k :: 0 <= k < |files| ==> fs[k] == FolderOf(files[k].relativePath)
  {
    if files == [] then [] else Folders(files[..|files| - 1]) + [FolderOf(files[|files| - 1].relativePath)]
  }

  /** `folder_stats` after counting `folders` in turn. */
  function Counts(folders: seq<string>): map<string, nat> {
    if folders == [] then map[]
    else
      var m := Counts(folders[..|folders| - 1]);
      var f := folders[|folders| - 1];
      m[f := (if f in m then m[f] else 0) + 1]
  }

  /** The keys of `folder_stats` in insertion order: each folder where it first occurs. */
  function FirstOccurrences(folders: seq<string>): seq<string> {
    if folders == [] then []
    else
      var ks := FirstOccurrences(folders[..|folders| - 1]);
      var f := folders[|folders| - 1];
      if f in ks then ks else ks + [f]
  }

  lemma CountsExtend(folders: seq<string>, f: string)
    ensures var m := Counts(folders);
      Counts(folders + [f]) == m[f := (if f in m then m[f] else 0) + 1]
    ensures var ks := FirstOccurrences(folders);
      FirstOccurrences(folders + [f]) == if f in ks then ks else ks + [f]
  {
    assert (folders + [f])[..|folders|] == folders;
  }

  /** Every counted folder is a key, in insertion order once, and the count of a key is how often it occurs. */
  lemma {:induction false} CountsMeaning(folders: seq<string>)
    ensures forall f :: f in Counts(folders) <==> f in folders
    ensures forall f :: f in FirstOccurrences(folders) <==> f in folders
    ensures Distinct(FirstOccurrences(folders))
    ensures forall f :: f in Counts(folders) ==> Counts(folders)[f] == Occurrences(folders, f)
  {
    if folders != [] {
      var init := folders[..|folders| - 1];
      var last := folders[|folders| - 1];
      CountsMeaning(init);
      assert folders == init + [last];
      forall f | f in Counts(folders)
        ensures Counts(folders)[f] == Occurrences(folders, f)
      {
        if f != last {
          assert f in init;
        } else if last !in init {
          OccurrencesOfAbsent(init, last);
        }
      }
    }
  }

  // Code-point order on the folder names, as `sorted` uses it

  predicate Sorted(s: seq<string>) {
    forall i, j :: 0 <= i < j < |s| ==> LexLessEq(s[i], s[j])
  }

  function Insert(x: string, s: seq<string>): (r: seq<string>)
    ensures |r| == |s| + 1
    ensures forall y :: y in r <==> y == x || y in s
    ensures Sorted(s) ==> Sorted(r)
    ensures Distinct(s) && x !in s ==> Distinct(r)
  {
    if s == [] then [x]
    else if LexLessEq(x, s[0]) then
      InsertAtHead(x, s);
      [x] + s
    else
      var rest := Insert(x, s[1..]);
      InsertAfterHead(x, s, rest);
      [s[0]] + rest
  }

  /** A key not above the first of a sorted list may go in front of it. */
  lemma InsertAtHead(x: string, s: seq<string>)
    requires s != [] && LexLessEq(x, s[0])
    ensures Sorted(s) ==> Sorted([x] + s)
  {
    if Sorted(s) {
      forall j | 0 < j < |s| ensures LexLessEq(x, s[j]) {
        LexTransitive(x, s[0], s[j]);
      }
    }
  }

  /** A key above the first one goes into the rest, and the first one stays in front. */
  lemma InsertAfterHead(x: string, s: seq<string>, rest: seq<string>)
    requires s != [] && !LexLessEq(x, s[0])
    requires forall y :: y in rest <==> y == x || y in s[1..]
    requires Sorted(s[1..]) ==> Sorted(rest)
    requires Distinct(s[1..]) && x !in s[1..] ==> Distinct(rest)
    ensures Sorted(s) ==> Sorted([s[0]] + rest)
    ensures Distinct(s) && x !in s ==> Distinct([s[0]] + rest)
  {
    LexTotal(x, s[0]);
    if Sorted(s) {
      forall k | 0 <= k < |rest| ensures LexLessEq(s[0], rest[k]) {
        assert rest[k] in rest;
        if rest[k] != x {
          var i :| 0 <= i < |s[1..]| && s[1..][i] == rest[k];
          assert s[i + 1] == rest[k];
        }
      }
    }
    if Distinct(s) && x !in s {
      forall k | 0 <= k < |rest| ensures s[0] != rest[k] {
        assert rest[k] in rest;
        if rest[k] != x {
          var i :| 0 <= i < |s[1..]| && s[1..][i] == rest[k];
          assert s[i + 1] == rest[k];
        }
      }
    }
  }

  /** `sorted` on distinct keys: the same keys, each once, in ascending order. */
  function Sort(s: seq<string>): (r: seq<string>)
    ensures |r| == |s| && Sorted(r)
    ensures forall y :: y in r <==> y in s
    ensures Distinct(s) ==> Distinct(r)
  {
    if s == [] then [] else Insert(s[0], Sort(s[1..]))
  }

  /** How many of `folders` fall under one of the keys in `ks`. */
  function SumOccurrences(ks: seq<string>, folders: seq<string>): nat {
    if ks == [] then 0 else SumOccurrences(ks[..|ks| - 1], folders) + Occurrences(folders, ks[|ks| - 1])
  }

  lemma {:induction false} SumOccurrencesOfNone(ks: seq<string>)
    ensures SumOccurrences(ks, []) == 0
  {
    if ks != [] {
      SumOccurrencesOfNone(ks[..|ks| - 1]);
    }
  }

  lemma {:induction false} SumOccurrencesExtend(ks: seq<string>, folders: seq<string>, f: string)
    ensures SumOccurrences(ks, folders + [f]) == SumOccurrences(ks, folders) + Occurrences(ks, f)
  {
    assert (folders + [f])[..|folders|] == folders;
    if ks != [] {
      SumOccurrencesExtend(ks[..|ks| - 1], folders, f);
    }
  }

  lemma {:induction false} OccursOnce(ks: seq<string>, f: string)
    requires Distinct(ks) && f in ks
    ensures Occurrences(ks, f) == 1
  {
    var init := ks[..|ks| - 1];
    if ks[|ks| - 1] == f {
      assert f !in init by {
        forall k | 0 <= k < |init| ensures init[k] != f {
          assert ks[k] == init[k];
        }
      }
      OccurrencesOfAbsent(init, f);
    } else {
      assert f in init by {
        var k :| 0 <= k < |ks| && ks[k] == f;
        assert init[k] == f;
      }
      OccursOnce(init, f);
    }
  }

  /** Keys that each occur once and cover every folder account for every file exactly once. */
  lemma {:induction false} SumOccurrencesCovers(ks: seq<string>, folders: seq<string>)
    requires Distinct(ks) && forall f :: f in folders ==> f in ks
    ensures SumOccurrences(ks, folders) == |folders|
  {
    if folders == [] {
      SumOccurrencesOfNone(ks);
    } else {
      var init := folders[..|folders| - 1];
      var last := folders[|folders| - 1];
      assert folders == init + [last];
      SumOccurrencesCovers(ks, init);
      SumOccurrencesExtend(ks, init, last);
      OccursOnce(ks, last);
    }
  }

  /** The statistics report: the totals, the annotation-time estimates and each folder's duration in key order. */
  datatype Report = Report(totalCount: nat, totalDuration: int, estimates: seq<int>, folders: seq<(string, int)>)

  function FolderDurationSum(rows: seq<(string, int)>): int {
    if rows == [] then 0 else FolderDurationSum(rows[..|rows| - 1]) + rows[|rows| - 1].1
  }

  /** The counting loop of `generate_report`: `folder_stats` and its keys in insertion order. */
  method CountFolders(files: seq<VideoEntry>) returns (stats: map<string, nat>, order: seq<string>)
    ensures stats == Counts(Folders(files)) && order == FirstOccurrences(Folders(files))
  {
    var folders := Folders(files);
    stats := map[];
    order := [];
    var i := 0;
    while i < |files|
      invariant 0 <= i <= |files|
      invariant stats == Counts(folders[..i]) && order == FirstOccurrences(folders[..i])
    {
      var folder := FolderOf(files[i].relativePath);
      CountStep(folders, i, folder);
      if folder !in stats {
        order := order + [folder];
        stats := stats[folder := 0];
      }
      stats := stats[folder := stats[folder] + 1];
      i := i + 1;
    }
    assert folders[..i] == folders;
  }

  /** One turn of the counting loop: the folder gets a key at its first occurrence, then one more count. */
  lemma CountStep(folders: seq<string>, i: nat, f: string)
    requires i < |folders| && folders[i] == f
    ensures var m := Counts(folders[..i]);
      var next := if f in m then m else m[f := 0];
      Counts(folders[..i + 1]) == next[f := next[f] + 1]
    ensures var m := Counts(folders[..i]);
      FirstOccurrences(folders[..i + 1]) == if f in m then FirstOccurrences(folders[..i]) else FirstOccurrences(folders[..i]) + [f]
  {
    assert folders[..i + 1] == folders[..i] + [f];
    CountsExtend(folders[..i], f);
    CountsMeaning(folders[..i]);
  }

  /** Rows whose folder names are distinct and ascending. */
  predicate AscendingFolders(rows: seq<(string, int)>) {
    forall i, j :: 0 <= i < j < |rows| ==> LexLessEq(rows[i].0, rows[j].0) && rows[i].0 != rows[j].0
  }

  /** The report loop: one row per key, its count times the fixed duration. */
  method FolderRows(keys: seq<string>, stats: map<string, nat>) returns (rows: seq<(string, int)>)
    requires forall k :: 0 <= k < |keys| ==> keys[k] in stats
    ensures |rows| == |keys|
    ensures forall k :: 0 <= k < |keys| ==> rows[k] == (keys[k], stats[keys[k]] * VideoDuration)
    ensures Sorted(keys) && Distinct(keys) ==> AscendingFolders(rows)
  {
    rows := [];
    var j := 0;
    while j < |keys|
      invariant 0 <= j <= |keys| && |rows| == j
      invariant forall k :: 0 <= k < j ==> rows[k] == (keys[k], stats[keys[k]] * VideoDuration)
    {
      rows := rows + [(keys[j], stats[keys[j]] * VideoDuration)];
      j := j + 1;
    }
  }

  /** Rows that give each key its number of files times the fixed duration add up to the files those keys cover. */
  lemma {:induction false} RowsSum(rows: seq<(string, int)>, keys: seq<string>, folders: seq<string>)
    requires |rows| == |keys|
    requires forall k :: 0 <= k < |keys| ==> rows[k] == (keys[k], Occurrences(folders, keys[k]) * VideoDuration)
    ensures FolderDurationSum(rows) == SumOccurrences(keys, folders) * VideoDuration
  {
    if rows != [] {
      RowsSum(rows[..|rows| - 1], keys[..|keys| - 1], folders);
    }
  }

  /**
   * `generate_report`: every file counts the fixed duration; the estimates
   * are three, four and five times the total; each first-level folder
   * appears once, in ascending order, with its number of files times the
   * fixed duration, and the folder durations add up to the total.
   */
  method GenerateReport(files: seq<VideoEntry>) returns (report: Report, stats: map<string, nat>)
    ensures report.totalCount == |files| && report.totalDuration == |files| * VideoDuration
    ensures report.estimates == [report.totalDuration * 3, report.totalDuration * 4, report.totalDuration * 5]
    ensures stats == Counts(Folders(files))
    ensures |report.folders| == |stats|
    ensures AscendingFolders(report.folders)
    ensures forall i :: 0 <= i < |report.folders| ==>
      report.folders[i].0 in stats && report.folders[i].1 == stats[report.folders[i].0] * VideoDuration
    ensures forall f :: f in stats ==> exists i :: 0 <= i < |report.folders| && report.folders[i].0 == f
    ensures FolderDurationSum(report.folders) == report.totalDuration
  {
    var total := |files| * VideoDuration;
    var order;
    stats, order := CountFolders(files);
    var keys := Sort(order);
    KeysCounted(Folders(files), keys);
    var rows := FolderRows(keys, stats);
    ReportRows(Folders(files), stats, keys, rows);
    report := Report(|files|, total, [total * 3, total * 4, total * 5], rows);
  }

  /** The rows of the report, made from the sorted keys, have the properties `generate_report` promises. */
  lemma ReportRows(folders: seq<string>, stats: map<string, nat>, keys: seq<string>, rows: seq<(string, int)>)
    requires stats == Counts(folders) && keys == Sort(FirstOccurrences(folders))
    requires forall k :: 0 <= k < |keys| ==> keys[k] in stats
    requires |rows| == |keys| && forall k :: 0 <= k < |keys| ==> rows[k] == (keys[k], stats[keys[k]] * VideoDuration)
    requires Sorted(keys) && Distinct(keys) ==> AscendingFolders(rows)
    ensures |rows| == |stats| && AscendingFolders(rows)
    ensures forall i :: 0 <= i < |rows| ==> rows[i].0 in stats && rows[i].1 == stats[rows[i].0] * VideoDuration
    ensures forall f :: f in stats ==> exists i :: 0 <= i < |rows| && rows[i].0 == f
    ensures FolderDurationSum(rows) == |folders| * VideoDuration
  {
    SortedKeys(folders, keys);
    RowsSum(rows, keys, folders);
    RowsCover(rows, keys, stats);
  }

  /** Every sorted key has a count. */
  lemma KeysCounted(folders: seq<string>, keys: seq<string>)
    requires keys == Sort(FirstOccurrences(folders))
    ensures forall k :: 0 <= k < |keys| ==> keys[k] in Counts(folders)
  {
    SortedKeys(folders, keys);
  }

  /** Rows made one per key name every folder the keys cover. */
  lemma RowsCover(rows: seq<(string, int)>, keys: seq<string>, stats: map<string, nat>)
    requires |rows| == |keys| && forall k :: 0 <= k < |keys| ==> rows[k].0 == keys[k]
    requires forall f :: f in stats ==> f in keys
    ensures forall f :: f in stats ==> exists i :: 0 <= i < |rows| && rows[i].0 == f
  {
    forall f | f in stats ensures exists i :: 0 <= i < |rows| && rows[i].0 == f {
      var i :| 0 <= i < |keys| && keys[i] == f;
      assert rows[i].0 == f;
    }
  }

  /** The sorted keys of `folder_stats`: each folder once, with its count, and together they cover every file. */
  lemma SortedKeys(folders: seq<string>, keys: seq<string>)
    requires keys == Sort(FirstOccurrences(folders))
    ensures forall f :: f in Counts(folders) <==> f in keys
    ensures forall k :: 0 <= k < |keys| ==> keys[k] in Counts(folders) && Counts(folders)[keys[k]] == Occurrences(folders, keys[k])
    ensures Distinct(keys) && |keys| == |Counts(folders)|
    ensures SumOccurrences(keys, folders) == |folders|
  {
    CountsMeaning(folders);
    var stats := Counts(folders);
    forall k | 0 <= k < |keys| ensures keys[k] in stats {
      assert keys[k] in keys;
    }
    SumOccurrencesCovers(keys, folders);
    assert stats.Keys == set f | f in keys;
    DistinctCardinality(keys);
  }

  /** A sequence without repeats has as many elements as its set. */
  lemma {:induction false} DistinctCardinality(s: seq<string>)
    requires Distinct(s)
    ensures |set f | f in s| == |s|
  {
    if s != [] {
      var init := s[..|s| - 1];
      var last := s[|s| - 1];
      assert s == init + [last];
      DistinctCardinality(init);
      assert last !in init by {
        forall k | 0 <= k < |init| ensures init[k] != last {
          assert s[k] == init[k];
        }
      }
      assert (set f | f in s) == (set f | f in init) + {last};
    }
  }
}
