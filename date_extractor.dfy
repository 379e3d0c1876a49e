/**
 * `DateExtractor.extract_date`: normalises a date written in one of the forms
 * Chinese and English news sites use into a date-time. The text is
 * whitespace-collapsed and a leading "published on" label is removed; then the
 * relative expressions ("3天前", "昨天", "刚刚", ...) are tried, and only when
 * none occurs, the absolute patterns in table order. Of each absolute pattern
 * only the leftmost hit is examined; a hit whose month or day is out of range,
 * or that names no real calendar date, hands over to the next pattern.
 * The current time is a parameter.
 */
module DateExtractor {
  import opened Wrappers
  import opened Text
  import opened Regex
  import opened Calendar

  /** What `extract_date` does: no date (`None`), a date-time, or an
    * `OverflowError` escaping from a relative offset that reaches before year 1. */
  datatype Outcome = NoDate | Dated(when: DateTime) | Overflow

  // ----- the tables -----

  /** `MONTH_MAP`: title-cased three-letter English month abbreviations. */
  const MonthMap: map<string, int> :=
    map["Jan" := 1, "Feb" := 2, "Mar" := 3, "Apr" := 4, "May" := 5, "Jun" := 6,
        "Jul" := 7, "Aug" := 8, "Sep" := 9, "Oct" := 10, "Nov" := 11, "Dec" := 12]

  function Digits(lo: nat, hi: nat): Atom { Run(Digit, lo, UpTo(hi), true) }
  const SomeDigits: Atom := Run(Digit, 1, Unbounded, true)
  const Letters: Atom := Run(Letter, 1, Unbounded, true)
  const Spaces: Atom := Run(Space, 1, Unbounded, false)
  const MaybeSpaces: Atom := Run(Space, 0, Unbounded, false)
  function Char(c: char): Atom { One([c]) }

  /** `PATTERNS`, in order. */
  const Patterns: seq<seq<Atom>> := [
    [Digits(4, 4), Char('-'), Digits(2, 2), Char('-'), Digits(2, 2)],                    // 2024-03-22
    [Digits(4, 4), Char('/'), Digits(2, 2), Char('/'), Digits(2, 2)],                    // 2024/03/22
    [Digits(4, 4), Char('年'), Digits(1, 2), Char('月'), Digits(1, 2), Char('日')],       // 2024年3月22日
    [Digits(4, 4), Char('.'), Digits(1, 2), Char('.'), Digits(1, 2)],                    // 2024.3.22
    [Letters, Spaces, Digits(1, 2), Opt([',']), MaybeSpaces, Digits(4, 4)],              // Dec 7, 2024
    [Digits(1, 2), Spaces, Letters, Spaces, Digits(4, 4)],                               // 7 Dec 2024
    [Letters, Spaces, Digits(1, 2)],                                                     // Dec 7
    [Digits(1, 2), Spaces, Letters],                                                     // 7 Dec
    [Digits(2, 2), Char('-'), Digits(2, 2), Char('-'), Digits(2, 2)],                    // 24-03-22
    [Digits(2, 2), Char('/'), Digits(2, 2), Char('/'), Digits(2, 2)]                     // 24/03/22
  ]

  /** How far back a relative expression points: a count of a unit, or a fixed offset. */
  datatype Offset = PerUnit(seconds: nat) | Fixed(seconds: nat)

  /** `RELATIVE_PATTERNS`, in order, with the offset each one denotes. */
  const RelativePatterns: seq<(seq<Atom>, Offset)> := [
    ([SomeDigits, MaybeSpaces] + Literal("分钟前"), PerUnit(60)),
    ([SomeDigits, MaybeSpaces] + Literal("小时前"), PerUnit(3600)),
    ([SomeDigits, MaybeSpaces] + Literal("天前"), PerUnit(86400)),
    (Literal("昨天"), Fixed(86400)),
    (Literal("前天"), Fixed(2 * 86400)),
    (Literal("刚刚"), Fixed(0))
  ]

  /** The labels removed from the front of the text, compared case-insensitively. */
  const Labels: seq<string> := ["发布于", "发表于", "Published on", "Posted on", "Date:"]

  // ----- cleaning -----

  /** `re.sub(r'^(发布于|...|Date:)\s*', '', t, flags=re.IGNORECASE)`. */
  function StripLabel(t: string): (r: string)
    ensures |r| <= |t|
  {
    StripLabelFrom(t, 0)
  }

  function StripLabelFrom(t: string, k: nat): (r: string)
    requires k <= |Labels|
    ensures |r| <= |t|
    decreases |Labels| - k
  {
    if k == |Labels| then t
    else
      var l := Labels[k];
      if |l| <= |t| && Lower(t[..|l|]) == Lower(l) then t[SkipSpaces(t, |l|)..]
      else StripLabelFrom(t, k + 1)
  }

  /** A text that starts with none of the labels keeps its front: it does not start
    * with 发, nor with `p` or `P`, nor with `da` in any case. */
  lemma NoLabel(t: string)
    requires t != [] && t[0] != '发' && AsciiLowerChar(t[0]) != 'p'
    requires AsciiLowerChar(t[0]) != 'd' || |t| < 2 || AsciiLowerChar(t[1]) != 'a'
    ensures StripLabel(t) == t
  {
    forall k | 0 <= k < |Labels| && |Labels[k]| <= |t|
      ensures Lower(t[..|Labels[k]|]) != Lower(Labels[k])
    {
      var l := Labels[k];
      assert Lower(t[..|l|])[0] == AsciiLowerChar(t[0]);
      assert Lower(t[..|l|])[1] == AsciiLowerChar(t[1]);
    }
  }

  /** The text the patterns are searched in. */
  function Clean(text: string): string
  {
    StripLabel(Squeeze(text))
  }

  // ----- reading the groups of a hit -----

  /** `int(s)` for the ASCII digit strings the patterns capture; `None` where it raises. */
  function IntOf(c: Capture): (r: Option<nat>)
    ensures r.Some? ==> AllDigits(c.s) && r.value == DigitsValue(c.s)
  {
    if c.s != [] && AllDigits(c.s) then Some(DigitsValue(c.s)) else None
  }

  /** `s.title()` for a word of ASCII letters: first letter upper case, the rest lower case. */
  function Title(s: string): string
  {
    if s == [] then [] else [AsciiUpperChar(s[0])] + Lower(s[1..])
  }

  /** `MONTH_MAP.get(name[:3].title())`. */
  function MonthOf(name: string): (r: Option<int>)
    ensures r.Some? ==> 1 <= r.value <= 12
  {
    var key := Title(if |name| <= 3 then name else name[..3]);
    if key in MonthMap then Some(MonthMap[key]) else None
  }

  predicate StartsWithLetter(s: string)
  {
    s != [] && IsAsciiLetter(s[0])
  }

  /** The date a hit denotes, or `None` where the source moves on to the next pattern. */
  function Interpret(t: string, g: Groups, thisYear: int): (r: Option<Date>)
    requires GroupsIn(t, g)
    ensures r.Some? ==> Valid(r.value)
  {
    if Count(g) < 2 then None
    else
      var p0, p1 := Nth(t, g, 0), Nth(t, g, 1);
      var third := if Count(g) > 2 then Some(Nth(t, g, 2)) else None;
      var fields :=
        if StartsWithLetter(p0.s) then Fields(MonthOf(p0.s), IntOf(p1), third, thisYear)
        else if StartsWithLetter(p1.s) then Fields(MonthOf(p1.s), IntOf(p0), third, thisYear)
        else if third.None? then None
        else
          match (IntOf(p0), IntOf(p1), IntOf(third.value))
          case (Some(y), Some(m), Some(d)) => Some((y, m, d))
          case _ => None;
      match fields
      case None => None
      case Some((y, m, d)) =>
        if !(1 <= m <= 12 && 1 <= d <= 31) then None
        else
          var date := Date(FullYear(y), m, d);
          if Valid(date) then Some(date) else None
  }

  /** `if year < 100: year += 2000`. */
  function FullYear(y: int): int
  {
    if y < 100 then y + 2000 else y
  }

  /** Year, month and day of a hit that names its month; the year is the current one
    * when the pattern has no third group. */
  function Fields(month: Option<int>, day: Option<nat>, third: Option<Capture>, thisYear: int): Option<(int, int, int)>
  {
    match (month, day)
    case (Some(m), Some(d)) =>
      if third.Some? then
        match IntOf(third.value)
        case Some(y) => Some((y, m, d))
        case None => None
      else Some((thisYear, m, d))
    case _ => None
  }

  /** Only the first three letters of a month name count: "December" is "Dec". */
  lemma MonthByPrefix(name: string)
    requires |name| >= 3
    ensures MonthOf(name) == MonthOf(name[..3])
  {
    if |name| == 3 {
      assert name[..3] == name;
    }
  }

  /** The month name is read case-blind: "dec", "DEC" and "Dec" are the same month. */
  lemma MonthCaseBlind(name: string)
    ensures MonthOf(Lower(name)) == MonthOf(name)
  {
    var p := if |name| <= 3 then name else name[..3];
    var q := if |name| <= 3 then Lower(name) else Lower(name)[..3];
    assert q == Lower(p);
    if p != [] {
      assert Lower(q[1..]) == Lower(p[1..]);
    }
  }

  /** Each abbreviation of the table names its own month. */
  lemma MonthOfAbbreviation(key: string)
    requires key in MonthMap
    ensures MonthOf(key) == Some(MonthMap[key])
  {
    assert |key| == 3 && 'A' <= key[0] <= 'Z' && 'a' <= key[1] <= 'z' && 'a' <= key[2] <= 'z';
    assert Lower(key[1..]) == key[1..];
    assert Title(key) == key;
  }

  /** Three numeric groups are year, month and day, in that order; a year below 100
    * is in the 2000s, and the hit is a date exactly when that date exists. */
  lemma InterpretDigits(t: string, g: Groups, thisYear: int, y: nat, m: nat, d: nat)
    requires GroupsIn(t, g) && Count(g) > 2
    requires !StartsWithLetter(Nth(t, g, 0).s) && !StartsWithLetter(Nth(t, g, 1).s)
    requires IntOf(Nth(t, g, 0)) == Some(y) && IntOf(Nth(t, g, 1)) == Some(m) && IntOf(Nth(t, g, 2)) == Some(d)
    ensures Interpret(t, g, thisYear).Some? <==> Valid(Date(FullYear(y), m, d))
    ensures Interpret(t, g, thisYear).Some? ==> Interpret(t, g, thisYear).value == Date(FullYear(y), m, d)
  {
  }

  /** A hit that starts with a month name ("Dec 7, 2024", "Dec 7"): the month, then the
    * day, then the year, which is the current one when the pattern has no third group. */
  lemma InterpretMonthFirst(t: string, g: Groups, thisYear: int, y: int, m: int, d: nat)
    requires GroupsIn(t, g) && Count(g) >= 2 && StartsWithLetter(Nth(t, g, 0).s)
    requires MonthOf(Nth(t, g, 0).s) == Some(m) && IntOf(Nth(t, g, 1)) == Some(d)
    requires if Count(g) > 2 then IntOf(Nth(t, g, 2)) == Some(y) else y == thisYear
    ensures Interpret(t, g, thisYear).Some? <==> Valid(Date(FullYear(y), m, d))
    ensures Interpret(t, g, thisYear).Some? ==> Interpret(t, g, thisYear).value == Date(FullYear(y), m, d)
  {
  }

  /** A hit with the month name second ("7 Dec 2024", "7 Dec"): the day, then the month. */
  lemma InterpretMonthSecond(t: string, g: Groups, thisYear: int, y: int, m: int, d: nat)
    requires GroupsIn(t, g) && Count(g) >= 2
    requires !StartsWithLetter(Nth(t, g, 0).s) && StartsWithLetter(Nth(t, g, 1).s)
    requires MonthOf(Nth(t, g, 1).s) == Some(m) && IntOf(Nth(t, g, 0)) == Some(d)
    requires if Count(g) > 2 then IntOf(Nth(t, g, 2)) == Some(y) else y == thisYear
    ensures Interpret(t, g, thisYear).Some? <==> Valid(Date(FullYear(y), m, d))
    ensures Interpret(t, g, thisYear).Some? ==> Interpret(t, g, thisYear).value == Date(FullYear(y), m, d)
  {
  }

  /** A word that is no month name makes the hit fall through (`continue`). */
  lemma InterpretUnknownMonth(t: string, g: Groups, thisYear: int)
    requires GroupsIn(t, g) && Count(g) >= 2
    requires (StartsWithLetter(Nth(t, g, 0).s) && MonthOf(Nth(t, g, 0).s).None?)
          || (StartsWithLetter(Nth(t, g, 1).s) && MonthOf(Nth(t, g, 1).s).None?)
    ensures Interpret(t, g, thisYear) == None
  {
  }

  // ----- the two passes -----

  /** The relative pass: the outcome of the first relative pattern found in `t`, if any. */
  function TryRelative(t: string, now: DateTime, k: nat): (r: Option<Outcome>)
    requires ValidDateTime(now) && k <= |RelativePatterns|
    ensures r.Some? ==> !r.value.NoDate?
    ensures r.Some? && r.value.Dated? ==> ValidDateTime(r.value.when) && Seconds(r.value.when) <= Seconds(now)
    decreases |RelativePatterns| - k
  {
    if k == |RelativePatterns| then None
    else
      match Search(RelativePatterns[k].0, t)
      case None => TryRelative(t, now, k + 1)
      case Some(g) => Some(HitOutcome(t, g, RelativePatterns[k].1, now))
  }

  /** `time_func(match)`: the instant the hit `g` of a relative pattern points to. */
  function HitOutcome(t: string, g: Groups, offset: Offset, now: DateTime): (r: Outcome)
    requires GroupsIn(t, g) && ValidDateTime(now)
    ensures r != NoDate
    ensures r.Dated? ==> ValidDateTime(r.when) && Seconds(r.when) <= Seconds(now)
  {
    match offset
    case Fixed(s) => Back(now, s)
    case PerUnit(unit) => Back(now, Span(unit, if Count(g) == 0 then 0 else IntOf(Nth(t, g, 0)).GetOr(0)))
  }

  /** `n` units of `unit` seconds each. */
  function Span(unit: nat, n: nat): nat
  {
    unit * n
  }

  /** A hit whose first group is a non-empty run of digits: the count of
    * "N分钟前", "N小时前" and "N天前". */
  predicate CountedHit(t: string, g: Groups)
  {
    GroupsIn(t, g) && Count(g) > 0 && Nth(t, g, 0).s != [] && AllDigits(Nth(t, g, 0).s)
  }

  /** `int(m.group(1))` of such a hit. */
  function CountOf(t: string, g: Groups): nat
    requires CountedHit(t, g)
  {
    DigitsValue(Nth(t, g, 0).s)
  }

  /** `now - timedelta(seconds=s)`, or the `OverflowError` it raises. */
  function Back(now: DateTime, s: nat): (r: Outcome)
    requires ValidDateTime(now)
    ensures r != NoDate
    ensures r.Dated? <==> Seconds(now) - s >= 86400
    ensures r.Dated? ==> ValidDateTime(r.when) && Seconds(r.when) == Seconds(now) - s
  {
    match SubSeconds(now, s)
    case Some(t) => Dated(t)
    case None => Overflow
  }

  /** The absolute pass over `Patterns[k..]`. */
  function TryPatterns(t: string, thisYear: int, k: nat): (r: Option<Date>)
    requires k <= |Patterns|
    ensures r.Some? ==> Valid(r.value)
    decreases |Patterns| - k
  {
    if k == |Patterns| then None
    else
      match Search(Patterns[k], t)
      case None => TryPatterns(t, thisYear, k + 1)
      case Some(g) =>
        match Interpret(t, g, thisYear)
        case Some(d) => Some(d)
        case None => TryPatterns(t, thisYear, k + 1)
  }

  /** What the `k`-th absolute pattern alone makes of `t`: the date of its leftmost
    * hit, or `None` when it has no hit or the hit falls through. */
  function PatternDate(t: string, thisYear: int, k: nat): (r: Option<Date>)
    requires k < |Patterns|
    ensures r.Some? ==> Search(Patterns[k], t).Some? && r == Interpret(t, Search(Patterns[k], t).value, thisYear)
    ensures Search(Patterns[k], t).Some? ==> r == Interpret(t, Search(Patterns[k], t).value, thisYear)
  {
    match Search(Patterns[k], t)
    case None => None
    case Some(g) => Interpret(t, g, thisYear)
  }

  /** The first pattern from `i` on that yields a date decides the absolute pass. */
  lemma {:induction false} FirstPatternDecides(t: string, thisYear: int, i: nat, k: nat)
    requires i <= k < |Patterns|
    requires forall j :: i <= j < k ==> PatternDate(t, thisYear, j) == None
    requires PatternDate(t, thisYear, k).Some?
    ensures TryPatterns(t, thisYear, i) == PatternDate(t, thisYear, k)
    decreases k - i
  {
    if i < k {
      assert PatternDate(t, thisYear, i) == None;
      FirstPatternDecides(t, thisYear, i + 1, k);
    }
  }

  /** When no pattern from `i` on yields a date, the absolute pass finds none. */
  lemma {:induction false} NoPatternDecides(t: string, thisYear: int, i: nat)
    requires i <= |Patterns|
    requires forall j :: i <= j < |Patterns| ==> PatternDate(t, thisYear, j) == None
    ensures TryPatterns(t, thisYear, i) == None
    decreases |Patterns| - i
  {
    if i < |Patterns| {
      assert PatternDate(t, thisYear, i) == None;
      NoPatternDecides(t, thisYear, i + 1);
    }
  }

  /** Conversely, a date of the absolute pass is that of the first pattern yielding one. */
  lemma {:induction false} PatternsResult(t: string, thisYear: int, i: nat)
    requires i <= |Patterns| && TryPatterns(t, thisYear, i).Some?
    ensures exists k :: i <= k < |Patterns| && PatternDate(t, thisYear, k) == TryPatterns(t, thisYear, i)
                        && forall j :: i <= j < k ==> PatternDate(t, thisYear, j) == None
    decreases |Patterns| - i
  {
    if PatternDate(t, thisYear, i).Some? {
      assert TryPatterns(t, thisYear, i) == PatternDate(t, thisYear, i);
    } else {
      assert TryPatterns(t, thisYear, i) == TryPatterns(t, thisYear, i + 1);
      PatternsResult(t, thisYear, i + 1);
      var k :| i + 1 <= k < |Patterns| && PatternDate(t, thisYear, k) == TryPatterns(t, thisYear, i + 1)
               && forall j :: i + 1 <= j < k ==> PatternDate(t, thisYear, j) == None;
      assert forall j :: i <= j < k ==> PatternDate(t, thisYear, j) == None;
    }
  }

  /** `DateExtractor.extract_date(text)` at the instant `now`. */
  function ExtractDate(text: string, now: DateTime): (r: Outcome)
    requires ValidDateTime(now)
    ensures text == [] ==> r == NoDate
    ensures r.Dated? ==> ValidDateTime(r.when)
  {
    if text == [] then NoDate
    else
      var t := Clean(text);
      match TryRelative(t, now, 0)
      case Some(o) => o
      case None =>
        match TryPatterns(t, now.date.year, 0)
        case Some(d) => Dated(Midnight(d))
        case None => NoDate
  }

  /** `extract_date(text, return_str=True)`: the date as `YYYY-MM-DD`. */
  function ExtractDateText(text: string, now: DateTime): (r: Option<string>)
    requires ValidDateTime(now)
  {
    match ExtractDate(text, now)
    case Dated(t) => Some(IsoFormat(t.date))
    case _ => None
  }

  // ----- properties -----

  /** Empty input is no date. */
  lemma EmptyIsNoDate(now: DateTime)
    requires ValidDateTime(now)
    ensures ExtractDate("", now) == NoDate
  {
  }

  /** The string form is the ISO 8601 calendar date of the result, and reads back as it. */
  lemma TextFormRoundTrip(text: string, now: DateTime)
    requires ValidDateTime(now)
    ensures ExtractDateText(text, now).Some? <==> ExtractDate(text, now).Dated?
    ensures ExtractDate(text, now).Dated? ==>
      ParseIsoDate(ExtractDateText(text, now).value) == Some(ExtractDate(text, now).when.date)
  {
    if ExtractDate(text, now).Dated? {
      ParseIsoFormat(ExtractDate(text, now).when.date);
    }
  }

  /** Once a relative pattern is found, its offset from `now` is the answer: an
    * absolute date elsewhere in the text is not looked at. */
  lemma RelativeFirst(text: string, now: DateTime, k: nat)
    requires ValidDateTime(now) && text != [] && k < |RelativePatterns|
    requires forall j :: 0 <= j < k ==> Search(RelativePatterns[j].0, Clean(text)) == None
    requires Search(RelativePatterns[k].0, Clean(text)).Some?
    ensures ExtractDate(text, now) != NoDate
    ensures ExtractDate(text, now).Dated? ==> Seconds(ExtractDate(text, now).when) <= Seconds(now)
    ensures RelativePatterns[k].1.Fixed? ==> ExtractDate(text, now) == Back(now, RelativePatterns[k].1.seconds)
    ensures RelativePatterns[k].1.PerUnit? ==>
      var g := Search(RelativePatterns[k].0, Clean(text)).value;
      CountedHit(Clean(text), g)
      && ExtractDate(text, now) == Back(now, Span(RelativePatterns[k].1.seconds, CountOf(Clean(text), g)))
  {
    var t := Clean(text);
    RelativeFrom(t, now, 0, k);
    if RelativePatterns[k].1.PerUnit? {
      assert k < 3 && RelativePatterns[k].0[0] == SomeDigits;
      SearchFirstGroup(RelativePatterns[k].0, t);
    }
  }

  /** The relative pass returns the outcome of the first pattern that occurs. */
  lemma {:induction false} RelativeFrom(t: string, now: DateTime, i: nat, k: nat)
    requires ValidDateTime(now) && i <= k < |RelativePatterns|
    requires forall j :: i <= j < k ==> Search(RelativePatterns[j].0, t) == None
    requires Search(RelativePatterns[k].0, t).Some?
    ensures TryRelative(t, now, i) == Some(HitOutcome(t, Search(RelativePatterns[k].0, t).value, RelativePatterns[k].1, now))
    decreases k - i
  {
    if i < k {
      RelativeFrom(t, now, i + 1, k);
    }
  }

  /** When no relative pattern from `i` on occurs, the relative pass yields nothing. */
  lemma {:induction false} NoRelativeFrom(t: string, now: DateTime, i: nat)
    requires ValidDateTime(now) && i <= |RelativePatterns|
    requires forall j :: i <= j < |RelativePatterns| ==> Search(RelativePatterns[j].0, t) == None
    ensures TryRelative(t, now, i) == None
    decreases |RelativePatterns| - i
  {
    if i < |RelativePatterns| {
      NoRelativeFrom(t, now, i + 1);
    }
  }

  /** Without a relative expression, the first absolute pattern that yields a date
    * decides, at midnight; its groups are read as `Interpret*` state. */
  lemma AbsoluteFirst(text: string, now: DateTime, k: nat)
    requires ValidDateTime(now) && text != [] && k < |Patterns|
    requires forall j :: 0 <= j < |RelativePatterns| ==> Search(RelativePatterns[j].0, Clean(text)) == None
    requires forall j :: 0 <= j < k ==> PatternDate(Clean(text), now.date.year, j) == None
    requires PatternDate(Clean(text), now.date.year, k).Some?
    ensures ExtractDate(text, now) == Dated(Midnight(PatternDate(Clean(text), now.date.year, k).value))
  {
    NoRelativeFrom(Clean(text), now, 0);
    FirstPatternDecides(Clean(text), now.date.year, 0, k);
  }

  /** Text with neither a relative expression nor a pattern yielding a date has none. */
  lemma NothingFound(text: string, now: DateTime)
    requires ValidDateTime(now)
    requires forall j :: 0 <= j < |RelativePatterns| ==> Search(RelativePatterns[j].0, Clean(text)) == None
    requires forall j :: 0 <= j < |Patterns| ==> PatternDate(Clean(text), now.date.year, j) == None
    ensures ExtractDate(text, now) == NoDate
  {
    NoRelativeFrom(Clean(text), now, 0);
    NoPatternDecides(Clean(text), now.date.year, 0);
  }

  /** `lab` is the label `Labels[k]` written in any mix of upper and lower case
    * (`re.IGNORECASE`): "published on" and "DATE:" are such spellings. */
  predicate SpelledAs(lab: string, k: nat)
  {
    k < |Labels| && |lab| == |Labels[k]| && Lower(lab) == Lower(Labels[k])
  }

  /** A label before the text, in any case and followed by whitespace, is dropped,
    * whatever the text: the date is read from the rest. The label is removed once
    * only, so a second label is still in front of what the patterns see. */
  lemma LabelDropped(k: nat, lab: string, s: string)
    requires SpelledAs(lab, k) && Squeeze(s) != []
    ensures Clean(lab + " " + s) == Squeeze(s)
  {
    var q := Squeeze(s);
    LabelledSqueeze(k, lab, s);
    var t := lab + " " + q;
    assert t[..|lab|] == lab;
    FirstLabel(t, k);
    SqueezeShape(s);
    assert t[|lab|] == ' ' && t[|lab| + 1] == q[0];
    assert SkipSpaces(t, |lab|) == |lab| + 1;
    assert t[|lab| + 1..] == q;
  }

  /** With the text's own whitespace collapsed, the label is followed by one space. */
  lemma LabelledSqueeze(k: nat, lab: string, s: string)
    requires SpelledAs(lab, k) && Squeeze(s) != []
    ensures Squeeze(lab + " " + s) == lab + " " + Squeeze(s)
  {
    if k == 2 {
      assert Labels[k] == "Published" + " " + "on";
      LettersNoSpace("Published");
      LettersNoSpace("on");
      TwoWordLabel(lab, "Published", "on", s);
    } else if k == 3 {
      assert Labels[k] == "Posted" + " " + "on";
      LettersNoSpace("Posted");
      LettersNoSpace("on");
      TwoWordLabel(lab, "Posted", "on", s);
    } else {
      OneWordLabel(k);
      FoldKeepsSpaces(lab, Labels[k]);
      WordBefore(lab, s);
    }
  }

  /** 发布于, 发表于 and Date: are single words. */
  lemma OneWordLabel(k: nat)
    requires k < |Labels| && k != 2 && k != 3
    ensures NoSpace(Labels[k])
  {
    if k == 4 {
      assert Labels[k] == "Date:";
    } else if k == 1 {
      assert Labels[k] == "发表于";
    } else {
      assert Labels[k] == "发布于";
    }
  }

  lemma LettersNoSpace(w: string)
    requires forall k :: 0 <= k < |w| ==> IsAsciiLetter(w[k])
    ensures NoSpace(w)
  {
  }

  /** A two-word label, in any case, is two words with one space between them. */
  lemma TwoWordLabel(lab: string, a0: string, b0: string, s: string)
    requires a0 != [] && NoSpace(a0) && b0 != [] && NoSpace(b0) && Squeeze(s) != []
    requires |lab| == |a0| + 1 + |b0| && Lower(lab) == Lower(a0 + " " + b0)
    ensures Squeeze(lab + " " + s) == lab + " " + Squeeze(s)
  {
    var l, w := a0 + " " + b0, |a0|;
    FoldKeepsSpaces(lab, l);
    var a, b := lab[..w], lab[w + 1..];
    assert NoSpace(a) by {
      forall i | 0 <= i < |a|
        ensures !IsSpace(a[i])
      {
        assert a[i] == lab[i] && l[i] == a0[i];
      }
    }
    assert NoSpace(b) by {
      forall i | 0 <= i < |b|
        ensures !IsSpace(b[i])
      {
        assert b[i] == lab[w + 1 + i] && l[w + 1 + i] == b0[i];
      }
    }
    assert lab[w] == ' ' by {
      assert Lower(lab)[w] == Lower(l)[w] && l[w] == ' ';
    }
    assert lab == a + " " + b;
    TwoWordsBefore(a, b, s);
    assert lab + " " + s == a + " " + b + " " + s;
  }

  /** Changing the case of ASCII letters turns no character into whitespace or back. */
  lemma FoldKeepsSpaces(w: string, v: string)
    requires |w| == |v| && Lower(w) == Lower(v)
    ensures forall i :: 0 <= i < |w| ==> (IsSpace(w[i]) <==> IsSpace(v[i]))
  {
    forall i | 0 <= i < |w|
      ensures IsSpace(w[i]) <==> IsSpace(v[i])
    {
      assert Lower(w)[i] == Lower(v)[i];
      FoldSpace(w[i]);
      FoldSpace(v[i]);
    }
  }

  lemma FoldSpace(c: char)
    ensures IsSpace(AsciiLowerChar(c)) <==> IsSpace(c)
  {
  }

  lemma WordBefore(w: string, s: string)
    requires w != [] && NoSpace(w) && Squeeze(s) != []
    ensures Squeeze(w + " " + s) == w + " " + Squeeze(s)
  {
    WordsOfWordAndRest(w, s);
    JoinCons(w, Words(s));
  }

  lemma TwoWordsBefore(a: string, b: string, s: string)
    requires a != [] && NoSpace(a) && b != [] && NoSpace(b) && Squeeze(s) != []
    ensures Squeeze(a + " " + b + " " + s) == a + " " + b + " " + Squeeze(s)
  {
    WordBefore(b, s);
    assert Squeeze(b + " " + s) != [];
    WordBefore(a, b + " " + s);
    assert a + " " + b + " " + s == a + " " + (b + " " + s);
  }

  lemma JoinCons(w: string, ws: seq<string>)
    requires ws != []
    ensures Join([w] + ws, " ") == w + " " + Join(ws, " ")
  {
    assert ([w] + ws)[1..] == ws;
  }

  /** A text that starts with `Labels[k]`, in any case, loses that label and the
    * whitespace after it. */
  lemma FirstLabel(t: string, k: nat)
    requires k < |Labels| && |Labels[k]| <= |t| && Lower(t[..|Labels[k]|]) == Lower(Labels[k])
    ensures StripLabel(t) == t[SkipSpaces(t, |Labels[k]|)..]
  {
    forall j | 0 <= j < k && |Labels[j]| <= |t|
      ensures Lower(t[..|Labels[j]|]) != Lower(Labels[j])
    {
      var i := if (j, k) == (0, 1) || (j, k) == (2, 3) then 1 else 0;
      LabelsDifferAt(j, k, i);
      PrefixMismatch(t, Labels[j], Labels[k], i);
    }
    LabelsBefore(t, 0, k);
  }

  /** Two labels, the second after the first, differ in case-folded form at `i`:
    * the second character for 发布于/发表于 and Published/Posted, the first otherwise. */
  lemma LabelsDifferAt(j: nat, k: nat, i: nat)
    requires j < k < |Labels| && i == (if (j, k) == (0, 1) || (j, k) == (2, 3) then 1 else 0)
    ensures i < |Labels[j]| && i < |Labels[k]|
    ensures AsciiLowerChar(Labels[k][i]) != AsciiLowerChar(Labels[j][i])
  {
  }

  /** A text starting with `m`, in any case, does not start with `l`, in any case,
    * when `m` and `l` fold differently at `i`. */
  lemma PrefixMismatch(t: string, l: string, m: string, i: nat)
    requires i < |l| <= |t| && i < |m| <= |t| && Lower(t[..|m|]) == Lower(m)
    requires AsciiLowerChar(m[i]) != AsciiLowerChar(l[i])
    ensures Lower(t[..|l|]) != Lower(l)
  {
    assert Lower(t[..|m|])[i] == Lower(m)[i];
    assert t[..|m|][i] == t[i] == t[..|l|][i];
    assert Lower(t[..|l|])[i] != Lower(l)[i];
  }

  lemma {:induction false} LabelsBefore(t: string, j: nat, k: nat)
    requires j <= k < |Labels|
    requires forall i :: j <= i < k && |Labels[i]| <= |t| ==> Lower(t[..|Labels[i]|]) != Lower(Labels[i])
    ensures StripLabelFrom(t, j) == StripLabelFrom(t, k)
    decreases k - j
  {
    if j < k { LabelsBefore(t, j + 1, k); }
  }

  /** For an unlabelled text, a label in front, in any case, changes nothing. */
  lemma LabelIgnored(k: nat, lab: string, s: string, now: DateTime)
    requires ValidDateTime(now) && SpelledAs(lab, k) && Squeeze(s) != []
    requires StripLabel(Squeeze(s)) == Squeeze(s)
    ensures ExtractDate(lab + " " + s, now) == ExtractDate(s, now)
  {
    LabelDropped(k, lab, s);
  }

  // ----- stepping through the passes, for evaluating examples -----

  /** Every relative pattern needs one of 前, 昨 or 刚: text without them matches none. */
  predicate NoRelativeWord(t: string)
  {
    forall k :: 0 <= k < |t| ==> t[k] != '前' && t[k] != '昨' && t[k] != '刚'
  }

  lemma NoRelativeMatch(t: string, now: DateTime)
    requires ValidDateTime(now) && NoRelativeWord(t)
    ensures forall k :: 0 <= k < |RelativePatterns| ==> Search(RelativePatterns[k].0, t) == None
    ensures TryRelative(t, now, 0) == None
  {
    forall k | 0 <= k < |RelativePatterns|
      ensures Search(RelativePatterns[k].0, t) == None
    {
      BlockedSearch(RelativePatterns[k].0, if k < 2 then 4 else if k == 2 then 3 else 0, t);
    }
    NoRelativeFrom(t, now, 0);
  }
}
