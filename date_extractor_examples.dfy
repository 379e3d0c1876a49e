/**
 * `extract_date` on inputs the repository's tests pin down, evaluated on the
 * model: each lemma names the patterns that cannot match the text (a required
 * character or run that does not occur in it), the hit that decides, and how
 * the hit is read.
 */
module DateExtractorExamples {
  import opened Wrappers
  import opened Text
  import opened Regex
  import opened Calendar
  import opened DateExtractor

  // ----- cleaning -----

  /** A word of printable ASCII or Chinese characters: no whitespace in it. */
  predicate Visible(w: string)
  {
    forall k :: 0 <= k < |w| ==> ('!' <= w[k] <= '~') || IsCjk(w[k])
  }

  lemma VisibleNoSpace(w: string)
    requires Visible(w)
    ensures NoSpace(w)
  {
    forall k | 0 <= k < |w|
      ensures !IsSpace(w[k])
    {
      var c := w[k];
      assert c !in SpaceChars;
    }
  }

  /** A single visible word is its own squeezed form. */
  lemma WordSqueezed(w: string)
    requires w != [] && Visible(w)
    ensures Squeeze(w) == w
  {
    VisibleNoSpace(w);
    WordsOfJoin([w]);
  }

  /** A word, one space and an already squeezed rest are squeezed. */
  lemma SpacedSqueezed(w: string, rest: string)
    requires w != [] && Visible(w) && rest != [] && Squeeze(rest) == rest
    ensures Squeeze(w + " " + rest) == w + " " + rest
  {
    VisibleNoSpace(w);
    WordsOfWordAndRest(w, rest);
    var ws := Words(rest);
    assert ws != [];
    assert ([w] + ws)[1..] == ws;
  }

  /** Three visible words joined by single spaces, not starting with a label, are
    * their own cleaned form. */
  lemma ThreeWordsClean(a: string, b: string, c: string, t: string)
    requires a != [] && b != [] && c != [] && Visible(a) && Visible(b) && Visible(c)
    requires t == a + " " + (b + " " + c)
    requires t[0] != '发' && AsciiLowerChar(t[0]) != 'p'
    requires AsciiLowerChar(t[0]) != 'd' || |t| < 2 || AsciiLowerChar(t[1]) != 'a'
    ensures Squeeze(t) == t && Clean(t) == t
  {
    WordSqueezed(c);
    SpacedSqueezed(b, c);
    SpacedSqueezed(a, b + " " + c);
    NoLabel(t);
  }

  /** A one-word text with a leading digit and no relative expression goes to the
    * absolute patterns unchanged. */
  lemma Plain(t: string, now: DateTime)
    requires ValidDateTime(now) && t != [] && Visible(t) && IsDigit(t[0]) && NoRelativeWord(t)
    ensures Squeeze(t) == t && Clean(t) == t
    ensures forall k :: 0 <= k < |RelativePatterns| ==> Search(RelativePatterns[k].0, t) == None
  {
    WordSqueezed(t);
    NoLabel(t);
    NoRelativeMatch(t, now);
  }

  /** Year, month and day of a hit made of three digit groups. */
  lemma ReadDigits(t: string, g: Groups, thisYear: int, y: nat, m: nat, d: nat)
    requires GroupsIn(t, g) && Count(g) == 3
    requires Nth(t, g, 0).s != [] && Nth(t, g, 1).s != [] && Nth(t, g, 2).s != []
    requires Nth(t, g, 0).cls == Digit && Nth(t, g, 1).cls == Digit && Nth(t, g, 2).cls == Digit
    requires DigitsValue(Nth(t, g, 0).s) == y && DigitsValue(Nth(t, g, 1).s) == m
    requires DigitsValue(Nth(t, g, 2).s) == d
    ensures Interpret(t, g, thisYear) ==
      if Valid(Date(FullYear(y), m, d)) then Some(Date(FullYear(y), m, d)) else None
  {
    InterpretDigits(t, g, thisYear, y, m, d);
  }

  // ----- 2024-03-22 -----

  const IsoGroups: Groups := Group(Digit, 0, 4, Group(Digit, 5, 7, Group(Digit, 8, 10, NoMore)))

  lemma IsoDashesSearch()
    ensures Search(Patterns[0], "2024-03-22") == Some(IsoGroups)
  {
    var t, p := "2024-03-22", Patterns[0];
    RunExactly(Digit, t, 8, 2);
    MatchRunWhole(p, 4, t, 8, 2, NoMore);
    MatchOne(p, 3, t, 7);
    RunExactly(Digit, t, 5, 2);
    MatchRunWhole(p, 2, t, 5, 2, IsoGroups.rest.rest);
    MatchOne(p, 1, t, 4);
    RunExactly(Digit, t, 0, 4);
    MatchRunWhole(p, 0, t, 0, 4, IsoGroups.rest);
    SearchAt(p, t, 0, 0);
  }

  lemma IsoDashesGroups()
    ensures GroupsIn("2024-03-22", IsoGroups) && Count(IsoGroups) == 3
    ensures Nth("2024-03-22", IsoGroups, 0) == Capture(Digit, "2024")
    ensures Nth("2024-03-22", IsoGroups, 1) == Capture(Digit, "03")
    ensures Nth("2024-03-22", IsoGroups, 2) == Capture(Digit, "22")
  {
    var t, g := "2024-03-22", IsoGroups;
    IsoDashesSearch();
    assert t[0..4] == "2024" && t[5..7] == "03" && t[8..10] == "22";
    assert Nth(t, g, 2) == Nth(t, g.rest.rest, 0);
  }

  lemma IsoDashesHit(y: int)
    ensures PatternDate("2024-03-22", y, 0) == Some(Date(2024, 3, 22))
  {
    IsoDashesSearch();
    IsoDashesGroups();
    DigitsValueSmall("2024");
    DigitsValueSmall("03");
    DigitsValueSmall("22");
    ReadDigits("2024-03-22", IsoGroups, y, 2024, 3, 22);
    assert Valid(Date(2024, 3, 22));
  }

  /** "2024-03-22" is 22 March 2024, by the first pattern. */
  lemma IsoDashes(now: DateTime)
    requires ValidDateTime(now)
    ensures ExtractDate("2024-03-22", now) == Dated(Midnight(Date(2024, 3, 22)))
  {
    Plain("2024-03-22", now);
    IsoDashesHit(now.date.year);
    AbsoluteFirst("2024-03-22", now, 0);
  }

  /** No pattern before the `k`-th yields a date, one pattern at a time. */
  predicate Misses(t: string, y: int, k: nat)
    requires k <= |Patterns|
  {
    k == 0 || (PatternDate(t, y, k - 1) == None && Misses(t, y, k - 1))
  }

  lemma {:induction false} MissesAll(t: string, y: int, k: nat)
    requires k <= |Patterns| && Misses(t, y, k)
    ensures forall j :: 0 <= j < k ==> PatternDate(t, y, j) == None
  {
    if k > 0 { MissesAll(t, y, k - 1); }
  }

  /** A cleaned text no relative pattern matches is read by the first pattern that
    * yields a date. */
  lemma ReadAbsolute(t: string, now: DateTime, k: nat, d: Date)
    requires ValidDateTime(now) && t != [] && k < |Patterns| && Clean(t) == t
    requires forall j :: 0 <= j < |RelativePatterns| ==> Search(RelativePatterns[j].0, t) == None
    requires Misses(t, now.date.year, k) && PatternDate(t, now.date.year, k) == Some(d)
    ensures ExtractDate(t, now) == Dated(Midnight(d))
  {
    MissesAll(t, now.date.year, k);
    AbsoluteFirst(t, now, k);
  }

  /** No relative pattern matches a text without 前, 昨 and 刚. */
  lemma Unrelated(t: string)
    requires NoRelativeWord(t)
    ensures forall j :: 0 <= j < |RelativePatterns| ==> Search(RelativePatterns[j].0, t) == None
  {
    forall j | 0 <= j < |RelativePatterns|
      ensures Search(RelativePatterns[j].0, t) == None
    {
      BlockedSearch(RelativePatterns[j].0, if j < 2 then 4 else if j == 2 then 3 else 0, t);
    }
  }

  /** The `k`-th pattern misses too when one of its required atoms occurs nowhere. */
  lemma Miss(t: string, y: int, k: nat, b: nat)
    requires k < |Patterns| && Misses(t, y, k)
    requires b < |Patterns[k]| && Blocked(Patterns[k][b], t)
    ensures Misses(t, y, k + 1)
  {
    BlockedSearch(Patterns[k], b, t);
  }

  /** None of the characters of `cs` occurs in `t`. */
  predicate Lacks(t: string, cs: seq<char>)
  {
    forall k :: 0 <= k < |t| ==> t[k] !in cs
  }

  lemma LacksBlocks(t: string, cs: seq<char>, c: char)
    requires Lacks(t, cs) && c in cs
    ensures Blocked(One([c]), t)
  {
  }

  /** The separators of the four year-first patterns, in order. */
  const YearSeparators: seq<char> := ['-', '/', '年', '.']

  /** A text without the separators of the first `k` patterns fails them. */
  lemma SeparatorMisses(t: string, y: int, k: nat)
    requires 1 <= k <= 4 && Lacks(t, YearSeparators[..k])
    ensures Misses(t, y, k)
  {
    var seps := YearSeparators[..k];
    assert seps[0] == '-';
    LacksBlocks(t, seps, '-');
    Miss(t, y, 0, 1);
    if k > 1 { assert seps[1] == '/'; LacksBlocks(t, seps, '/'); Miss(t, y, 1, 1); }
    if k > 2 { assert seps[2] == '年'; LacksBlocks(t, seps, '年'); Miss(t, y, 2, 1); }
    if k > 3 { assert seps[3] == '.'; LacksBlocks(t, seps, '.'); Miss(t, y, 3, 1); }
  }

  // ----- 2024/03/22 -----

  lemma IsoSlashesSearch()
    ensures Search(Patterns[1], "2024/03/22") == Some(IsoGroups)
  {
    var t, p := "2024/03/22", Patterns[1];
    RunExactly(Digit, t, 8, 2);
    MatchRunWhole(p, 4, t, 8, 2, NoMore);
    MatchOne(p, 3, t, 7);
    RunExactly(Digit, t, 5, 2);
    MatchRunWhole(p, 2, t, 5, 2, IsoGroups.rest.rest);
    MatchOne(p, 1, t, 4);
    RunExactly(Digit, t, 0, 4);
    MatchRunWhole(p, 0, t, 0, 4, IsoGroups.rest);
    SearchAt(p, t, 0, 0);
  }

  lemma IsoSlashesGroups()
    ensures GroupsIn("2024/03/22", IsoGroups) && Count(IsoGroups) == 3
    ensures Nth("2024/03/22", IsoGroups, 0) == Capture(Digit, "2024")
    ensures Nth("2024/03/22", IsoGroups, 1) == Capture(Digit, "03")
    ensures Nth("2024/03/22", IsoGroups, 2) == Capture(Digit, "22")
  {
    var t, g := "2024/03/22", IsoGroups;
    IsoSlashesSearch();
    assert t[0..4] == "2024" && t[5..7] == "03" && t[8..10] == "22";
    assert Nth(t, g, 2) == Nth(t, g.rest.rest, 0);
  }

  lemma IsoSlashesMisses(y: int)
    ensures Misses("2024/03/22", y, 1)
  {
    assert Lacks("2024/03/22", YearSeparators[..1]);
    SeparatorMisses("2024/03/22", y, 1);
  }

  lemma IsoSlashesHit(y: int)
    ensures PatternDate("2024/03/22", y, 1) == Some(Date(2024, 3, 22))
  {
    IsoSlashesSearch();
    IsoSlashesGroups();
    DigitsValueSmall("2024");
    DigitsValueSmall("03");
    DigitsValueSmall("22");
    ReadDigits("2024/03/22", IsoGroups, y, 2024, 3, 22);
    assert Valid(Date(2024, 3, 22));
  }

  /** "2024/03/22" is 22 March 2024, by the second pattern. */
  lemma IsoSlashes(now: DateTime)
    requires ValidDateTime(now)
    ensures ExtractDate("2024/03/22", now) == Dated(Midnight(Date(2024, 3, 22)))
  {
    Plain("2024/03/22", now);
    IsoSlashesMisses(now.date.year);
    IsoSlashesHit(now.date.year);
    MissesAll("2024/03/22", now.date.year, 1);
    AbsoluteFirst("2024/03/22", now, 1);
  }

  // ----- 2024年3月22日 -----

  const ChineseGroups: Groups := Group(Digit, 0, 4, Group(Digit, 5, 6, Group(Digit, 7, 9, NoMore)))

  lemma ChineseSearch()
    ensures Search(Patterns[2], "2024年3月22日") == Some(ChineseGroups)
  {
    var t, p := "2024年3月22日", Patterns[2];
    assert Match(p, 6, t, 10) == Some(NoMore);
    MatchOne(p, 5, t, 9);
    RunExactly(Digit, t, 7, 2);
    MatchRunWhole(p, 4, t, 7, 2, NoMore);
    MatchOne(p, 3, t, 6);
    RunExactly(Digit, t, 5, 1);
    MatchRunWhole(p, 2, t, 5, 1, ChineseGroups.rest.rest);
    MatchOne(p, 1, t, 4);
    RunExactly(Digit, t, 0, 4);
    MatchRunWhole(p, 0, t, 0, 4, ChineseGroups.rest);
    SearchAt(p, t, 0, 0);
  }

  lemma ChineseGroupsRead()
    ensures GroupsIn("2024年3月22日", ChineseGroups) && Count(ChineseGroups) == 3
    ensures Nth("2024年3月22日", ChineseGroups, 0) == Capture(Digit, "2024")
    ensures Nth("2024年3月22日", ChineseGroups, 1) == Capture(Digit, "3")
    ensures Nth("2024年3月22日", ChineseGroups, 2) == Capture(Digit, "22")
  {
    var t, g := "2024年3月22日", ChineseGroups;
    ChineseSearch();
    assert t[0..4] == "2024" && t[5..6] == "3" && t[7..9] == "22";
    assert Nth(t, g, 2) == Nth(t, g.rest.rest, 0);
  }

  lemma ChineseMisses(y: int)
    ensures Misses("2024年3月22日", y, 2)
  {
    assert Lacks("2024年3月22日", YearSeparators[..2]);
    SeparatorMisses("2024年3月22日", y, 2);
  }

  lemma ChineseHit(y: int)
    ensures PatternDate("2024年3月22日", y, 2) == Some(Date(2024, 3, 22))
  {
    var t := "2024年3月22日";
    ChineseSearch();
    ChineseGroupsRead();
    DigitsValueSmall("2024");
    DigitsValueSmall("3");
    DigitsValueSmall("22");
    ReadDigits(t, ChineseGroups, y, 2024, 3, 22);
    assert Valid(Date(2024, 3, 22));
  }

  /** "2024年3月22日" is 22 March 2024, by the third pattern. */
  lemma ChineseDate(now: DateTime)
    requires ValidDateTime(now)
    ensures ExtractDate("2024年3月22日", now) == Dated(Midnight(Date(2024, 3, 22)))
  {
    Plain("2024年3月22日", now);
    ChineseMisses(now.date.year);
    ChineseHit(now.date.year);
    MissesAll("2024年3月22日", now.date.year, 2);
    AbsoluteFirst("2024年3月22日", now, 2);
  }

  // ----- 2024.3.22 -----

  lemma DottedSearch()
    ensures Search(Patterns[3], "2024.3.22") == Some(ChineseGroups)
  {
    var t, p := "2024.3.22", Patterns[3];
    RunExactly(Digit, t, 7, 2);
    MatchRunWhole(p, 4, t, 7, 2, NoMore);
    MatchOne(p, 3, t, 6);
    RunExactly(Digit, t, 5, 1);
    MatchRunWhole(p, 2, t, 5, 1, ChineseGroups.rest.rest);
    MatchOne(p, 1, t, 4);
    RunExactly(Digit, t, 0, 4);
    MatchRunWhole(p, 0, t, 0, 4, ChineseGroups.rest);
    SearchAt(p, t, 0, 0);
  }

  lemma DottedGroupsRead()
    ensures GroupsIn("2024.3.22", ChineseGroups) && Count(ChineseGroups) == 3
    ensures Nth("2024.3.22", ChineseGroups, 0) == Capture(Digit, "2024")
    ensures Nth("2024.3.22", ChineseGroups, 1) == Capture(Digit, "3")
    ensures Nth("2024.3.22", ChineseGroups, 2) == Capture(Digit, "22")
  {
    var t, g := "2024.3.22", ChineseGroups;
    DottedSearch();
    assert t[0..4] == "2024" && t[5..6] == "3" && t[7..9] == "22";
    assert Nth(t, g, 2) == Nth(t, g.rest.rest, 0);
  }

  lemma DottedMisses(y: int)
    ensures Misses("2024.3.22", y, 3)
  {
    assert Lacks("2024.3.22", YearSeparators[..3]);
    SeparatorMisses("2024.3.22", y, 3);
  }

  lemma DottedHit(y: int)
    ensures PatternDate("2024.3.22", y, 3) == Some(Date(2024, 3, 22))
  {
    var t := "2024.3.22";
    DottedSearch();
    DottedGroupsRead();
    DigitsValueSmall("2024");
    DigitsValueSmall("3");
    DigitsValueSmall("22");
    ReadDigits(t, ChineseGroups, y, 2024, 3, 22);
    assert Valid(Date(2024, 3, 22));
  }

  /** "2024.3.22" is 22 March 2024, by the fourth pattern. */
  lemma Dotted(now: DateTime)
    requires ValidDateTime(now)
    ensures ExtractDate("2024.3.22", now) == Dated(Midnight(Date(2024, 3, 22)))
  {
    Plain("2024.3.22", now);
    DottedMisses(now.date.year);
    DottedHit(now.date.year);
    MissesAll("2024.3.22", now.date.year, 3);
    AbsoluteFirst("2024.3.22", now, 3);
  }

  // ----- 24-03-22 and 24/03/22 -----

  const ShortGroups: Groups := Group(Digit, 0, 2, Group(Digit, 3, 5, Group(Digit, 6, 8, NoMore)))

  /** Two-digit runs only: the patterns with a four-digit year cannot match. */
  lemma ShortDigitMisses(t: string, y: int)
    requires LongestRun(Digit, t, 0) < 4
    ensures Misses(t, y, 4)
  {
    Miss(t, y, 0, 0);
    Miss(t, y, 1, 0);
    Miss(t, y, 2, 0);
    Miss(t, y, 3, 0);
  }

  /** No letter either: the patterns with a month name cannot match. */
  lemma ShortMisses(t: string, y: int)
    requires t == "24-03-22" || t == "24/03/22"
    ensures Misses(t, y, 8)
  {
    ShortRuns(t);
    ShortDigitMisses(t, y);
    NoRun(Letter, t, 0);
    Miss(t, y, 4, 0);
    Miss(t, y, 5, 2);
    Miss(t, y, 6, 0);
    Miss(t, y, 7, 2);
  }

  lemma ShortRuns(t: string)
    requires t == "24-03-22" || t == "24/03/22"
    ensures LongestRun(Digit, t, 0) < 4
  {
    NoRun(Digit, t, 8);
    RunExactly(Digit, t, 7, 1);
    assert LongestRun(Digit, t, 7) == 1;
    RunExactly(Digit, t, 6, 2);
    assert LongestRun(Digit, t, 6) == 2;
    RunExactly(Digit, t, 5, 0);
    assert LongestRun(Digit, t, 5) == 2;
    RunExactly(Digit, t, 4, 1);
    assert LongestRun(Digit, t, 4) == 2;
    RunExactly(Digit, t, 3, 2);
    assert LongestRun(Digit, t, 3) == 2;
    RunExactly(Digit, t, 2, 0);
    assert LongestRun(Digit, t, 2) == 2;
    RunExactly(Digit, t, 1, 1);
    assert LongestRun(Digit, t, 1) == 2;
    RunExactly(Digit, t, 0, 2);
  }

  lemma ShortSearch(t: string, k: nat)
    requires (t, k) == ("24-03-22", 8) || (t, k) == ("24/03/22", 9)
    ensures Search(Patterns[k], t) == Some(ShortGroups)
  {
    if k == 8 { ShortSearchWith(t, Patterns[8]); } else { ShortSearchWith(t, Patterns[9]); }
  }

  /** The two short patterns differ only in their separator. */
  lemma ShortSearchWith(t: string, p: seq<Atom>)
    requires |t| == 8 && |p| == 5 && p[0] == p[2] == p[4] == Digits(2, 2)
    requires p[1] == p[3] == One([t[2]]) && t[5] == t[2] && !IsDigit(t[2])
    requires t[0] == '2' && t[1] == '4' && t[3] == '0' && t[4] == '3' && t[6] == '2' && t[7] == '2'
    ensures Search(p, t) == Some(ShortGroups)
  {
    RunExactly(Digit, t, 6, 2);
    MatchRunWhole(p, 4, t, 6, 2, NoMore);
    MatchOne(p, 3, t, 5);
    RunExactly(Digit, t, 3, 2);
    MatchRunWhole(p, 2, t, 3, 2, ShortGroups.rest.rest);
    MatchOne(p, 1, t, 2);
    RunExactly(Digit, t, 0, 2);
    MatchRunWhole(p, 0, t, 0, 2, ShortGroups.rest);
    SearchAt(p, t, 0, 0);
  }

  lemma ShortGroupsRead(t: string, k: nat)
    requires (t, k) == ("24-03-22", 8) || (t, k) == ("24/03/22", 9)
    ensures GroupsIn(t, ShortGroups) && Count(ShortGroups) == 3
    ensures Nth(t, ShortGroups, 0) == Capture(Digit, "24")
    ensures Nth(t, ShortGroups, 1) == Capture(Digit, "03")
    ensures Nth(t, ShortGroups, 2) == Capture(Digit, "22")
  {
    var g := ShortGroups;
    ShortSearch(t, k);
    assert t[0..2] == "24" && t[3..5] == "03" && t[6..8] == "22";
    assert Nth(t, g, 2) == Nth(t, g.rest.rest, 0);
  }

  lemma ShortHit(t: string, k: nat, y: int)
    requires (t, k) == ("24-03-22", 8) || (t, k) == ("24/03/22", 9)
    ensures PatternDate(t, y, k) == Some(Date(2024, 3, 22))
  {
    ShortSearch(t, k);
    ShortGroupsRead(t, k);
    DigitsValueSmall("24");
    DigitsValueSmall("03");
    DigitsValueSmall("22");
    ReadDigits(t, ShortGroups, y, 24, 3, 22);
    assert FullYear(24) == 2024 && Valid(Date(2024, 3, 22));
  }

  /** "24-03-22" is 22 March 2024: a two-digit year is in the 2000s. */
  lemma ShortYearDashes(now: DateTime)
    requires ValidDateTime(now)
    ensures ExtractDate("24-03-22", now) == Dated(Midnight(Date(2024, 3, 22)))
  {
    var t := "24-03-22";
    Plain(t, now);
    ShortMisses(t, now.date.year);
    ShortHit(t, 8, now.date.year);
    MissesAll(t, now.date.year, 8);
    AbsoluteFirst(t, now, 8);
  }

  lemma ShortSlashesMisses(y: int)
    ensures Misses("24/03/22", y, 9)
  {
    var t := "24/03/22";
    ShortMisses(t, y);
    assert Lacks(t, ['-']);
    LacksBlocks(t, ['-'], '-');
    Miss(t, y, 8, 1);
  }

  /** "24/03/22" is 22 March 2024, by the last pattern. */
  lemma ShortYearSlashes(now: DateTime)
    requires ValidDateTime(now)
    ensures ExtractDate("24/03/22", now) == Dated(Midnight(Date(2024, 3, 22)))
  {
    var t, y := "24/03/22", now.date.year;
    Plain(t, now);
    ShortSlashesMisses(y);
    ShortHit(t, 9, y);
    MissesAll(t, y, 9);
    AbsoluteFirst(t, now, 9);
  }

  // ----- Dec 7, 2024 and December 7, 2024 -----

  /** The groups of a month name of `n` letters followed by " 7, 2024". */
  function NamedGroups(n: nat): Groups
  {
    Group(Letter, 0, n, Group(Digit, n + 1, n + 2, Group(Digit, n + 4, n + 8, NoMore)))
  }

  /** The day and the year after the month name. */
  lemma AbbreviatedRest()
    ensures Match(Patterns[4], 1, "Dec 7, 2024", 3) == Some(NamedGroups(3).rest)
  {
    var t, p, g := "Dec 7, 2024", Patterns[4], NamedGroups(3);
    RunExactly(Digit, t, 7, 4);
    MatchRunWhole(p, 5, t, 7, 4, NoMore);
    RunExactly(Space, t, 6, 1);
    MatchRunWhole(p, 4, t, 6, 1, g.rest.rest);
    MatchOptTaken(p, 3, t, 5);
    RunExactly(Digit, t, 4, 1);
    MatchRunWhole(p, 2, t, 4, 1, g.rest.rest);
    RunExactly(Space, t, 3, 1);
    MatchRunWhole(p, 1, t, 3, 1, g.rest);
  }

  lemma AbbreviatedSearch()
    ensures Search(Patterns[4], "Dec 7, 2024") == Some(NamedGroups(3))
  {
    AbbreviatedSearchIn("Dec 7, 2024");
  }

  lemma AbbreviatedSearchIn(t: string)
    requires t == "Dec 7, 2024"
    ensures Search(Patterns[4], t) == Some(NamedGroups(3))
  {
    var p, g := Patterns[4], NamedGroups(3);
    AbbreviatedRest();
    RunExactly(Letter, t, 0, 3);
    MatchRunWhole(p, 0, t, 0, 3, g.rest);
    SearchAt(p, t, 0, 0);
  }

  lemma AbbreviatedGroups()
    ensures GroupsIn("Dec 7, 2024", NamedGroups(3)) && Count(NamedGroups(3)) == 3
    ensures Nth("Dec 7, 2024", NamedGroups(3), 0) == Capture(Letter, "Dec")
    ensures Nth("Dec 7, 2024", NamedGroups(3), 1) == Capture(Digit, "7")
    ensures Nth("Dec 7, 2024", NamedGroups(3), 2) == Capture(Digit, "2024")
  {
    var t, g := "Dec 7, 2024", NamedGroups(3);
    AbbreviatedSearch();
    assert t[0..3] == "Dec" && t[4..5] == "7" && t[7..11] == "2024";
    assert Nth(t, g, 2) == Nth(t, g.rest.rest, 0);
  }

  lemma AbbreviatedHit(y: int)
    ensures PatternDate("Dec 7, 2024", y, 4) == Some(Date(2024, 12, 7))
  {
    AbbreviatedSearch();
    AbbreviatedGroups();
    Dec();
    NamedRead("Dec 7, 2024", "Dec", NamedGroups(3), y);
  }

  lemma AbbreviatedMisses(y: int)
    ensures Misses("Dec 7, 2024", y, 4)
  {
    assert Lacks("Dec 7, 2024", YearSeparators[..4]);
    SeparatorMisses("Dec 7, 2024", y, 4);
  }

  lemma AbbreviatedUnrelated()
    ensures forall j :: 0 <= j < |RelativePatterns| ==> Search(RelativePatterns[j].0, "Dec 7, 2024") == None
  {
    Unrelated("Dec 7, 2024");
  }

  lemma AbbreviatedClean()
    ensures Squeeze("Dec 7, 2024") == "Dec 7, 2024" && Clean("Dec 7, 2024") == "Dec 7, 2024"
  {
    ThreeWordsClean("Dec", "7,", "2024", "Dec 7, 2024");
  }


  /** The day and the year after the month name. */
  lemma SpelledRest()
    ensures Match(Patterns[4], 1, "December 7, 2024", 8) == Some(NamedGroups(8).rest)
  {
    var t, p, g := "December 7, 2024", Patterns[4], NamedGroups(8);
    RunExactly(Digit, t, 12, 4);
    MatchRunWhole(p, 5, t, 12, 4, NoMore);
    RunExactly(Space, t, 11, 1);
    MatchRunWhole(p, 4, t, 11, 1, g.rest.rest);
    MatchOptTaken(p, 3, t, 10);
    RunExactly(Digit, t, 9, 1);
    MatchRunWhole(p, 2, t, 9, 1, g.rest.rest);
    RunExactly(Space, t, 8, 1);
    MatchRunWhole(p, 1, t, 8, 1, g.rest);
  }

  lemma SpelledSearch()
    ensures Search(Patterns[4], "December 7, 2024") == Some(NamedGroups(8))
  {
    SpelledSearchIn("December 7, 2024");
  }

  lemma SpelledSearchIn(t: string)
    requires t == "December 7, 2024"
    ensures Search(Patterns[4], t) == Some(NamedGroups(8))
  {
    var p, g := Patterns[4], NamedGroups(8);
    SpelledRest();
    RunExactly(Letter, t, 0, 8);
    MatchRunWhole(p, 0, t, 0, 8, g.rest);
    SearchAt(p, t, 0, 0);
  }

  lemma SpelledGroups()
    ensures GroupsIn("December 7, 2024", NamedGroups(8)) && Count(NamedGroups(8)) == 3
    ensures Nth("December 7, 2024", NamedGroups(8), 0) == Capture(Letter, "December")
    ensures Nth("December 7, 2024", NamedGroups(8), 1) == Capture(Digit, "7")
    ensures Nth("December 7, 2024", NamedGroups(8), 2) == Capture(Digit, "2024")
  {
    var t, g := "December 7, 2024", NamedGroups(8);
    SpelledSearch();
    SpelledSlices();
    assert Nth(t, g, 2) == Nth(t, g.rest.rest, 0);
  }

  lemma SpelledSlices()
    ensures "December 7, 2024"[0..8] == "December"
    ensures "December 7, 2024"[9..10] == "7"
    ensures "December 7, 2024"[12..16] == "2024"
  {
  }

  lemma SpelledHit(y: int)
    ensures PatternDate("December 7, 2024", y, 4) == Some(Date(2024, 12, 7))
  {
    SpelledSearch();
    SpelledGroups();
    Dec();
    NamedRead("December 7, 2024", "December", NamedGroups(8), y);
  }

  lemma SpelledMisses(y: int)
    ensures Misses("December 7, 2024", y, 4)
  {
    assert Lacks("December 7, 2024", YearSeparators[..4]);
    SeparatorMisses("December 7, 2024", y, 4);
  }

  lemma SpelledUnrelated()
    ensures forall j :: 0 <= j < |RelativePatterns| ==> Search(RelativePatterns[j].0, "December 7, 2024") == None
  {
    Unrelated("December 7, 2024");
  }

  lemma SpelledClean()
    ensures Clean("December 7, 2024") == "December 7, 2024"
  {
    ThreeWordsClean("December", "7,", "2024", "December 7, 2024");
  }


  /** A hit of month name, 7 and 2024, with the month name December, is 7 December 2024. */
  lemma NamedRead(t: string, w: string, g: Groups, y: int)
    requires Search(Patterns[4], t) == Some(g) && GroupsIn(t, g) && Count(g) == 3
    requires Nth(t, g, 0) == Capture(Letter, w) && StartsWithLetter(w) && MonthOf(w) == Some(12)
    requires Nth(t, g, 1) == Capture(Digit, "7") && Nth(t, g, 2) == Capture(Digit, "2024")
    ensures PatternDate(t, y, 4) == Some(Date(2024, 12, 7))
  {
    DigitsValueSmall("7");
    DigitsValueSmall("2024");
    InterpretMonthFirst(t, g, y, 2024, 12, 7);
    assert Valid(Date(2024, 12, 7));
  }

  lemma Dec()
    ensures MonthOf("Dec") == Some(12) && MonthOf("December") == Some(12)
  {
    MonthOfAbbreviation("Dec");
    MonthByPrefix("December");
    assert "December"[..3] == "Dec";
  }

  /** "Dec 7, 2024" is 7 December 2024, by the month-name-first pattern. */
  lemma MonthNameFirst(now: DateTime)
    requires ValidDateTime(now)
    ensures ExtractDate("Dec 7, 2024", now) == Dated(Midnight(Date(2024, 12, 7)))
  {
    var t := "Dec 7, 2024";
    AbbreviatedClean();
    AbbreviatedUnrelated();
    AbbreviatedMisses(now.date.year);
    AbbreviatedHit(now.date.year);
    ReadAbsolute(t, now, 4, Date(2024, 12, 7));
  }

  /** "December 7, 2024" is 7 December 2024: only the first three letters of the
    * month name count. */
  lemma FullMonthNameFirst(now: DateTime)
    requires ValidDateTime(now)
    ensures ExtractDate("December 7, 2024", now) == Dated(Midnight(Date(2024, 12, 7)))
  {
    var t := "December 7, 2024";
    SpelledClean();
    SpelledUnrelated();
    SpelledMisses(now.date.year);
    SpelledHit(now.date.year);
    ReadAbsolute(t, now, 4, Date(2024, 12, 7));
  }

  /** Two visible words joined by one space, not starting with a label, are their own
    * cleaned form. */
  lemma TwoWordsClean(a: string, b: string, t: string)
    requires a != [] && b != [] && Visible(a) && Visible(b) && t == a + " " + b
    requires t[0] != '发' && AsciiLowerChar(t[0]) != 'p'
    requires AsciiLowerChar(t[0]) != 'd' || |t| < 2 || AsciiLowerChar(t[1]) != 'a'
    ensures Squeeze(t) == t && Clean(t) == t
  {
    WordSqueezed(b);
    SpacedSqueezed(a, b);
    NoLabel(t);
  }

  // ----- 2024-13-01 and 2024-12-32 -----

  /** "2024-", two digits, a dash and two more digits. */
  predicate Dashed2024(t: string)
  {
    |t| == 10 && t[0] == '2' && t[1] == '0' && t[2] == '2' && t[3] == '4' && t[4] == '-'
    && IsDigit(t[5]) && IsDigit(t[6]) && t[7] == '-' && IsDigit(t[8]) && IsDigit(t[9])
  }

  /** The hit of the two-digit-year pattern inside such a text: "24-MM-DD". */
  const InnerGroups: Groups := Group(Digit, 2, 4, Group(Digit, 5, 7, Group(Digit, 8, 10, NoMore)))

  lemma DashedSearch(t: string)
    requires Dashed2024(t)
    ensures Search(Patterns[0], t) == Some(IsoGroups)
  {
    var p := Patterns[0];
    RunExactly(Digit, t, 8, 2);
    MatchRunWhole(p, 4, t, 8, 2, NoMore);
    MatchOne(p, 3, t, 7);
    RunExactly(Digit, t, 5, 2);
    MatchRunWhole(p, 2, t, 5, 2, IsoGroups.rest.rest);
    MatchOne(p, 1, t, 4);
    RunExactly(Digit, t, 0, 4);
    MatchRunWhole(p, 0, t, 0, 4, IsoGroups.rest);
    SearchAt(p, t, 0, 0);
  }

  /** The two-digit-year pattern passes over "20" and "02", each followed by a digit
    * rather than a dash, and finds "24-MM-DD". */
  lemma DashedInnerSearch(t: string)
    requires Dashed2024(t)
    ensures Search(Patterns[8], t) == Some(InnerGroups)
  {
    var p := Patterns[8];
    RunExactly(Digit, t, 8, 2);
    MatchRunWhole(p, 4, t, 8, 2, NoMore);
    MatchOne(p, 3, t, 7);
    RunExactly(Digit, t, 5, 2);
    MatchRunWhole(p, 2, t, 5, 2, InnerGroups.rest.rest);
    MatchOne(p, 1, t, 4);
    RunExactly(Digit, t, 2, 2);
    MatchRunWhole(p, 0, t, 2, 2, InnerGroups.rest);
    DashedInnerStart(t);
    SearchAt(p, t, 0, 2);
  }

  /** At 0 and 1 two digits are followed by a third digit, not by the dash. */
  lemma DashedInnerStart(t: string)
    requires Dashed2024(t)
    ensures Match(Patterns[8], 0, t, 0) == None && Match(Patterns[8], 0, t, 1) == None
  {
    var p := Patterns[8];
    RunExactly(Digit, t, 1, 3);
    RunExactly(Digit, t, 0, 4);
    MatchRunFails(p, 0, 1, t, 0);
    MatchRunFails(p, 0, 1, t, 1);
  }

  lemma DashedGroups(t: string)
    requires Dashed2024(t)
    ensures GroupsIn(t, IsoGroups) && Count(IsoGroups) == 3
    ensures Nth(t, IsoGroups, 0) == Capture(Digit, "2024")
    ensures Nth(t, IsoGroups, 1) == Capture(Digit, t[5..7])
    ensures Nth(t, IsoGroups, 2) == Capture(Digit, t[8..10])
  {
    DashedSearch(t);
    assert t[0..4] == "2024";
    assert Nth(t, IsoGroups, 2) == Nth(t, IsoGroups.rest.rest, 0);
  }

  lemma DashedInnerGroups(t: string)
    requires Dashed2024(t)
    ensures GroupsIn(t, InnerGroups) && Count(InnerGroups) == 3
    ensures Nth(t, InnerGroups, 0) == Capture(Digit, "24")
    ensures Nth(t, InnerGroups, 1) == Capture(Digit, t[5..7])
    ensures Nth(t, InnerGroups, 2) == Capture(Digit, t[8..10])
  {
    DashedInnerSearch(t);
    assert t[2..4] == "24";
    assert Nth(t, InnerGroups, 2) == Nth(t, InnerGroups.rest.rest, 0);
  }

  /** Both hits, "2024-MM-DD" and "24-MM-DD" inside it, are read as the same day of
    * 2024, and yield it exactly when 2024 has that day. */
  lemma DashedHits(t: string, y: int, mm: string, dd: string)
    requires Dashed2024(t) && t[5..7] == mm && t[8..10] == dd
    ensures AllDigits(mm) && AllDigits(dd)
    ensures PatternDate(t, y, 0) == PatternDate(t, y, 8)
    ensures PatternDate(t, y, 0) ==
      var date := Date(2024, DigitsValue(mm), DigitsValue(dd));
      if Valid(date) then Some(date) else None
  {
    DashedSearch(t);
    DashedInnerSearch(t);
    DashedGroups(t);
    DashedInnerGroups(t);
    DigitsValueSmall("2024");
    DigitsValueSmall("24");
    ReadDigits(t, IsoGroups, y, 2024, DigitsValue(mm), DigitsValue(dd));
    ReadDigits(t, InnerGroups, y, 24, DigitsValue(mm), DigitsValue(dd));
  }

  lemma DashedChars(t: string)
    requires Dashed2024(t)
    ensures forall k :: 0 <= k < |t| ==> IsDigit(t[k]) || t[k] == '-'
  {
    forall k | 0 <= k < |t|
      ensures IsDigit(t[k]) || t[k] == '-'
    {
      if k < 5 {
        assert k == 0 || k == 1 || k == 2 || k == 3 || k == 4;
      } else {
        assert k == 5 || k == 6 || k == 7 || k == 8 || k == 9;
      }
    }
  }

  /** A text of digits and dashes: when neither dashed pattern yields a date, no
    * pattern does. */
  lemma DashedMisses(t: string, y: int)
    requires forall k :: 0 <= k < |t| ==> IsDigit(t[k]) || t[k] == '-'
    requires PatternDate(t, y, 0) == None && PatternDate(t, y, 8) == None
    ensures forall j :: 0 <= j < |Patterns| ==> PatternDate(t, y, j) == None
  {
    assert Misses(t, y, 1);
    Miss(t, y, 1, 1);
    Miss(t, y, 2, 1);
    Miss(t, y, 3, 1);
    NoRun(Letter, t, 0);
    Miss(t, y, 4, 0);
    Miss(t, y, 5, 2);
    Miss(t, y, 6, 0);
    Miss(t, y, 7, 2);
    assert Misses(t, y, 9);
    Miss(t, y, 9, 1);
    MissesAll(t, y, 10);
  }

  lemma MonthThirteenHits(y: int)
    ensures PatternDate("2024-13-01", y, 0) == None && PatternDate("2024-13-01", y, 8) == None
  {
    DashedHits("2024-13-01", y, "13", "01");
    DigitsValueSmall("13");
  }

  /** "2024-13-01" is no date: both hits, the whole text and "24-13-01" inside it,
    * have month 13. */
  lemma MonthThirteen(now: DateTime)
    requires ValidDateTime(now)
    ensures ExtractDate("2024-13-01", now) == NoDate
  {
    var t := "2024-13-01";
    Plain(t, now);
    MonthThirteenHits(now.date.year);
    DashedChars(t);
    DashedMisses(t, now.date.year);
    NothingFound(t, now);
  }

  lemma DayThirtyTwoHits(y: int)
    ensures PatternDate("2024-12-32", y, 0) == None && PatternDate("2024-12-32", y, 8) == None
  {
    DashedHits("2024-12-32", y, "12", "32");
    DigitsValueSmall("12");
    DigitsValueSmall("32");
  }

  /** "2024-12-32" is no date: December has 31 days. */
  lemma DayThirtyTwo(now: DateTime)
    requires ValidDateTime(now)
    ensures ExtractDate("2024-12-32", now) == NoDate
  {
    var t := "2024-12-32";
    Plain(t, now);
    DayThirtyTwoHits(now.date.year);
    DashedChars(t);
    DashedMisses(t, now.date.year);
    NothingFound(t, now);
  }

  // ----- Dec 7, 7 Dec, Foo 7 and 7 Foo -----

  /** Three ASCII letters, a space and a digit. */
  predicate WordDigit(t: string)
  {
    |t| == 5 && IsAsciiLetter(t[0]) && IsAsciiLetter(t[1]) && IsAsciiLetter(t[2])
    && t[3] == ' ' && IsDigit(t[4])
  }

  /** A digit, a space and three ASCII letters. */
  predicate DigitWord(t: string)
  {
    |t| == 5 && IsDigit(t[0]) && t[1] == ' '
    && IsAsciiLetter(t[2]) && IsAsciiLetter(t[3]) && IsAsciiLetter(t[4])
  }

  const WordDigitGroups: Groups := Group(Letter, 0, 3, Group(Digit, 4, 5, NoMore))

  const DigitWordGroups: Groups := Group(Digit, 0, 1, Group(Letter, 2, 5, NoMore))

  /** The "Dec 7" pattern takes such a text whole. */
  lemma WordDigitSearch(t: string)
    requires WordDigit(t)
    ensures Search(Patterns[6], t) == Some(WordDigitGroups)
  {
    var p := Patterns[6];
    RunExactly(Digit, t, 4, 1);
    MatchRunWhole(p, 2, t, 4, 1, NoMore);
    RunExactly(Space, t, 3, 1);
    MatchRunWhole(p, 1, t, 3, 1, WordDigitGroups.rest);
    RunExactly(Letter, t, 0, 3);
    MatchRunWhole(p, 0, t, 0, 3, WordDigitGroups.rest);
    SearchAt(p, t, 0, 0);
  }

  /** The "7 Dec" pattern finds no space after the final digit. */
  lemma WordDigitNoDayFirst(t: string)
    requires WordDigit(t)
    ensures Search(Patterns[7], t) == None
  {
    var p := Patterns[7];
    forall q | 0 <= q <= 5
      ensures Match(p, 0, t, q) == None
    {
      if q == 4 {
        RunExactly(Digit, t, 4, 1);
        MatchRunFails(p, 1, 2, t, 5);
      } else {
        RunExactly(Digit, t, q, 0);
      }
      MatchRunFails(p, 0, 1, t, q);
    }
    SearchNone(p, t, 0);
  }

  /** The "7 Dec" pattern takes such a text whole. */
  lemma DigitWordSearch(t: string)
    requires DigitWord(t)
    ensures Search(Patterns[7], t) == Some(DigitWordGroups)
  {
    var p := Patterns[7];
    RunExactly(Letter, t, 2, 3);
    MatchRunWhole(p, 2, t, 2, 3, NoMore);
    RunExactly(Space, t, 1, 1);
    MatchRunWhole(p, 1, t, 1, 1, DigitWordGroups.rest);
    RunExactly(Digit, t, 0, 1);
    MatchRunWhole(p, 0, t, 0, 1, DigitWordGroups.rest);
    SearchAt(p, t, 0, 0);
  }

  /** The "Dec 7" pattern finds no space after the final letters. */
  lemma DigitWordNoMonthFirst(t: string)
    requires DigitWord(t)
    ensures Search(Patterns[6], t) == None
  {
    var p := Patterns[6];
    forall q | 3 <= q <= 5
      ensures Match(p, 1, t, q) == None
    {
      RunExactly(Space, t, q, 0);
      MatchRunFails(p, 1, 2, t, q);
    }
    RunExactly(Letter, t, 4, 1);
    RunExactly(Letter, t, 3, 2);
    RunExactly(Letter, t, 2, 3);
    forall q | 0 <= q <= 5
      ensures Match(p, 0, t, q) == None
    {
      if q < 2 || q == 5 {
        RunExactly(Letter, t, q, 0);
      }
      MatchRunFails(p, 0, 1, t, q);
    }
    SearchNone(p, t, 0);
  }

  /** With no two digits side by side, no run of digits is longer than one. */
  lemma {:induction false} SingleDigits(t: string, i: nat)
    requires i <= |t|
    requires forall k :: i <= k < |t| - 1 ==> !IsDigit(t[k]) || !IsDigit(t[k + 1])
    ensures LongestRun(Digit, t, i) <= 1
    decreases |t| - i
  {
    if i < |t| {
      SingleDigits(t, i + 1);
      if IsDigit(t[i]) {
        RunExactly(Digit, t, i, 1);
      } else {
        RunExactly(Digit, t, i, 0);
      }
    }
  }

  /** A text with only single digits misses every pattern that needs a run of two or
    * four digits: all but "Dec 7" and "7 Dec". */
  lemma SingleDigitMisses(t: string, y: int)
    requires LongestRun(Digit, t, 0) <= 1
    ensures Misses(t, y, 6)
    ensures Misses(t, y, 8) ==> forall j :: 0 <= j < |Patterns| ==> PatternDate(t, y, j) == None
  {
    ShortDigitMisses(t, y);
    Miss(t, y, 4, 5);
    Miss(t, y, 5, 4);
    if Misses(t, y, 8) {
      Miss(t, y, 8, 0);
      Miss(t, y, 9, 0);
      MissesAll(t, y, 10);
    }
  }

  lemma WordDigitRead(t: string)
    requires WordDigit(t)
    ensures GroupsIn(t, WordDigitGroups) && Count(WordDigitGroups) == 2
    ensures Nth(t, WordDigitGroups, 0) == Capture(Letter, t[0..3])
    ensures Nth(t, WordDigitGroups, 1) == Capture(Digit, t[4..5])
  {
    WordDigitSearch(t);
  }

  lemma DigitWordRead(t: string)
    requires DigitWord(t)
    ensures GroupsIn(t, DigitWordGroups) && Count(DigitWordGroups) == 2
    ensures Nth(t, DigitWordGroups, 0) == Capture(Digit, t[0..1])
    ensures Nth(t, DigitWordGroups, 1) == Capture(Letter, t[2..5])
  {
    DigitWordSearch(t);
  }

  /** A month name and a day with no year fall in the current year, put in the 2000s
    * when it is below 100 like any other year. */
  lemma ThisYear(y: int)
    requires 1 <= y <= 9999
    ensures Valid(Date(FullYear(y), 12, 7))
  {
  }

  lemma MonthDayHit(y: int)
    requires 1 <= y <= 9999
    ensures PatternDate("Dec 7", y, 6) == Some(Date(FullYear(y), 12, 7))
  {
    var t := "Dec 7";
    WordDigitSearch(t);
    WordDigitRead(t);
    assert t[0..3] == "Dec" && t[4..5] == "7";
    Dec();
    DigitsValueSmall("7");
    InterpretMonthFirst(t, WordDigitGroups, y, y, 12, 7);
    ThisYear(y);
  }

  lemma MonthDayMisses(y: int)
    ensures Misses("Dec 7", y, 6)
  {
    SingleDigits("Dec 7", 0);
    SingleDigitMisses("Dec 7", y);
  }

  /** "Dec 7" is 7 December of the current year. */
  lemma MonthDay(now: DateTime)
    requires ValidDateTime(now)
    ensures ExtractDate("Dec 7", now) == Dated(Midnight(Date(FullYear(now.date.year), 12, 7)))
  {
    var t := "Dec 7";
    MonthDayClean();
    MonthDayUnrelated();
    MonthDayMisses(now.date.year);
    MonthDayHit(now.date.year);
    ReadAbsolute(t, now, 6, Date(FullYear(now.date.year), 12, 7));
  }

  lemma DayMonthHit(y: int)
    requires 1 <= y <= 9999
    ensures PatternDate("7 Dec", y, 7) == Some(Date(FullYear(y), 12, 7))
  {
    var t := "7 Dec";
    DigitWordSearch(t);
    DigitWordRead(t);
    assert t[0..1] == "7" && t[2..5] == "Dec";
    Dec();
    DigitsValueSmall("7");
    InterpretMonthSecond(t, DigitWordGroups, y, y, 12, 7);
    ThisYear(y);
  }

  lemma DayMonthMisses(y: int)
    ensures Misses("7 Dec", y, 7)
  {
    SingleDigits("7 Dec", 0);
    SingleDigitMisses("7 Dec", y);
    DigitWordNoMonthFirst("7 Dec");
  }

  /** "7 Dec" is 7 December of the current year. */
  lemma DayMonth(now: DateTime)
    requires ValidDateTime(now)
    ensures ExtractDate("7 Dec", now) == Dated(Midnight(Date(FullYear(now.date.year), 12, 7)))
  {
    var t := "7 Dec";
    DayMonthClean();
    DayMonthUnrelated();
    DayMonthMisses(now.date.year);
    DayMonthHit(now.date.year);
    ReadAbsolute(t, now, 7, Date(FullYear(now.date.year), 12, 7));
  }

  lemma UnknownMonthMisses(y: int)
    ensures forall j :: 0 <= j < |Patterns| ==> PatternDate("Foo 7", y, j) == None
  {
    var t := "Foo 7";
    SingleDigits(t, 0);
    SingleDigitMisses(t, y);
    WordDigitSearch(t);
    WordDigitRead(t);
    assert t[0..3] == "Foo";
    Foo();
    InterpretUnknownMonth(t, WordDigitGroups, y);
    WordDigitNoDayFirst(t);
    assert Misses(t, y, 8);
  }

  /** "Foo 7" is no date: "Foo" names no month, so the "Dec 7" hit falls through. */
  lemma UnknownMonth(now: DateTime)
    requires ValidDateTime(now)
    ensures ExtractDate("Foo 7", now) == NoDate
  {
    var t := "Foo 7";
    UnknownMonthClean();
    UnknownMonthUnrelated();
    UnknownMonthMisses(now.date.year);
    NothingFound(t, now);
  }

  lemma UnknownMonthSecondMisses(y: int)
    ensures forall j :: 0 <= j < |Patterns| ==> PatternDate("7 Foo", y, j) == None
  {
    var t := "7 Foo";
    SingleDigits(t, 0);
    SingleDigitMisses(t, y);
    DigitWordNoMonthFirst(t);
    DigitWordSearch(t);
    DigitWordRead(t);
    assert t[2..5] == "Foo";
    Foo();
    InterpretUnknownMonth(t, DigitWordGroups, y);
    assert Misses(t, y, 8);
  }

  /** "7 Foo" is no date: the "7 Dec" hit falls through. */
  lemma UnknownMonthSecond(now: DateTime)
    requires ValidDateTime(now)
    ensures ExtractDate("7 Foo", now) == NoDate
  {
    var t := "7 Foo";
    UnknownMonthSecondClean();
    UnknownMonthSecondUnrelated();
    UnknownMonthSecondMisses(now.date.year);
    NothingFound(t, now);
  }

  // ----- invalid date -----

  /** Every pattern needs a digit: text without one matches none. */
  lemma NoDigitMisses(t: string, y: int)
    requires forall k :: 0 <= k < |t| ==> !IsDigit(t[k])
    ensures forall j :: 0 <= j < |Patterns| ==> PatternDate(t, y, j) == None
  {
    NoRun(Digit, t, 0);
    Miss(t, y, 0, 0);
    Miss(t, y, 1, 0);
    Miss(t, y, 2, 0);
    Miss(t, y, 3, 0);
    Miss(t, y, 4, 2);
    Miss(t, y, 5, 0);
    Miss(t, y, 6, 2);
    Miss(t, y, 7, 0);
    Miss(t, y, 8, 0);
    Miss(t, y, 9, 0);
    MissesAll(t, y, 10);
  }

  /** "invalid date" is no date: it has no digit. */
  lemma NoDigits(now: DateTime)
    requires ValidDateTime(now)
    ensures ExtractDate("invalid date", now) == NoDate
  {
    var t := "invalid date";
    NoDigitsClean();
    NoDigitsUnrelated();
    NoDigitsChars();
    NoDigitMisses(t, now.date.year);
    NothingFound(t, now);
  }

  // ----- the cleaned texts of the short examples -----

  /** ASCII text has none of 前, 昨 and 刚, so no relative pattern matches it. */
  lemma AsciiUnrelated(t: string)
    requires forall k :: 0 <= k < |t| ==> t[k] <= '~'
    ensures forall j :: 0 <= j < |RelativePatterns| ==> Search(RelativePatterns[j].0, t) == None
  {
    Unrelated(t);
  }

  lemma MonthDayClean()
    ensures Clean("Dec 7") == "Dec 7"
  {
    TwoWordsClean("Dec", "7", "Dec 7");
  }

  lemma MonthDayUnrelated()
    ensures forall j :: 0 <= j < |RelativePatterns| ==> Search(RelativePatterns[j].0, "Dec 7") == None
  {
    AsciiUnrelated("Dec 7");
  }

  lemma DayMonthClean()
    ensures Clean("7 Dec") == "7 Dec"
  {
    TwoWordsClean("7", "Dec", "7 Dec");
  }

  lemma DayMonthUnrelated()
    ensures forall j :: 0 <= j < |RelativePatterns| ==> Search(RelativePatterns[j].0, "7 Dec") == None
  {
    AsciiUnrelated("7 Dec");
  }

  lemma UnknownMonthClean()
    ensures Clean("Foo 7") == "Foo 7"
  {
    TwoWordsClean("Foo", "7", "Foo 7");
  }

  lemma UnknownMonthUnrelated()
    ensures forall j :: 0 <= j < |RelativePatterns| ==> Search(RelativePatterns[j].0, "Foo 7") == None
  {
    AsciiUnrelated("Foo 7");
  }

  lemma UnknownMonthSecondClean()
    ensures Clean("7 Foo") == "7 Foo"
  {
    TwoWordsClean("7", "Foo", "7 Foo");
  }

  lemma UnknownMonthSecondUnrelated()
    ensures forall j :: 0 <= j < |RelativePatterns| ==> Search(RelativePatterns[j].0, "7 Foo") == None
  {
    AsciiUnrelated("7 Foo");
  }

  lemma NoDigitsClean()
    ensures Clean("invalid date") == "invalid date"
  {
    TwoWordsClean("invalid", "date", "invalid date");
  }

  lemma NoDigitsUnrelated()
    ensures forall j :: 0 <= j < |RelativePatterns| ==> Search(RelativePatterns[j].0, "invalid date") == None
  {
    AsciiUnrelated("invalid date");
  }

  lemma NoDigitsChars()
    ensures forall k :: 0 <= k < |"invalid date"| ==> !IsDigit("invalid date"[k])
  {
  }

  /** "Foo" is no month name. */
  lemma Foo()
    ensures MonthOf("Foo") == None
  {
    assert Title("Foo") == "Foo";
  }

  // ----- relative expressions -----

  /** A one-word text is its own cleaned form when it starts with none of the labels'
    * first characters. */
  lemma WordClean(t: string)
    requires t != [] && Visible(t) && t[0] != '发'
    requires AsciiLowerChar(t[0]) != 'p' && AsciiLowerChar(t[0]) != 'd'
    ensures Clean(t) == t
  {
    WordSqueezed(t);
    NoLabel(t);
  }

  /** A Chinese character is neither whitespace nor a digit. */
  lemma CjkNotSpace(c: char)
    requires IsCjk(c)
    ensures !IsSpace(c) && !IsDigit(c)
  {
  }

  /** The unit word `w` of a counted pattern matches itself, written at 1. */
  lemma UnitWord(p: seq<Atom>, w: string, t: string)
    requires |p| == 2 + |w| && forall k :: 0 <= k < |w| ==> p[2 + k] == One([w[k]])
    requires |t| > |w| && t[1..|w| + 1] == w
    ensures Match(p, 2, t, 1) == Some(NoMore)
  {
    WordAt(w, t);
    MatchLiteralEnd(p, 2, t, 1, w);
  }

  /** The characters of a word written at 1. */
  lemma WordAt(w: string, t: string)
    requires |t| > |w| && t[1..|w| + 1] == w
    ensures forall k :: 0 <= k < |w| ==> t[1 + k] == w[k]
  {
    forall k | 0 <= k < |w|
      ensures t[1 + k] == w[k]
    {
      assert t[1..|w| + 1][k] == t[1 + k];
    }
  }

  /** A counted pattern: the count, the optional spaces, then its unit word. */
  lemma CountedAtoms(p: seq<Atom>, w: string)
    requires p == [SomeDigits, MaybeSpaces] + Literal(w)
    ensures |p| == 2 + |w| && p[0] == SomeDigits && p[1] == MaybeSpaces
    ensures forall k :: 0 <= k < |w| ==> p[2 + k] == One([w[k]])
  {
    var lit := Literal(w);
    forall k | 0 <= k < |w|
      ensures p[2 + k] == One([w[k]])
    {
      assert p[2 + k] == lit[k];
    }
  }

  /** One digit, then a character that is no whitespace, then what the rest of a
    * counted pattern matches: the hit is at the front and its group is that digit. */
  lemma CountedSearch(p: seq<Atom>, t: string)
    requires |p| >= 2 && p[0] == SomeDigits && p[1] == MaybeSpaces
    requires |t| > 1 && IsDigit(t[0]) && !IsDigit(t[1]) && !IsSpace(t[1])
    requires Match(p, 2, t, 1) == Some(NoMore)
    ensures Search(p, t) == Some(Group(Digit, 0, 1, NoMore))
  {
    RunExactly(Space, t, 1, 0);
    MatchRunWhole(p, 1, t, 1, 0, NoMore);
    RunExactly(Digit, t, 0, 1);
    MatchRunWhole(p, 0, t, 0, 1, NoMore);
    SearchAt(p, t, 0, 0);
  }

  /** `t` is already clean, starts with one digit and the unit word `w` of the counted
    * pattern `k` (of `unit` seconds per unit), and no earlier relative pattern occurs
    * in it. */
  predicate CountedText(t: string, k: nat, w: string, unit: nat)
  {
    k < |RelativePatterns|
    && RelativePatterns[k] == ([SomeDigits, MaybeSpaces] + Literal(w), PerUnit(unit))
    && Clean(t) == t && w != [] && |t| > |w| && IsDigit(t[0]) && t[1..|w| + 1] == w && IsCjk(t[1])
    && forall j :: 0 <= j < k ==> Search(RelativePatterns[j].0, t) == None
  }

  /** When the counted pattern `k`, of `unit` seconds per unit, is the first relative
    * pattern found in `t`, with one digit and then its unit word at the front, `t` is
    * that many units before `now`. */
  lemma CountedAgo(t: string, now: DateTime, k: nat, w: string, unit: nat)
    requires ValidDateTime(now) && CountedText(t, k, w, unit)
    ensures ExtractDate(t, now) == Back(now, Span(unit, DigitValue(t[0])))
  {
    var p := RelativePatterns[k].0;
    CountedAtoms(p, w);
    UnitWord(p, w, t);
    CjkNotSpace(t[1]);
    CountedSearch(p, t);
    CountRead(t);
    RelativeFirst(t, now, k);
  }

  /** The group of a leading single digit is that digit's value. */
  lemma CountRead(t: string)
    requires |t| > 0 && IsDigit(t[0])
    ensures GroupsIn(t, Group(Digit, 0, 1, NoMore))
    ensures CountedHit(t, Group(Digit, 0, 1, NoMore))
    ensures CountOf(t, Group(Digit, 0, 1, NoMore)) == DigitValue(t[0])
  {
    var g := Group(Digit, 0, 1, NoMore);
    var d := t[0..1];
    assert d == [t[0]];
    assert GroupsIn(t, g);
    assert Count(g) == 1;
    assert Nth(t, g, 0) == Capture(Digit, d);
    DigitsValueSmall(d);
  }

  lemma MinutesClean()
    ensures Clean("5分钟前") == "5分钟前"
  {
    WordClean("5分钟前");
  }

  lemma MinutesWord()
    ensures "5分钟前"[1..4] == "分钟前" && IsCjk("5分钟前"[1])
  {
  }

  lemma MinutesCounted()
    ensures CountedText("5分钟前", 0, "分钟前", 60)
  {
    MinutesClean();
    MinutesWord();
  }

  /** "5分钟前" is five minutes before `now`, to the second. */
  lemma MinutesAgo(now: DateTime)
    requires ValidDateTime(now)
    ensures ExtractDate("5分钟前", now) == Back(now, 5 * 60)
  {
    MinutesCounted();
    CountedAgo("5分钟前", now, 0, "分钟前", 60);
  }

  lemma HoursClean()
    ensures Clean("2小时前") == "2小时前"
  {
    WordClean("2小时前");
  }

  lemma HoursWord()
    ensures "2小时前"[1..4] == "小时前" && IsCjk("2小时前"[1])
  {
  }

  lemma NotMinutes()
    ensures Search(RelativePatterns[0].0, "2小时前") == None
  {
    BlockedSearch(RelativePatterns[0].0, 2, "2小时前");
  }

  lemma HoursCounted()
    ensures CountedText("2小时前", 1, "小时前", 3600)
  {
    HoursClean();
    HoursWord();
    NotMinutes();
  }

  /** "2小时前" is two hours before `now`, to the second. */
  lemma HoursAgo(now: DateTime)
    requires ValidDateTime(now)
    ensures ExtractDate("2小时前", now) == Back(now, 2 * 3600)
  {
    HoursCounted();
    CountedAgo("2小时前", now, 1, "小时前", 3600);
  }

  /** Text without 分 and 小 is neither minutes nor hours ago. */
  lemma NotMinutesNorHours(t: string)
    requires forall k :: 0 <= k < |t| ==> t[k] != '分' && t[k] != '小'
    ensures forall j :: 0 <= j < 2 ==> Search(RelativePatterns[j].0, t) == None
  {
    BlockedSearch(RelativePatterns[0].0, 2, t);
    BlockedSearch(RelativePatterns[1].0, 2, t);
  }

  lemma DaysClean()
    ensures Clean("3天前") == "3天前"
  {
    WordClean("3天前");
  }

  lemma DaysWord()
    ensures "3天前"[1..3] == "天前" && IsCjk("3天前"[1])
  {
  }

  lemma DaysNotShorter()
    ensures forall j :: 0 <= j < 2 ==> Search(RelativePatterns[j].0, "3天前") == None
  {
    NotMinutesNorHours("3天前");
  }

  lemma DaysCounted()
    ensures CountedText("3天前", 2, "天前", 86400)
  {
    DaysClean();
    DaysWord();
    DaysNotShorter();
  }

  /** "3天前" is three days before `now`, to the second. */
  lemma DaysAgo(now: DateTime)
    requires ValidDateTime(now)
    ensures ExtractDate("3天前", now) == Back(now, 3 * 86400)
  {
    DaysCounted();
    CountedAgo("3天前", now, 2, "天前", 86400);
  }

  lemma PrecedenceSqueezed()
    ensures Squeeze("2024-03-22") == "2024-03-22"
  {
    WordSqueezed("2024-03-22");
  }

  lemma PrecedenceSpaced()
    requires Squeeze("2024-03-22") == "2024-03-22"
    ensures Squeeze("3天前" + " " + "2024-03-22") == "3天前" + " " + "2024-03-22"
  {
    SpacedSqueezed("3天前", "2024-03-22");
  }

  lemma PrecedenceSpelled()
    ensures "3天前" + " " + "2024-03-22" == "3天前 2024-03-22"
  {
  }

  lemma PrecedenceClean()
    ensures Clean("3天前 2024-03-22") == "3天前 2024-03-22"
  {
    PrecedenceSqueezed();
    PrecedenceSpaced();
    PrecedenceSpelled();
    NoLabel("3天前 2024-03-22");
  }

  lemma PrecedenceWord()
    ensures "3天前 2024-03-22"[1..3] == "天前" && IsCjk("3天前 2024-03-22"[1])
  {
  }

  lemma PrecedenceNotShorter()
    ensures forall j :: 0 <= j < 2 ==> Search(RelativePatterns[j].0, "3天前 2024-03-22") == None
  {
    NotMinutesNorHours("3天前 2024-03-22");
  }

  lemma PrecedenceCounted()
    ensures CountedText("3天前 2024-03-22", 2, "天前", 86400)
  {
    PrecedenceClean();
    PrecedenceWord();
    PrecedenceNotShorter();
  }

  /** In "3天前 2024-03-22" the relative expression wins: the result is three days
    * before `now`, whatever the absolute date after it. */
  lemma RelativeBeforeAbsolute(now: DateTime)
    requires ValidDateTime(now)
    ensures ExtractDate("3天前 2024-03-22", now) == Back(now, 3 * 86400)
  {
    PrecedenceCounted();
    CountedAgo("3天前 2024-03-22", now, 2, "天前", 86400);
  }

  /** A literal pattern finds itself at the front of the text. */
  lemma LiteralSearch(p: seq<Atom>, t: string)
    requires |p| == |t| && forall k :: 0 <= k < |t| ==> p[k] == One([t[k]])
    ensures Search(p, t) == Some(NoMore)
  {
    MatchLiteralEnd(p, 0, t, 0, t);
    SearchAt(p, t, 0, 0);
  }

  /** `t` is already clean, is the word of the fixed relative pattern `k` (of `seconds`
    * seconds), and no earlier relative pattern occurs in it. */
  predicate FixedText(t: string, k: nat, seconds: nat)
  {
    k < |RelativePatterns| && RelativePatterns[k] == (Literal(t), Fixed(seconds))
    && t != [] && Clean(t) == t
    && forall j :: 0 <= j < k ==> Search(RelativePatterns[j].0, t) == None
  }

  /** The word of a fixed relative pattern, first to occur, is that many seconds before
    * `now`. */
  lemma FixedAgo(t: string, now: DateTime, k: nat, seconds: nat)
    requires ValidDateTime(now) && FixedText(t, k, seconds)
    ensures ExtractDate(t, now) == Back(now, seconds)
  {
    LiteralSearch(RelativePatterns[k].0, t);
    RelativeFirst(t, now, k);
  }

  lemma YesterdayClean()
    ensures Clean("昨天") == "昨天"
  {
    WordClean("昨天");
  }

  lemma YesterdayNotCounted()
    ensures forall j :: 0 <= j < 3 ==> Search(RelativePatterns[j].0, "昨天") == None
  {
    NotMinutesNorHours("昨天");
    BlockedSearch(RelativePatterns[2].0, 3, "昨天");
  }

  lemma YesterdayFixed()
    ensures FixedText("昨天", 3, 86400)
  {
    YesterdayClean();
    YesterdayNotCounted();
  }

  /** "昨天" is exactly one day before `now`. */
  lemma Yesterday(now: DateTime)
    requires ValidDateTime(now)
    ensures ExtractDate("昨天", now) == Back(now, 86400)
  {
    YesterdayFixed();
    FixedAgo("昨天", now, 3, 86400);
  }

  lemma DayBeforeYesterdayClean()
    ensures Clean("前天") == "前天"
  {
    WordClean("前天");
  }

  lemma DayBeforeYesterdayNotCounted()
    ensures forall j :: 0 <= j < 3 ==> Search(RelativePatterns[j].0, "前天") == None
  {
    NotMinutesNorHours("前天");
    NoRun(Digit, "前天", 0);
    BlockedSearch(RelativePatterns[2].0, 0, "前天");
  }

  lemma DayBeforeYesterdayFixed()
    ensures FixedText("前天", 4, 2 * 86400)
  {
    DayBeforeYesterdayClean();
    DayBeforeYesterdayNotCounted();
    BlockedSearch(RelativePatterns[3].0, 0, "前天");
  }

  /** "前天" is exactly two days before `now`. */
  lemma DayBeforeYesterday(now: DateTime)
    requires ValidDateTime(now)
    ensures ExtractDate("前天", now) == Back(now, 2 * 86400)
  {
    DayBeforeYesterdayFixed();
    FixedAgo("前天", now, 4, 2 * 86400);
  }

  lemma JustNowClean()
    ensures Clean("刚刚") == "刚刚"
  {
    WordClean("刚刚");
  }

  lemma JustNowNotCounted()
    ensures forall j :: 0 <= j < 3 ==> Search(RelativePatterns[j].0, "刚刚") == None
  {
    NotMinutesNorHours("刚刚");
    BlockedSearch(RelativePatterns[2].0, 2, "刚刚");
  }

  lemma JustNowNotDays()
    ensures Search(RelativePatterns[3].0, "刚刚") == None && Search(RelativePatterns[4].0, "刚刚") == None
  {
    BlockedSearch(RelativePatterns[3].0, 0, "刚刚");
    BlockedSearch(RelativePatterns[4].0, 0, "刚刚");
  }

  lemma JustNowFixed()
    ensures FixedText("刚刚", 5, 0)
  {
    JustNowClean();
    JustNowNotCounted();
    JustNowNotDays();
  }

  /** "刚刚" is `now` itself: an offset of zero seconds. */
  lemma JustNow(now: DateTime)
    requires ValidDateTime(now)
    ensures ExtractDate("刚刚", now) == Back(now, 0)
  {
    JustNowFixed();
    FixedAgo("刚刚", now, 5, 0);
  }

  // ----- labels -----

  /** "发布于 2024-03-22" is 22 March 2024: the label is dropped. */
  lemma PublishedAt(now: DateTime)
    requires ValidDateTime(now)
    ensures ExtractDate("发布于 2024-03-22", now) == Dated(Midnight(Date(2024, 3, 22)))
  {
    PublishedAtSpelled();
    PublishedAtRest(now);
  }

  lemma PublishedAtSpelled()
    ensures Labels[0] + " " + "2024-03-22" == "发布于 2024-03-22"
  {
  }

  lemma PublishedAtRest(now: DateTime)
    requires ValidDateTime(now)
    ensures ExtractDate(Labels[0] + " " + "2024-03-22", now) == Dated(Midnight(Date(2024, 3, 22)))
  {
    Plain("2024-03-22", now);
    LabelIgnored(0, Labels[0], "2024-03-22", now);
    IsoDashes(now);
  }

  /** "Published on Dec 7, 2024" is 7 December 2024: the label is dropped. */
  lemma PublishedOn(now: DateTime)
    requires ValidDateTime(now)
    ensures ExtractDate("Published on Dec 7, 2024", now) == Dated(Midnight(Date(2024, 12, 7)))
  {
    PublishedOnSpelled();
    PublishedOnRest(now);
  }

  lemma PublishedOnSpelled()
    ensures Labels[2] + " " + "Dec 7, 2024" == "Published on Dec 7, 2024"
  {
  }

  lemma PublishedOnRest(now: DateTime)
    requires ValidDateTime(now)
    ensures ExtractDate(Labels[2] + " " + "Dec 7, 2024", now) == Dated(Midnight(Date(2024, 12, 7)))
  {
    AbbreviatedClean();
    LabelIgnored(2, Labels[2], "Dec 7, 2024", now);
    MonthNameFirst(now);
  }

  /** "Date: 2024/03/22" is 22 March 2024: the label is dropped. */
  lemma DateLabel(now: DateTime)
    requires ValidDateTime(now)
    ensures ExtractDate("Date: 2024/03/22", now) == Dated(Midnight(Date(2024, 3, 22)))
  {
    DateLabelSpelled();
    DateLabelRest(now);
  }

  lemma DateLabelSpelled()
    ensures Labels[4] + " " + "2024/03/22" == "Date: 2024/03/22"
  {
  }

  lemma DateLabelRest(now: DateTime)
    requires ValidDateTime(now)
    ensures ExtractDate(Labels[4] + " " + "2024/03/22", now) == Dated(Midnight(Date(2024, 3, 22)))
  {
    Plain("2024/03/22", now);
    LabelIgnored(4, Labels[4], "2024/03/22", now);
    IsoSlashes(now);
  }
}
