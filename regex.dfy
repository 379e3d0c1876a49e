/**
 * The fragment of Python's `re` that the crawler's patterns use, with the
 * engine's backtracking order: a greedy repetition first takes as many
 * characters as it can and gives them back one at a time; an optional
 * character is first taken, then skipped; `search` reports the leftmost
 * position at which the whole pattern matches.
 */
module Regex {
  import opened Wrappers
  import opened Text

  /** `\d` (ASCII), `[A-Za-z]`, `\s`, and `.` (anything but a newline). */
  datatype Class = Digit | Letter | Space | AnyButNewline

  datatype Bound = UpTo(n: nat) | Unbounded

  datatype Atom =
    | Run(cls: Class, lo: nat, hi: Bound, capture: bool)  // cls{lo,hi}, greedy; `capture` wraps it in a group
    | One(chars: seq<char>)                                // a literal character or a bracketed set
    | Opt(chars: seq<char>)                                // the same, followed by `?`
    | EndAnchor                                            // `$`

  /** Captured groups, in order: the class and the span `[start, stop)` of each. */
  datatype Groups = NoMore | Group(cls: Class, start: nat, stop: nat, rest: Groups)

  predicate InClass(cls: Class, c: char)
  {
    match cls
    case Digit => IsDigit(c)
    case Letter => IsAsciiLetter(c)
    case Space => IsSpace(c)
    case AnyButNewline => c != '\n'
  }

  /** Every captured span lies inside `text` and holds only characters of its class. */
  predicate GroupsIn(text: string, g: Groups)
  {
    match g
    case NoMore => true
    case Group(cls, start, stop, rest) =>
      start <= stop <= |text|
      && (forall k :: start <= k < stop ==> InClass(cls, text[k]))
      && GroupsIn(text, rest)
  }

  /** The length of the longest run of `cls` characters starting at `i`. */
  function RunLength(cls: Class, text: string, i: nat): (n: nat)
    requires i <= |text|
    ensures i + n <= |text|
    ensures forall k :: i <= k < i + n ==> InClass(cls, text[k])
    ensures i + n == |text| || !InClass(cls, text[i + n])
    decreases |text| - i
  {
    if i < |text| && InClass(cls, text[i]) then 1 + RunLength(cls, text, i + 1) else 0
  }

  function Cap(n: nat, hi: Bound): nat
  {
    match hi
    case UpTo(m) => if n < m then n else m
    case Unbounded => n
  }

  /** Matches `atoms[j..]` at position `i`, returning the groups of the first success. */
  function Match(atoms: seq<Atom>, j: nat, text: string, i: nat): (r: Option<Groups>)
    requires j <= |atoms| && i <= |text|
    ensures r.Some? ==> GroupsIn(text, r.value)
    decreases |atoms| - j, 0
  {
    if j == |atoms| then Some(NoMore)
    else match atoms[j]
      case Run(cls, lo, hi, _) => Repeat(atoms, j, text, i, Cap(RunLength(cls, text, i), hi))
      case One(cs) =>
        if i < |text| && text[i] in cs then Match(atoms, j + 1, text, i + 1) else None
      case Opt(cs) =>
        if i < |text| && text[i] in cs && Match(atoms, j + 1, text, i + 1).Some?
        then Match(atoms, j + 1, text, i + 1)
        else Match(atoms, j + 1, text, i)
      case EndAnchor =>
        if i == |text| || (i + 1 == |text| && text[i] == '\n') then Match(atoms, j + 1, text, i)
        else None
  }

  /** Tries the repetition `atoms[j]` with `n`, `n - 1`, ... characters, down to its minimum. */
  function Repeat(atoms: seq<Atom>, j: nat, text: string, i: nat, n: nat): (r: Option<Groups>)
    requires j < |atoms| && atoms[j].Run? && i + n <= |text|
    requires forall k :: i <= k < i + n ==> InClass(atoms[j].cls, text[k])
    ensures r.Some? ==> GroupsIn(text, r.value)
    decreases |atoms| - j - 1, n + 1
  {
    if n < atoms[j].lo then None
    else match Match(atoms, j + 1, text, i + n)
      case Some(g) => Some(if atoms[j].capture then Group(atoms[j].cls, i, i + n, g) else g)
      case None => if n == 0 then None else Repeat(atoms, j, text, i, n - 1)
  }

  /** `re.search`: the groups of the match at the leftmost position `>= i` that has one. */
  function SearchFrom(atoms: seq<Atom>, text: string, i: nat): (r: Option<Groups>)
    requires i <= |text|
    ensures r.Some? ==> GroupsIn(text, r.value)
    decreases |text| - i
  {
    match Match(atoms, 0, text, i)
    case Some(g) => Some(g)
    case None => if i == |text| then None else SearchFrom(atoms, text, i + 1)
  }

  function Search(atoms: seq<Atom>, text: string): (r: Option<Groups>)
    ensures r.Some? ==> GroupsIn(text, r.value)
  {
    SearchFrom(atoms, text, 0)
  }

  /** A captured group as text, with its class. */
  datatype Capture = Capture(cls: Class, s: string)

  function Count(g: Groups): nat
  {
    if g.NoMore? then 0 else 1 + Count(g.rest)
  }

  /** `m.group(k + 1)`: the `k`-th captured group as text, with its class. */
  function Nth(text: string, g: Groups, k: nat): (c: Capture)
    requires GroupsIn(text, g) && k < Count(g)
    ensures c.cls == Digit ==> AllDigits(c.s)
    ensures c.cls == Letter ==> c.s == [] || IsAsciiLetter(c.s[0])
  {
    if k == 0 then
      assert forall i :: 0 <= i < g.stop - g.start ==> text[g.start..g.stop][i] == text[g.start + i];
      Capture(g.cls, text[g.start..g.stop])
    else Nth(text, g.rest, k - 1)
  }

  /** A literal string as a sequence of one-character atoms. */
  function Literal(s: string): (atoms: seq<Atom>)
    ensures |atoms| == |s|
    ensures forall k :: 0 <= k < |s| ==> atoms[k] == One([s[k]])
  {
    if s == [] then [] else [One([s[0]])] + Literal(s[1..])
  }

  // ----- facts used to evaluate a pattern on a given text -----

  /** A pattern with a required atom that can start nowhere in `text` matches nowhere. */
  predicate Blocked(a: Atom, text: string)
  {
    match a
    case One(cs) => forall k :: 0 <= k < |text| ==> text[k] !in cs
    case Run(cls, lo, _, _) => lo > 0 && LongestRun(cls, text, 0) < lo
    case _ => false
  }

  lemma {:induction false} BlockedMatch(atoms: seq<Atom>, j: nat, b: nat, text: string, i: nat)
    requires j <= b < |atoms| && i <= |text| && Blocked(atoms[b], text)
    ensures Match(atoms, j, text, i) == None
    decreases |atoms| - j, 0
  {
    match atoms[j]
    case Run(cls, lo, hi, _) =>
      BlockedRepeat(atoms, j, b, text, i, Cap(RunLength(cls, text, i), hi));
    case One(cs) =>
      if j < b && i < |text| && text[i] in cs { BlockedMatch(atoms, j + 1, b, text, i + 1); }
    case Opt(cs) =>
      if j < b {
        if i < |text| { BlockedMatch(atoms, j + 1, b, text, i + 1); }
        BlockedMatch(atoms, j + 1, b, text, i);
      }
    case EndAnchor =>
      if j < b { BlockedMatch(atoms, j + 1, b, text, i); }
  }

  lemma {:induction false} BlockedRepeat(atoms: seq<Atom>, j: nat, b: nat, text: string, i: nat, n: nat)
    requires j <= b < |atoms| && atoms[j].Run? && i + n <= |text| && Blocked(atoms[b], text)
    requires forall k :: i <= k < i + n ==> InClass(atoms[j].cls, text[k])
    ensures Repeat(atoms, j, text, i, n) == None
    decreases |atoms| - j - 1, n + 1
  {
    if j == b {
      RunLengthAtLeast(atoms[j].cls, text, i, n);
      LongestRunBound(atoms[j].cls, text, 0, i);
    } else if n >= atoms[j].lo {
      BlockedMatch(atoms, j + 1, b, text, i + n);
      if n > 0 { BlockedRepeat(atoms, j, b, text, i, n - 1); }
    }
  }

  /** A run of `n` class characters at `i` is no longer than the maximal run there. */
  lemma {:induction false} RunLengthAtLeast(cls: Class, text: string, i: nat, n: nat)
    requires i + n <= |text|
    requires forall k :: i <= k < i + n ==> InClass(cls, text[k])
    ensures n <= RunLength(cls, text, i)
    decreases n
  {
    if n > 0 { RunLengthAtLeast(cls, text, i + 1, n - 1); }
  }

  /** The longest run of `cls` characters starting at or after `i`. */
  function LongestRun(cls: Class, text: string, i: nat): nat
    requires i <= |text|
    decreases |text| - i
  {
    if i == |text| then 0
    else
      var here, later := RunLength(cls, text, i), LongestRun(cls, text, i + 1);
      if here < later then later else here
  }

  /** No run at all where no character is of the class. */
  lemma {:induction false} NoRun(cls: Class, text: string, i: nat)
    requires i <= |text| && forall k :: i <= k < |text| ==> !InClass(cls, text[k])
    ensures LongestRun(cls, text, i) == 0
    decreases |text| - i
  {
    if i < |text| { NoRun(cls, text, i + 1); }
  }

  lemma {:induction false} LongestRunBound(cls: Class, text: string, i: nat, k: nat)
    requires i <= k <= |text|
    ensures RunLength(cls, text, k) <= LongestRun(cls, text, i)
    decreases |text| - i
  {
    if i < |text| && i < k { LongestRunBound(cls, text, i + 1, k); }
  }

  lemma {:induction false} BlockedSearchFrom(atoms: seq<Atom>, b: nat, text: string, i: nat)
    requires b < |atoms| && i <= |text| && Blocked(atoms[b], text)
    ensures SearchFrom(atoms, text, i) == None
    decreases |text| - i
  {
    BlockedMatch(atoms, 0, b, text, i);
    if i < |text| { BlockedSearchFrom(atoms, b, text, i + 1); }
  }

  /** `search` finds nothing when some required atom can match no character of `text`. */
  lemma BlockedSearch(atoms: seq<Atom>, b: nat, text: string)
    requires b < |atoms| && Blocked(atoms[b], text)
    ensures Search(atoms, text) == None
  {
    BlockedSearchFrom(atoms, b, text, 0);
  }

  // ----- what a match captures first -----

  /** A pattern that starts with a capturing repetition captures at `i`, first, at
    * least its minimum number of characters of its class. */
  lemma {:induction false} RepeatFirstGroup(atoms: seq<Atom>, j: nat, text: string, i: nat, n: nat)
    requires j < |atoms| && atoms[j].Run? && atoms[j].capture && i + n <= |text|
    requires forall k :: i <= k < i + n ==> InClass(atoms[j].cls, text[k])
    requires Repeat(atoms, j, text, i, n).Some?
    ensures Repeat(atoms, j, text, i, n).value.Group?
    ensures Repeat(atoms, j, text, i, n).value.cls == atoms[j].cls
    ensures Repeat(atoms, j, text, i, n).value.start == i
    ensures atoms[j].lo <= Repeat(atoms, j, text, i, n).value.stop - i
    decreases n
  {
    if Match(atoms, j + 1, text, i + n).None? {
      RepeatFirstGroup(atoms, j, text, i, n - 1);
    }
  }

  lemma {:induction false} SearchFromFirstGroup(atoms: seq<Atom>, text: string, i: nat)
    requires |atoms| > 0 && atoms[0].Run? && atoms[0].capture && i <= |text|
    requires SearchFrom(atoms, text, i).Some?
    ensures SearchFrom(atoms, text, i).value.Group?
    ensures SearchFrom(atoms, text, i).value.cls == atoms[0].cls
    ensures atoms[0].lo <= SearchFrom(atoms, text, i).value.stop - SearchFrom(atoms, text, i).value.start
    decreases |text| - i
  {
    if Match(atoms, 0, text, i).Some? {
      RepeatFirstGroup(atoms, 0, text, i, Cap(RunLength(atoms[0].cls, text, i), atoms[0].hi));
    } else {
      SearchFromFirstGroup(atoms, text, i + 1);
    }
  }

  /** `m.group(1)` of a hit of a pattern that starts with a capturing repetition is
    * made of that repetition's class and has at least its minimum length. */
  lemma SearchFirstGroup(atoms: seq<Atom>, text: string)
    requires |atoms| > 0 && atoms[0].Run? && atoms[0].capture
    requires Search(atoms, text).Some?
    ensures Count(Search(atoms, text).value) > 0
    ensures Nth(text, Search(atoms, text).value, 0).cls == atoms[0].cls
    ensures atoms[0].lo <= |Nth(text, Search(atoms, text).value, 0).s|
  {
    SearchFromFirstGroup(atoms, text, 0);
  }

  // ----- evaluation steps, for running a pattern on a given text -----

  /** A maximal run of exactly `n` class characters at `i`. */
  lemma {:induction false} RunExactly(cls: Class, text: string, i: nat, n: nat)
    requires i + n <= |text|
    requires forall k :: i <= k < i + n ==> InClass(cls, text[k])
    requires i + n == |text| || !InClass(cls, text[i + n])
    ensures RunLength(cls, text, i) == n
    decreases n
  {
    if n > 0 {
      RunExactly(cls, text, i + 1, n - 1);
    }
  }

  /** A repetition that keeps all the characters it took first lets the rest match. */
  lemma MatchRunWhole(atoms: seq<Atom>, j: nat, text: string, i: nat, m: nat, g: Groups)
    requires j < |atoms| && atoms[j].Run? && i <= |text|
    requires m == Cap(RunLength(atoms[j].cls, text, i), atoms[j].hi) && atoms[j].lo <= m
    requires Match(atoms, j + 1, text, i + m) == Some(g)
    ensures Match(atoms, j, text, i) == Some(if atoms[j].capture then Group(atoms[j].cls, i, i + m, g) else g)
  {
  }

  /** A repetition fails when the rest, `atoms[next..]`, matches after none of the
    * lengths it may take. */
  lemma MatchRunFails(atoms: seq<Atom>, j: nat, next: nat, text: string, i: nat)
    requires j < |atoms| && atoms[j].Run? && i <= |text| && next == j + 1
    requires forall p :: i + atoms[j].lo <= p <= i + Cap(RunLength(atoms[j].cls, text, i), atoms[j].hi)
                         ==> Match(atoms, next, text, p) == None
    ensures Match(atoms, j, text, i) == None
  {
    RepeatFails(atoms, j, next, text, i, Cap(RunLength(atoms[j].cls, text, i), atoms[j].hi));
  }

  lemma {:induction false} RepeatFails(atoms: seq<Atom>, j: nat, next: nat, text: string, i: nat, n: nat)
    requires j < |atoms| && atoms[j].Run? && i + n <= |text| && next == j + 1
    requires forall k :: i <= k < i + n ==> InClass(atoms[j].cls, text[k])
    requires forall p :: i + atoms[j].lo <= p <= i + n ==> Match(atoms, next, text, p) == None
    ensures Repeat(atoms, j, text, i, n) == None
    decreases n
  {
    if n >= atoms[j].lo && n > 0 {
      RepeatFails(atoms, j, next, text, i, n - 1);
    }
  }

  /** A literal character matches itself and moves on. */
  lemma MatchOne(atoms: seq<Atom>, j: nat, text: string, i: nat)
    requires j < |atoms| && atoms[j].One? && i < |text| && text[i] in atoms[j].chars
    ensures Match(atoms, j, text, i) == Match(atoms, j + 1, text, i + 1)
  {
  }

  /** `search` reports the match at the leftmost position that has one. */
  lemma {:induction false} SearchAt(atoms: seq<Atom>, text: string, i: nat, p: nat)
    requires i <= p <= |text|
    requires forall q :: i <= q < p ==> Match(atoms, 0, text, q) == None
    requires Match(atoms, 0, text, p).Some?
    ensures SearchFrom(atoms, text, i) == Match(atoms, 0, text, p)
    decreases p - i
  {
    if i < p {
      SearchAt(atoms, text, i + 1, p);
    }
  }

  /** An optional character that is present is taken when the rest then matches. */
  lemma MatchOptTaken(atoms: seq<Atom>, j: nat, text: string, i: nat)
    requires j < |atoms| && atoms[j].Opt? && i < |text| && text[i] in atoms[j].chars
    requires Match(atoms, j + 1, text, i + 1).Some?
    ensures Match(atoms, j, text, i) == Match(atoms, j + 1, text, i + 1)
  {
  }

  /** `search` finds nothing when the pattern matches at no position. */
  lemma {:induction false} SearchNone(atoms: seq<Atom>, text: string, i: nat)
    requires i <= |text|
    requires forall q :: i <= q <= |text| ==> Match(atoms, 0, text, q) == None
    ensures SearchFrom(atoms, text, i) == None
    decreases |text| - i
  {
    if i < |text| {
      SearchNone(atoms, text, i + 1);
    }
  }

  /** A pattern whose last atoms spell `s` matches them against `s` written at `i`. */
  lemma {:induction false} MatchLiteralEnd(atoms: seq<Atom>, j: nat, text: string, i: nat, s: string)
    requires j + |s| == |atoms| && i + |s| <= |text|
    requires forall k :: 0 <= k < |s| ==> atoms[j + k] == One([s[k]]) && text[i + k] == s[k]
    ensures Match(atoms, j, text, i) == Some(NoMore)
    decreases |s|
  {
    if s != [] {
      assert atoms[j] == One([s[0]]) && text[i] == s[0];
      MatchLiteralEnd(atoms, j + 1, text, i + 1, s[1..]);
    }
  }
}
