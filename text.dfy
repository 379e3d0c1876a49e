/**
 * Strings as sequences of code points, and the handful of Python `str`
 * operations the crawler relies on: `isspace`, `strip`, `split()` (on runs of
 * whitespace), `split(sep)`, `join`, `in` and `startswith`/`endswith`.
 */
module Text {

  /** Python's `str.isspace` for one code point (the Unicode White_Space set plus
    * the ASCII separators U+001C..U+001F); the regex class `\s` agrees with it. */
  predicate IsSpace(c: char)
  {
    c in SpaceChars
  }

  const SpaceChars: set<char> :=
    {'\U{0009}', '\U{000A}', '\U{000B}', '\U{000C}', '\U{000D}',
     '\U{001C}', '\U{001D}', '\U{001E}', '\U{001F}', '\U{0020}',
     '\U{0085}', '\U{00A0}', '\U{1680}',
     '\U{2000}', '\U{2001}', '\U{2002}', '\U{2003}', '\U{2004}', '\U{2005}',
     '\U{2006}', '\U{2007}', '\U{2008}', '\U{2009}', '\U{200A}',
     '\U{2028}', '\U{2029}', '\U{202F}', '\U{205F}', '\U{3000}'}

  predicate IsDigit(c: char) { '0' <= c <= '9' }

  predicate IsAsciiLetter(c: char) { ('a' <= c <= 'z') || ('A' <= c <= 'Z') }

  /** The CJK range the source tests with the class `[一-龥]`. */
  predicate IsCjk(c: char) { '\U{4E00}' <= c <= '\U{9FA5}' }

  predicate NoSpace(s: string) { forall k :: 0 <= k < |s| ==> !IsSpace(s[k]) }

  predicate AllDigits(s: string) { forall k :: 0 <= k < |s| ==> IsDigit(s[k]) }

  predicate HasCjk(s: string) { exists k :: 0 <= k < |s| && IsCjk(s[k]) }

  /** The value of a string of ASCII digits (`int(s)`). */
  function DigitsValue(s: string): (v: nat)
    requires AllDigits(s)
    ensures |s| <= 1 ==> v < 10
    ensures |s| <= 2 ==> v < 100
    ensures |s| <= 4 ==> v < 10000
  {
    if s == [] then 0 else DigitsValue(s[..|s| - 1]) * 10 + (s[|s| - 1] as int - '0' as int)
  }

  function DigitValue(c: char): nat
    requires IsDigit(c)
  {
    c as int - '0' as int
  }

  /** `int(s)` for one, two and four digits, written out. */
  lemma DigitsValueSmall(s: string)
    requires AllDigits(s) && 1 <= |s|
    ensures |s| == 1 ==> DigitsValue(s) == DigitValue(s[0])
    ensures |s| == 2 ==> DigitsValue(s) == 10 * DigitValue(s[0]) + DigitValue(s[1])
    ensures |s| == 4 ==>
      DigitsValue(s) == 1000 * DigitValue(s[0]) + 100 * DigitValue(s[1]) + 10 * DigitValue(s[2]) + DigitValue(s[3])
  {
    if |s| == 2 {
      assert s[..1][0] == s[0];
    } else if |s| == 4 {
      var p := s[..3];
      assert p[..2][..1][0] == s[0] && p[..2][1] == s[1] && p[2] == s[2];
    }
  }

  function AsciiLowerChar(c: char): char
  {
    if 'A' <= c <= 'Z' then (c as int + 32) as char else c
  }

  function AsciiUpperChar(c: char): char
  {
    if 'a' <= c <= 'z' then (c as int - 32) as char else c
  }

  /** `s.lower()` restricted to ASCII letters; other code points are kept. */
  function Lower(s: string): (r: string)
    ensures |r| == |s|
    ensures forall k :: 0 <= k < |s| ==> r[k] == AsciiLowerChar(s[k])
  {
    seq(|s|, k requires 0 <= k < |s| => AsciiLowerChar(s[k]))
  }

  function StartsWith(s: string, prefix: string): bool
  {
    |prefix| <= |s| && s[..|prefix|] == prefix
  }

  function EndsWith(s: string, suffix: string): bool
  {
    |suffix| <= |s| && s[|s| - |suffix|..] == suffix
  }

  /** `sub` occurs in `s` starting at index `i`. */
  predicate OccursAt(s: string, sub: string, i: nat)
  {
    i + |sub| <= |s| && s[i..i + |sub|] == sub
  }

  /** `sub in s`. */
  predicate Contains(s: string, sub: string)
  {
    exists i | 0 <= i <= |s| :: OccursAt(s, sub, i)
  }

  lemma ContainsInConcat(a: string, b: string, c: string, sub: string)
    requires Contains(b, sub)
    ensures Contains(a + b + c, sub)
  {
    var i :| 0 <= i <= |b| && OccursAt(b, sub, i);
    assert (a + b + c)[|a| + i..|a| + i + |sub|] == sub;
    assert OccursAt(a + b + c, sub, |a| + i);
  }

  // ----- strip -----

  /** The first index at or after `i` that is not whitespace (or `|s|`). */
  function SkipSpaces(s: string, i: nat): (j: nat)
    requires i <= |s|
    ensures i <= j <= |s| && (j == |s| || !IsSpace(s[j]))
    ensures forall k :: i <= k < j ==> IsSpace(s[k])
    decreases |s| - i
  {
    if i < |s| && IsSpace(s[i]) then SkipSpaces(s, i + 1) else i
  }

  /** The first index at or after `i` that is whitespace (or `|s|`). */
  function SkipWord(s: string, i: nat): (j: nat)
    requires i <= |s|
    ensures i <= j <= |s| && (j == |s| || IsSpace(s[j]))
    ensures forall k :: i <= k < j ==> !IsSpace(s[k])
    decreases |s| - i
  {
    if i < |s| && !IsSpace(s[i]) then SkipWord(s, i + 1) else i
  }

  /** The end of `s[lo..j]` once its trailing whitespace is dropped. */
  function TrimEnd(s: string, lo: nat, j: nat): (e: nat)
    requires lo <= j <= |s|
    ensures lo <= e <= j && (e == lo || !IsSpace(s[e - 1]))
    ensures forall k :: e <= k < j ==> IsSpace(s[k])
    decreases j - lo
  {
    if j > lo && IsSpace(s[j - 1]) then TrimEnd(s, lo, j - 1) else j
  }

  /** `s.strip()`: the slice of `s` between its leading and trailing whitespace. */
  function Strip(s: string): (r: string)
    ensures |r| <= |s|
    ensures r == [] || (!IsSpace(r[0]) && !IsSpace(r[|r| - 1]))
    ensures r == [] <==> forall k :: 0 <= k < |s| ==> IsSpace(s[k])
    ensures forall k :: 0 <= k < |r| ==> r[k] in s
  {
    var a := SkipSpaces(s, 0);
    var e := TrimEnd(s, a, |s|);
    assert a < |s| ==> e > a;
    assert forall k :: 0 <= k < e - a ==> s[a..e][k] == s[a + k];
    s[a..e]
  }

  lemma StripOfStripped(s: string)
    requires s == [] || (!IsSpace(s[0]) && !IsSpace(s[|s| - 1]))
    ensures Strip(s) == s
  {
    if s != [] {
      assert SkipSpaces(s, 0) == 0;
      assert TrimEnd(s, 0, |s|) == |s|;
    }
  }

  // ----- split() on whitespace, and the whitespace collapse built on it -----

  function WordsFrom(s: string, i: nat): (ws: seq<string>)
    requires i <= |s|
    ensures forall k :: 0 <= k < |ws| ==> ws[k] != [] && NoSpace(ws[k])
    decreases |s| - i
  {
    var a := SkipSpaces(s, i);
    if a == |s| then []
    else
      var b := SkipWord(s, a);
      assert NoSpace(s[a..b]) by {
        assert forall k :: 0 <= k < b - a ==> s[a..b][k] == s[a + k];
      }
      [s[a..b]] + WordsFrom(s, b)
  }

  /** `s.split()`: the maximal runs of non-whitespace characters, in order. */
  function Words(s: string): (ws: seq<string>)
    ensures forall k :: 0 <= k < |ws| ==> ws[k] != [] && NoSpace(ws[k])
  {
    WordsFrom(s, 0)
  }

  /** `sep.join(parts)`. */
  function Join(parts: seq<string>, sep: string): (r: string)
  {
    if parts == [] then []
    else if |parts| == 1 then parts[0]
    else parts[0] + sep + Join(parts[1..], sep)
  }

  /** `' '.join(s.split())`: whitespace runs collapsed to one space, ends trimmed. */
  function Squeeze(s: string): string
  {
    Join(Words(s), " ")
  }

  /** The shape `Squeeze` produces: no whitespace but single inner spaces. */
  predicate Squeezed(s: string)
  {
    (s == [] || (s[0] != ' ' && s[|s| - 1] != ' '))
    && (forall k :: 0 <= k < |s| && IsSpace(s[k]) ==> s[k] == ' ')
    && (forall k :: 0 <= k < |s| - 1 && s[k] == ' ' ==> s[k + 1] != ' ')
  }

  lemma {:induction false} JoinWordsSqueezed(ws: seq<string>)
    requires forall k :: 0 <= k < |ws| ==> ws[k] != [] && NoSpace(ws[k])
    ensures Squeezed(Join(ws, " "))
    ensures Join(ws, " ") == [] <==> ws == []
  {
    if |ws| > 1 {
      JoinWordsSqueezed(ws[1..]);
      var rest := Join(ws[1..], " ");
      var r := ws[0] + " " + rest;
      assert Join(ws, " ") == r;
      assert rest != [];
      forall k | 0 <= k < |r| - 1 && r[k] == ' ' ensures r[k + 1] != ' ' {
        if k == |ws[0]| {
          assert r[k + 1] == rest[0];
        } else if k > |ws[0]| {
          assert r[k] == rest[k - |ws[0]| - 1];
          assert r[k + 1] == rest[k - |ws[0]|];
        }
      }
      forall k | 0 <= k < |r| && IsSpace(r[k]) ensures r[k] == ' ' {
        if k > |ws[0]| {
          assert r[k] == rest[k - |ws[0]| - 1];
        }
      }
      assert r[|r| - 1] == rest[|rest| - 1];
    } else if |ws| == 1 {
      assert Join(ws, " ") == ws[0];
    }
  }

  lemma SqueezeShape(s: string)
    ensures Squeezed(Squeeze(s))
  {
    JoinWordsSqueezed(Words(s));
  }

  lemma {:induction false} SkipSpacesShift(x: string, y: string, i: nat)
    requires i <= |y|
    ensures SkipSpaces(x + y, |x| + i) == |x| + SkipSpaces(y, i)
    decreases |y| - i
  {
    if i < |y| {
      assert (x + y)[|x| + i] == y[i];
      if IsSpace(y[i]) { SkipSpacesShift(x, y, i + 1); }
    }
  }

  lemma {:induction false} SkipWordShift(x: string, y: string, i: nat)
    requires i <= |y|
    ensures SkipWord(x + y, |x| + i) == |x| + SkipWord(y, i)
    decreases |y| - i
  {
    if i < |y| {
      assert (x + y)[|x| + i] == y[i];
      if !IsSpace(y[i]) { SkipWordShift(x, y, i + 1); }
    }
  }

  /** Text before position `|x|` does not affect the words found after it. */
  lemma {:induction false} WordsFromShift(x: string, y: string, i: nat)
    requires i <= |y|
    ensures WordsFrom(x + y, |x| + i) == WordsFrom(y, i)
    decreases |y| - i
  {
    var s := x + y;
    SkipSpacesShift(x, y, i);
    var a := SkipSpaces(y, i);
    if a < |y| {
      SkipWordShift(x, y, a);
      var b := SkipWord(y, a);
      SliceShift(x, y, a, b);
      WordsFromShift(x, y, b);
      assert WordsFrom(s, |x| + i) == [s[|x| + a..|x| + b]] + WordsFrom(s, |x| + b);
    }
  }

  lemma SliceShift(x: string, y: string, a: nat, b: nat)
    requires a <= b <= |y|
    ensures (x + y)[|x| + a..|x| + b] == y[a..b]
  {
  }

  /** The words of `w + " " + rest`, for a single word `w`, are `w` then those of `rest`. */
  lemma {:induction false} WordsOfWordAndRest(w: string, rest: string)
    requires w != [] && NoSpace(w)
    ensures Words(w + " " + rest) == [w] + Words(rest)
  {
    var s := w + " " + rest;
    assert s[0] == w[0];
    assert SkipSpaces(s, 0) == 0;
    SkipWordShift([], w + " " + rest, 0);
    assert SkipWord(s, |w|) == |w| by { assert s[|w|] == ' '; }
    SkipWordUpTo(s, 0, |w|);
    assert s[0..|w|] == w;
    assert s[|w|] == ' ';
    assert WordsFrom(s, |w|) == WordsFrom(s, |w| + 1);
    assert s == (w + " ") + rest;
    WordsFromShift(w + " ", rest, 0);
  }

  lemma {:induction false} SkipWordUpTo(s: string, i: nat, j: nat)
    requires i <= j < |s| && IsSpace(s[j])
    requires forall k :: i <= k < j ==> !IsSpace(s[k])
    ensures SkipWord(s, i) == j
    decreases j - i
  {
    if i < j { SkipWordUpTo(s, i + 1, j); }
  }

  lemma {:induction false} WordsOfJoin(ws: seq<string>)
    requires forall k :: 0 <= k < |ws| ==> ws[k] != [] && NoSpace(ws[k])
    ensures Words(Join(ws, " ")) == ws
  {
    if ws == [] {
    } else if |ws| == 1 {
      var w := ws[0];
      assert Join(ws, " ") == w;
      assert SkipSpaces(w, 0) == 0;
      assert SkipWord(w, 0) == |w| by { SkipWordToEnd(w, 0); }
      assert w[0..|w|] == w;
      assert WordsFrom(w, |w|) == [];
    } else {
      WordsOfJoin(ws[1..]);
      assert Join(ws, " ") == ws[0] + " " + Join(ws[1..], " ");
      WordsOfWordAndRest(ws[0], Join(ws[1..], " "));
    }
  }

  lemma {:induction false} SkipWordToEnd(s: string, i: nat)
    requires i <= |s| && forall k :: i <= k < |s| ==> !IsSpace(s[k])
    ensures SkipWord(s, i) == |s|
    decreases |s| - i
  {
    if i < |s| { SkipWordToEnd(s, i + 1); }
  }

  /** Collapsing whitespace twice is collapsing it once. */
  lemma SqueezeIdempotent(s: string)
    ensures Squeeze(Squeeze(s)) == Squeeze(s)
  {
    WordsOfJoin(Words(s));
  }

  // ----- split(sep) and join -----

  /** `s.split(sep)` for a one-character separator: never empty. */
  function Split(s: string, sep: char): (parts: seq<string>)
    ensures |parts| >= 1
    decreases |s|
  {
    var i := Find(s, sep);
    if i == |s| then [s] else [s[..i]] + Split(s[i + 1..], sep)
  }

  /** The index of the first `c` in `s`, or `|s|` when `s` has none. */
  function Find(s: string, c: char): (i: nat)
    ensures i <= |s| && (i < |s| ==> s[i] == c)
  {
    if |s| == 0 then 0 else if s[0] == c then 0 else 1 + Find(s[1..], c)
  }

  /** Nothing before the index `Find` returns is `c`. */
  lemma {:induction false} FindFirst(s: string, c: char)
    ensures c !in s[..Find(s, c)]
  {
    if |s| > 0 && s[0] != c {
      FindFirst(s[1..], c);
      assert s[..Find(s, c)] == [s[0]] + s[1..][..Find(s[1..], c)];
    }
  }

  /** No part of a split contains the separator. */
  lemma {:induction false} SplitPartsFree(s: string, sep: char)
    ensures forall k :: 0 <= k < |Split(s, sep)| ==> sep !in Split(s, sep)[k]
    decreases |s|
  {
    var i := Find(s, sep);
    FindFirst(s, sep);
    if i == |s| {
      assert s[..i] == s;
      assert Split(s, sep) == [s];
    } else {
      SplitPartsFree(s[i + 1..], sep);
      var rest := Split(s[i + 1..], sep);
      var parts := [s[..i]] + rest;
      assert Split(s, sep) == parts;
      assert forall k :: 1 <= k < |parts| ==> parts[k] == rest[k - 1];
    }
  }

  /** What follows the last `sep` in `s`, or all of `s` when it has none. */
  function LastPart(s: string, sep: char): string
    decreases |s|
  {
    var i := Find(s, sep);
    if i == |s| then s else LastPart(s[i + 1..], sep)
  }

  /** `s.split(sep)[-1]` is `LastPart(s, sep)`. */
  lemma {:induction false} SplitLastPart(s: string, sep: char)
    ensures Split(s, sep)[|Split(s, sep)| - 1] == LastPart(s, sep)
    decreases |s|
  {
    var i := Find(s, sep);
    if i < |s| {
      var rest := Split(s[i + 1..], sep);
      SplitLastPart(s[i + 1..], sep);
      assert Split(s, sep) == [s[..i]] + rest;
      LastOfPrepend(s[..i], rest);
    }
  }

  lemma LastOfPrepend<T>(x: T, rest: seq<T>)
    requires |rest| > 0
    ensures ([x] + rest)[|rest|] == rest[|rest| - 1]
  {
  }

  /** The last part is a suffix of `s` that is either all of `s` or preceded by
    * the separator. */
  lemma {:induction false} LastPartSuffix(s: string, sep: char)
    ensures EndsWith(s, LastPart(s, sep))
    ensures |LastPart(s, sep)| == |s| || s[|s| - |LastPart(s, sep)| - 1] == sep
    decreases |s|
  {
    var i := Find(s, sep);
    if i < |s| {
      LastPartSuffix(s[i + 1..], sep);
      SuffixAfter(s, i, LastPart(s[i + 1..], sep));
    } else {
      assert s[|s| - |s|..] == s;
    }
  }

  /** A suffix of `s[i + 1..]` that is all of it or preceded by a copy of `s[i]` is a
    * suffix of `s` preceded by `s[i]`. */
  lemma SuffixAfter(s: string, i: nat, last: string)
    requires i < |s|
    requires EndsWith(s[i + 1..], last)
    requires |last| == |s| - i - 1 || s[i + 1..][|s| - i - 1 - |last| - 1] == s[i]
    ensures EndsWith(s, last)
    ensures s[|s| - |last| - 1] == s[i]
  {
    assert s[|s| - |last|..] == s[i + 1..][|s| - i - 1 - |last|..];
  }

  /** Splitting a join on a separator the parts do not contain gives the parts back. */
  lemma {:induction false} SplitJoin(parts: seq<string>, sep: char)
    requires parts != []
    requires forall k :: 0 <= k < |parts| ==> sep !in parts[k]
    ensures Split(Join(parts, [sep]), sep) == parts
  {
    if |parts| > 1 {
      var rest := Join(parts[1..], [sep]);
      var s := parts[0] + [sep] + rest;
      assert Join(parts, [sep]) == s;
      FindPrefix(parts[0], sep, rest);
      assert s[..|parts[0]|] == parts[0];
      assert s[|parts[0]| + 1..] == rest;
      SplitJoin(parts[1..], sep);
    }
  }

  lemma {:induction false} FindPrefix(a: string, c: char, b: string)
    requires c !in a
    ensures Find(a + [c] + b, c) == |a|
  {
    var s := a + [c] + b;
    if a != [] {
      assert s[0] == a[0];
      assert s[1..] == a[1..] + [c] + b;
      FindPrefix(a[1..], c, b);
    }
  }

  /** The characters of a join are those of the parts and of the separator. */
  lemma {:induction false} JoinChars(parts: seq<string>, sep: string, x: char)
    requires x in Join(parts, sep)
    ensures x in sep || exists k :: 0 <= k < |parts| && x in parts[k]
  {
    if |parts| > 1 {
      var rest := Join(parts[1..], sep);
      assert Join(parts, sep) == parts[0] + sep + rest;
      if x in rest {
        JoinChars(parts[1..], sep, x);
        if x !in sep {
          var k :| 0 <= k < |parts[1..]| && x in parts[1..][k];
          assert x in parts[k + 1];
        }
      }
    }
  }

  /** A part of a join, written out in the middle of it, is contained in it. */
  lemma {:induction false} JoinContainsPart(parts: seq<string>, sep: string, k: nat)
    requires k < |parts|
    ensures Contains(Join(parts, sep), parts[k])
  {
    if |parts| == 1 {
      assert OccursAt(parts[0], parts[0], 0);
    } else if k == 0 {
      assert Join(parts, sep) == parts[0] + (sep + Join(parts[1..], sep));
      assert OccursAt(Join(parts, sep), parts[0], 0);
    } else {
      JoinContainsPart(parts[1..], sep, k - 1);
      assert Join(parts, sep) == parts[0] + sep + Join(parts[1..], sep);
      ContainsInConcat(parts[0] + sep, Join(parts[1..], sep), [], parts[k]);
      assert parts[0] + sep + Join(parts[1..], sep) + [] == Join(parts, sep);
    }
  }
}
