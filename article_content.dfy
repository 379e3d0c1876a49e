/**
 * The article body: `extract_content` collects the text of the elements a
 * site's content selectors pick, once each, and `_clean_content` cuts the
 * result into paragraphs and keeps the ones that read as article text.
 *
 * The regular-expression substitutions `_clean_content` applies before the
 * paragraph filter (script blocks, tags, bylines, navigation and advertising
 * lines) are one text-to-text step, `prepass`, that the model does not
 * interpret.
 */
module ArticleContent {
  import opened Text
  import opened ArticleExtractor

  predicate Distinct(xs: seq<string>)
  {
    forall i, j :: 0 <= i < j < |xs| ==> xs[i] != xs[j]
  }

  // ----- collecting the parts -----

  /** The selectors `extract_content` uses: the `content_selectors` attribute, else
    * the `content` entry of a `selectors` table, else a dictionary's
    * `content_selectors` entry. */
  function ContentSelectors(config: Config): seq<string>
  {
    match config
    case Attrs(_, _, Some(selectors), _) => selectors
    case Attrs(Some(table), _, None, _) => if "content" in table then AsSelectors(table["content"]) else []
    case Attrs(None, _, None, _) => []
    case Entries(entries) => if "content_selectors" in entries then AsSelectors(entries["content_selectors"]) else []
  }

  /** What one element contributes: its stripped text, unless the element is
    * skipped or the text is empty. */
  function ElementText(e: Element): (ts: seq<string>)
    ensures |ts| <= 1 && (ts != [] ==> ts[0] != [] && ts[0] == Strip(e.text))
  {
    if !ShouldSkipElement(e) && Strip(e.text) != [] then [Strip(e.text)] else []
  }

  /** The texts of the elements, in order. */
  function ElementTexts(elems: seq<Element>): (ts: seq<string>)
    ensures forall k :: 0 <= k < |ts| ==> ts[k] != []
  {
    if |elems| == 0 then [] else ElementTexts(elems[..|elems| - 1]) + ElementText(elems[|elems| - 1])
  }

  /** The element texts of every selector, selector by selector. */
  function SelectorTexts(page: Page, selectors: seq<string>): (ts: seq<string>)
    ensures forall k :: 0 <= k < |ts| ==> ts[k] != []
  {
    if |selectors| == 0 then []
    else SelectorTexts(page, selectors[..|selectors| - 1]) + ElementTexts(Css(page, selectors[|selectors| - 1]))
  }

  /** The first occurrence of each text, in the order of first occurrence. */
  function Dedup(xs: seq<string>): seq<string>
  {
    if |xs| == 0 then []
    else
      var d := Dedup(xs[..|xs| - 1]);
      if xs[|xs| - 1] in d then d else d + [xs[|xs| - 1]]
  }

  /** `Dedup` keeps every text and adds none, and keeps each only once. */
  lemma {:induction false} DedupMembers(xs: seq<string>)
    ensures forall x :: x in Dedup(xs) <==> x in xs
    ensures Distinct(Dedup(xs))
  {
    if |xs| > 0 {
      var init := xs[..|xs| - 1];
      DedupMembers(init);
      assert xs == init + [xs[|xs| - 1]];
    }
  }

  lemma DedupSnoc(xs: seq<string>, t: string)
    ensures Dedup(xs + [t]) == if t in Dedup(xs) then Dedup(xs) else Dedup(xs) + [t]
  {
    assert (xs + [t])[..|xs|] == xs;
  }

  /** One more element adds its text, if it has one, to what came before. */
  lemma TextsStep(before: seq<string>, elems: seq<Element>, j: nat)
    requires j < |elems|
    ensures var done := before + ElementTexts(elems[..j]); var e := elems[j];
      before + ElementTexts(elems[..j + 1]) == if !ShouldSkipElement(e) && Strip(e.text) != [] then done + [Strip(e.text)] else done
  {
    ElementTextsStep(elems, j);
    var done := before + ElementTexts(elems[..j]);
    assert before + ElementTexts(elems[..j + 1]) == done + ElementText(elems[j]);
  }

  lemma ElementTextsStep(elems: seq<Element>, j: nat)
    requires j < |elems|
    ensures ElementTexts(elems[..j + 1]) == ElementTexts(elems[..j]) + ElementText(elems[j])
  {
    assert elems[..j + 1][..j] == elems[..j];
  }

  lemma SelectorTextsStep(page: Page, selectors: seq<string>, i: nat)
    requires i < |selectors|
    ensures SelectorTexts(page, selectors[..i + 1]) == SelectorTexts(page, selectors[..i]) + ElementTexts(Css(page, selectors[i]))
  {
    assert selectors[..i + 1][..i] == selectors[..i];
  }

  /** What `extract_content` returns: the collected parts, one per line, cleaned. */
  function Content(page: Page, config: Config, prepass: string -> string): string
  {
    Cleaned(Join(Dedup(SelectorTexts(page, ContentSelectors(config))), "\n"), prepass)
  }

  /** `extract_content`. */
  method ExtractContent(page: Page, config: Config, prepass: string -> string) returns (content: string)
    ensures content == Content(page, config, prepass)
  {
    var selectors := ContentSelectors(config);
    var parts: seq<string> := [];
    var seen: set<string> := {};
    var i := 0;
    while i < |selectors|
      invariant i <= |selectors|
      invariant parts == Dedup(SelectorTexts(page, selectors[..i]))
      invariant forall x :: x in seen <==> x in parts
    {
      parts, seen := AddElementTexts(Css(page, selectors[i]), SelectorTexts(page, selectors[..i]), parts, seen);
      SelectorTextsStep(page, selectors, i);
      i := i + 1;
    }
    assert selectors[..i] == selectors;
    content := CleanContent(Join(parts, "\n"), prepass);
  }

  /** The inner loop of `extract_content`: the texts of one selector's elements
    * are added to the parts, each unless it was seen before. */
  method AddElementTexts(elems: seq<Element>, ghost before: seq<string>, parts0: seq<string>, seen0: set<string>)
    returns (parts: seq<string>, seen: set<string>)
    requires parts0 == Dedup(before) && forall x :: x in seen0 <==> x in parts0
    ensures parts == Dedup(before + ElementTexts(elems))
    ensures forall x :: x in seen <==> x in parts
  {
    parts, seen := parts0, seen0;
    var j := 0;
    assert before + ElementTexts(elems[..0]) == before;
    while j < |elems|
      invariant j <= |elems|
      invariant parts == Dedup(before + ElementTexts(elems[..j]))
      invariant forall x :: x in seen <==> x in parts
    {
      var e := elems[j];
      ghost var done := before + ElementTexts(elems[..j]);
      TextsStep(before, elems, j);
      if !ShouldSkipElement(e) {
        var text := Strip(e.text);
        if text != [] {
          DedupSnoc(done, text);
          if text !in seen {
            seen := seen + {text};
            parts := parts + [text];
          }
        }
      }
      j := j + 1;
    }
    assert elems[..j] == elems;
  }

  /** `t` is the text of an element some selector picks, and not a skipped one. */
  predicate Selected(page: Page, selectors: seq<string>, t: string)
  {
    exists k :: 0 <= k < |selectors| && t in ElementTexts(Css(page, selectors[k]))
  }

  /** Every text of the selected, unskipped elements is in the collected parts,
    * once, and the parts hold nothing else. */
  lemma CollectedParts(page: Page, selectors: seq<string>, t: string)
    ensures t in Dedup(SelectorTexts(page, selectors)) <==> Selected(page, selectors, t)
    ensures Distinct(Dedup(SelectorTexts(page, selectors)))
  {
    SelectorTextsMembers(page, selectors, t);
    DedupMembers(SelectorTexts(page, selectors));
  }

  lemma SelectorTextsMembers(page: Page, selectors: seq<string>, t: string)
    ensures t in SelectorTexts(page, selectors) <==> Selected(page, selectors, t)
  {
    SelectorTextsFlat(page, selectors);
    FlatMapMembers(Texts(page), selectors, t);
    if Selected(page, selectors, t) {
      var k :| 0 <= k < |selectors| && t in ElementTexts(Css(page, selectors[k]));
      assert t in Texts(page)(selectors[k]);
    }
    if SomeHas(Texts(page), selectors, t) {
      var k :| 0 <= k < |selectors| && t in Texts(page)(selectors[k]);
      assert t in ElementTexts(Css(page, selectors[k]));
    }
  }

  /** The texts one selector picks, as a function of the selector. */
  function Texts(page: Page): string -> seq<string>
  {
    sel => ElementTexts(Css(page, sel))
  }

  lemma {:induction false} SelectorTextsFlat(page: Page, selectors: seq<string>)
    ensures SelectorTexts(page, selectors) == FlatMap(Texts(page), selectors)
  {
    if |selectors| > 0 {
      SelectorTextsFlat(page, selectors[..|selectors| - 1]);
    }
  }

  /** The concatenation of `f(x)` over the elements `x` of `xs`, in order. */
  function FlatMap<T, U>(f: T -> seq<U>, xs: seq<T>): seq<U>
  {
    if |xs| == 0 then [] else FlatMap(f, xs[..|xs| - 1]) + f(xs[|xs| - 1])
  }

  /** Some element `x` of `xs` has `t` in `f(x)`. */
  predicate SomeHas<T, U(==)>(f: T -> seq<U>, xs: seq<T>, t: U)
  {
    exists k :: 0 <= k < |xs| && t in f(xs[k])
  }

  lemma {:induction false} FlatMapMembers<T, U>(f: T -> seq<U>, xs: seq<T>, t: U)
    ensures t in FlatMap(f, xs) <==> SomeHas(f, xs, t)
  {
    if |xs| > 0 {
      var n := |xs| - 1;
      FlatMapMembers(f, xs[..n], t);
      assert FlatMap(f, xs) == FlatMap(f, xs[..n]) + f(xs[n]);
      if SomeHas(f, xs, t) {
        var k :| 0 <= k < |xs| && t in f(xs[k]);
        if k < n {
          assert xs[..n][k] == xs[k];
        }
      }
      if SomeHas(f, xs[..n], t) {
        var k :| 0 <= k < n && t in f(xs[..n][k]);
        assert xs[..n][k] == xs[k];
      }
    }
  }

  // ----- cleaning the text -----

  /** `MAX_LINES_DOWNLOADED`: only this many paragraphs are looked at. */
  const MaxLines: nat := 150

  /** Substrings of the lower-cased paragraph that mark it as code or style. */
  const CodeTokens: seq<string> :=
    ["function", "var ", "document.", "window.", "{", "}", ";", "javascript", ".css", "#", "@", "==", "++", "--"]

  predicate CodeLike(p: string)
  {
    exists k :: 0 <= k < |CodeTokens| && Contains(Lower(p), CodeTokens[k])
  }

  /** The punctuation of the "only digits or symbols" pattern, besides `\d` and `\s`. */
  const SymbolChars: set<char> :=
    {'!', '"', '#', '$', '%', '&', '\'', '(', ')', '*', '+', ',', '-', '.', '/', ':', ';', '<', '=', '>',
     '?', '@', '[', ']', '^', '_', '`', '{', '|', '}', '~',
     '\U{00A8}', '\U{00B7}', '\U{02C9}', '\U{2014}', '\U{2016}', '\U{2026}', '\U{2236}',
     '\U{3001}', '\U{3002}', '\U{3003}', '\U{3005}', '\U{3008}', '\U{3009}', '\U{300A}', '\U{300B}',
     '\U{300C}', '\U{300D}', '\U{300E}', '\U{300F}', '\U{3010}', '\U{3011}', '\U{3014}', '\U{3015}',
     '\U{3016}', '\U{3017}', '\U{FF01}', '\U{FF02}', '\U{FF07}', '\U{FF08}', '\U{FF09}', '\U{FF0C}',
     '\U{FF0E}', '\U{FF1A}', '\U{FF1B}', '\U{FF1F}', '\U{FF3B}', '\U{FF3D}', '\U{FF40}', '\U{FF5B}',
     '\U{FF5C}', '\U{FF5D}', '\U{FF5E}'}

  /** The paragraph is made of digits, whitespace and punctuation only. */
  predicate AllSymbols(p: string)
  {
    p != [] && forall k :: 0 <= k < |p| ==> IsDigit(p[k]) || IsSpace(p[k]) || p[k] in SymbolChars
  }

  /** The marks that end a sentence, and the newline, which a menu item lacks. */
  const SentenceMarks: set<char> := {'\U{FF0C}', '\U{3002}', '\U{FF01}', '\U{FF1F}', '\n'}

  /** A navigation item: one to ten characters, no sentence mark, and no two
    * Chinese characters in a row. */
  predicate NavItem(p: string)
  {
    1 <= |p| <= 10
    && (forall k :: 0 <= k < |p| ==> p[k] !in SentenceMarks)
    && !(exists k :: 0 <= k < |p| - 1 && IsCjk(p[k]) && IsCjk(p[k + 1]))
  }

  /** A non-empty paragraph the filter drops whatever came before it. */
  predicate Noise(p: string)
  {
    |p| < 2 || CodeLike(p) || (|p| < 10 && !HasCjk(p)) || AllSymbols(p) || NavItem(p)
  }

  /** A paragraph the filter can keep: collapsed, not empty, and not noise. */
  predicate GoodLine(p: string)
  {
    p != [] && Squeezed(p) && !Noise(p)
  }

  /** The paragraphs kept by the filter loop, continuing at paragraph `i` with
    * `kept` so far, `blanks` empty paragraphs just before `i`, and `cjk` telling
    * whether a kept paragraph had Chinese text. Three empty paragraphs in a row
    * end the loop once such a paragraph was kept. */
  function Scan(paras: seq<string>, i: nat, kept: seq<string>, blanks: nat, cjk: bool): (r: seq<string>)
    requires i <= |paras|
    requires (forall k :: 0 <= k < |kept| ==> GoodLine(kept[k])) && Distinct(kept)
    ensures |kept| <= |r| && r[..|kept|] == kept
    ensures (forall k :: 0 <= k < |r| ==> GoodLine(r[k])) && Distinct(r)
    ensures forall k :: |kept| <= k < |r| ==> exists j :: i <= j < |paras| && r[k] == Squeeze(paras[j])
    decreases |paras| - i
  {
    if i == |paras| then kept
    else
      var p := Squeeze(paras[i]);
      if p == [] then
        if cjk && blanks + 1 >= 3 then kept else Scan(paras, i + 1, kept, blanks + 1, cjk)
      else if p in kept || Noise(p) then Scan(paras, i + 1, kept, 0, cjk)
      else
        SqueezeShape(paras[i]);
        var r := Scan(paras, i + 1, kept + [p], 0, cjk || HasCjk(p));
        assert r[..|kept|] == (kept + [p])[..|kept|];
        assert r[|kept|] == p;
        r
  }

  /** The paragraphs `_clean_content` looks at: the text after `prepass`, cut at
    * newlines, at most `MaxLines` of them. */
  function Paragraphs(content: string, prepass: string -> string): (paras: seq<string>)
    ensures 1 <= |paras| <= MaxLines
  {
    var all := Split(prepass(content), '\n');
    if |all| > MaxLines then all[..MaxLines] else all
  }

  function CleanLines(paras: seq<string>): (r: seq<string>)
    ensures (forall k :: 0 <= k < |r| ==> GoodLine(r[k])) && Distinct(r)
    ensures forall k :: 0 <= k < |r| ==> exists j :: 0 <= j < |paras| && r[k] == Squeeze(paras[j])
  {
    Scan(paras, 0, [], 0, false)
  }

  /** `re.sub(r'\n{3,}', '\n\n', s)`. */
  function CollapseNewlines(s: string): (r: string)
    decreases |s|
  {
    if s == [] then []
    else if |s| >= 3 && s[0] == '\n' && s[1] == '\n' && s[2] == '\n' then
      "\n\n" + CollapseNewlines(s[NewlinesEnd(s, 0)..])
    else [s[0]] + CollapseNewlines(s[1..])
  }

  /** The end of the run of newlines that starts at `i`. */
  function NewlinesEnd(s: string, i: nat): (j: nat)
    requires i <= |s|
    ensures i <= j <= |s| && (j == |s| || s[j] != '\n')
    ensures i < |s| && s[i] == '\n' ==> j > i
    decreases |s| - i
  {
    if i < |s| && s[i] == '\n' then NewlinesEnd(s, i + 1) else i
  }

  /** `_clean_content`: the kept paragraphs joined by newlines, after the final
    * collapse of blank-line runs and the final strip. */
  function Cleaned(content: string, prepass: string -> string): string
  {
    if content == [] then [] else Strip(CollapseNewlines(Join(CleanLines(Paragraphs(content, prepass)), "\n")))
  }

  /** One step of the filter loop on an empty paragraph that does not end it. */
  lemma ScanBlank(paras: seq<string>, i: nat, kept: seq<string>, blanks: nat, cjk: bool)
    requires i < |paras| && Squeeze(paras[i]) == [] && !(cjk && blanks + 1 >= 3)
    requires (forall k :: 0 <= k < |kept| ==> GoodLine(kept[k])) && Distinct(kept)
    ensures Scan(paras, i, kept, blanks, cjk) == Scan(paras, i + 1, kept, blanks + 1, cjk)
  {
  }

  /** The third empty paragraph in a row after Chinese text ends the loop. */
  lemma ScanStop(paras: seq<string>, i: nat, kept: seq<string>, blanks: nat, cjk: bool)
    requires i < |paras| && Squeeze(paras[i]) == [] && cjk && blanks + 1 >= 3
    requires (forall k :: 0 <= k < |kept| ==> GoodLine(kept[k])) && Distinct(kept)
    ensures Scan(paras, i, kept, blanks, cjk) == kept
  {
  }

  /** One step of the filter loop on a repeated or noisy paragraph. */
  lemma ScanSkip(paras: seq<string>, i: nat, kept: seq<string>, blanks: nat, cjk: bool)
    requires i < |paras| && Squeeze(paras[i]) != []
    requires Squeeze(paras[i]) in kept || Noise(Squeeze(paras[i]))
    requires (forall k :: 0 <= k < |kept| ==> GoodLine(kept[k])) && Distinct(kept)
    ensures Scan(paras, i, kept, blanks, cjk) == Scan(paras, i + 1, kept, 0, cjk)
  {
  }

  /** One step of the filter loop on a paragraph it keeps. */
  lemma ScanKeep(paras: seq<string>, i: nat, kept: seq<string>, blanks: nat, cjk: bool)
    requires i < |paras| && Squeeze(paras[i]) != []
    requires Squeeze(paras[i]) !in kept && !Noise(Squeeze(paras[i]))
    requires (forall k :: 0 <= k < |kept| ==> GoodLine(kept[k])) && Distinct(kept)
    ensures GoodLine(Squeeze(paras[i])) && Distinct(kept + [Squeeze(paras[i])])
    ensures forall k :: 0 <= k < |kept| + 1 ==> GoodLine((kept + [Squeeze(paras[i])])[k])
    ensures Scan(paras, i, kept, blanks, cjk)
         == Scan(paras, i + 1, kept + [Squeeze(paras[i])], 0, cjk || HasCjk(Squeeze(paras[i])))
  {
    SqueezeShape(paras[i]);
  }

  /** `_clean_content`, paragraph loop included. */
  method CleanContent(content: string, prepass: string -> string) returns (cleaned: string)
    ensures cleaned == Cleaned(content, prepass)
  {
    if content == [] {
      return "";
    }
    var paras := Paragraphs(content, prepass);
    var kept: seq<string> := [];
    var seen: set<string> := {};
    var cjk := false;
    var blanks := 0;
    var i := 0;
    while i < |paras|
      invariant i <= |paras|
      invariant (forall k :: 0 <= k < |kept| ==> GoodLine(kept[k])) && Distinct(kept)
      invariant seen == set x | x in kept
      invariant Scan(paras, i, kept, blanks, cjk) == CleanLines(paras)
    {
      var p := Squeeze(paras[i]);
      if p == [] {
        if cjk && blanks + 1 >= 3 {
          ScanStop(paras, i, kept, blanks, cjk);
          break;
        }
        ScanBlank(paras, i, kept, blanks, cjk);
        blanks := blanks + 1;
      } else if p in seen || Noise(p) {
        ScanSkip(paras, i, kept, blanks, cjk);
        blanks := 0;
      } else {
        ScanKeep(paras, i, kept, blanks, cjk);
        blanks := 0;
        cjk := cjk || HasCjk(p);
        seen := seen + {p};
        kept := kept + [p];
      }
      i := i + 1;
    }
    cleaned := Strip(CollapseNewlines(Join(kept, "\n")));
  }

  // ----- what the cleaned text is -----

  /** The final substitutions change nothing: the cleaned text is the kept
    * paragraphs, one per line. */
  lemma CleanedIsKeptLines(content: string, prepass: string -> string)
    requires content != []
    ensures Cleaned(content, prepass) == Join(CleanLines(Paragraphs(content, prepass)), "\n")
  {
    var kept := CleanLines(Paragraphs(content, prepass));
    var s := Join(kept, "\n");
    JoinLines(kept);
    CollapseNoRun(s);
    StripOfStripped(s);
  }

  /** The lines of a good paragraph hold no newline: it is collapsed. */
  lemma GoodLineOneLine(p: string)
    requires GoodLine(p)
    ensures forall k :: 0 <= k < |p| ==> p[k] != '\n'
    ensures !IsSpace(p[0]) && !IsSpace(p[|p| - 1])
  {
    assert IsSpace('\n');
  }

  /** Good lines joined by newlines have no empty line and no surrounding whitespace. */
  lemma {:induction false} JoinLines(lines: seq<string>)
    requires forall k :: 0 <= k < |lines| ==> GoodLine(lines[k])
    ensures NoDoubleNewline(Join(lines, "\n"))
    ensures var s := Join(lines, "\n"); lines == [] || (s != [] && lines[0] != [] && s[0] == lines[0][0] && !IsSpace(s[0]) && !IsSpace(s[|s| - 1]))
  {
    if |lines| == 1 {
      GoodLineOneLine(lines[0]);
    } else if |lines| > 1 {
      var a, rest := lines[0], Join(lines[1..], "\n");
      JoinLines(lines[1..]);
      GoodLineOneLine(a);
      GoodLineOneLine(lines[1]);
      var s := a + "\n" + rest;
      assert Join(lines, "\n") == s;
      assert rest != [] && rest[0] == lines[1][0];
      forall k | 0 <= k < |s| - 1
        ensures !(s[k] == '\n' && s[k + 1] == '\n')
      {
        if k < |a| - 1 {
          assert s[k] == a[k];
        } else if k == |a| - 1 {
          assert s[k] == a[k];
        } else if k == |a| {
          assert s[k + 1] == rest[0];
        } else {
          assert s[k] == rest[k - |a| - 1] && s[k + 1] == rest[k - |a|];
        }
      }
      assert s[|s| - 1] == rest[|rest| - 1];
    }
  }

  predicate NoDoubleNewline(s: string)
  {
    forall k :: 0 <= k < |s| - 1 ==> !(s[k] == '\n' && s[k + 1] == '\n')
  }

  lemma {:induction false} CollapseNoRun(s: string)
    requires NoDoubleNewline(s)
    ensures CollapseNewlines(s) == s
    decreases |s|
  {
    if s != [] {
      assert !(|s| >= 3 && s[0] == '\n' && s[1] == '\n');
      assert NoDoubleNewline(s[1..]) by {
        forall k | 0 <= k < |s[1..]| - 1
          ensures !(s[1..][k] == '\n' && s[1..][k + 1] == '\n')
        {
          assert s[1..][k] == s[k + 1] && s[1..][k + 1] == s[k + 2];
        }
      }
      CollapseNoRun(s[1..]);
      assert [s[0]] + s[1..] == s;
    }
  }

  /** Without Chinese text the loop never stops early: every good paragraph is
    * kept, its first occurrence in place. */
  lemma {:induction false} NoChineseKeepsAll(paras: seq<string>, i: nat, kept: seq<string>, blanks: nat, j: nat)
    requires i <= j < |paras|
    requires (forall k :: 0 <= k < |kept| ==> GoodLine(kept[k])) && Distinct(kept)
    requires forall k :: i <= k < |paras| ==> !HasCjk(Squeeze(paras[k]))
    requires GoodLine(Squeeze(paras[j]))
    ensures Squeeze(paras[j]) in Scan(paras, i, kept, blanks, false)
    decreases j - i
  {
    var p := Squeeze(paras[i]);
    var r := Scan(paras, i, kept, blanks, false);
    if i == j {
      if p !in kept {
        SqueezeShape(paras[i]);
        var r' := Scan(paras, i + 1, kept + [p], 0, false);
        assert r == r';
        assert r'[|kept|] == (kept + [p])[|kept|];
      } else {
        assert r[..|kept|] == kept;
      }
    } else if p == [] {
      NoChineseKeepsAll(paras, i + 1, kept, blanks + 1, j);
    } else if p in kept || Noise(p) {
      NoChineseKeepsAll(paras, i + 1, kept, 0, j);
    } else {
      SqueezeShape(paras[i]);
      NoChineseKeepsAll(paras, i + 1, kept + [p], 0, j);
    }
  }

  /** Once a paragraph with Chinese text is kept, three empty paragraphs in a row
    * end the article: nothing after them is kept. */
  lemma ThreeBlanksEnd(paras: seq<string>, i: nat, kept: seq<string>, blanks: nat)
    requires i + 3 <= |paras|
    requires (forall k :: 0 <= k < |kept| ==> GoodLine(kept[k])) && Distinct(kept)
    requires Squeeze(paras[i]) == [] && Squeeze(paras[i + 1]) == [] && Squeeze(paras[i + 2]) == []
    ensures Scan(paras, i, kept, blanks, true) == kept
  {
    if blanks + 1 < 3 {
      if blanks + 2 < 3 {
        assert Scan(paras, i + 2, kept, blanks + 2, true) == kept;
      }
      assert Scan(paras, i + 1, kept, blanks + 1, true) == kept;
    }
  }

  /** Until a paragraph with Chinese text is kept, the count of empty paragraphs
    * has no effect: blank lines never end the article before that. */
  lemma {:induction false} BlanksIrrelevantBeforeChinese(paras: seq<string>, i: nat, kept: seq<string>, b1: nat, b2: nat)
    requires i <= |paras|
    requires (forall k :: 0 <= k < |kept| ==> GoodLine(kept[k])) && Distinct(kept)
    ensures Scan(paras, i, kept, b1, false) == Scan(paras, i, kept, b2, false)
    decreases |paras| - i
  {
    if i < |paras| && Squeeze(paras[i]) == [] {
      BlanksIrrelevantBeforeChinese(paras, i + 1, kept, b1 + 1, b2 + 1);
    }
  }
}
