/** The markdown-subset renderer of the document viewer
    (app/components/DocViewer.tsx): a fixed chain of ten global regular
    expression replacements, run in order over the document's content.
    Each rule is modelled by the scan the JavaScript regular expression
    engine performs for it under the flags `g`, `i` and `m`: the heading and
    paragraph rules work line by line, the bold, italic and code rules pair
    a delimiter with the nearest closing one on the same line, and the
    fenced-block rule may span lines. */
module DocViewer {
  import opened Nullable

  // ---------------------------------------------------------------------
  // Lines

  /** The characters `.` does not match and around which `^` and `$`
      anchor under the `m` flag. */
  predicate IsLineTerminator(c: char)
  {
    c == '\n' || c == '\r' || c == '\U{2028}' || c == '\U{2029}'
  }

  predicate LineFree(s: string)
  {
    forall i | 0 <= i < |s| :: !IsLineTerminator(s[i])
  }

  lemma LineFreeConcat(a: string, b: string)
    ensures LineFree(a + b) <==> LineFree(a) && LineFree(b)
  {
    if LineFree(a) && LineFree(b) {
      forall i | 0 <= i < |a + b| ensures !IsLineTerminator((a + b)[i]) {
        if i >= |a| {
          assert (a + b)[i] == b[i - |a|];
        }
      }
    }
    if LineFree(a + b) {
      forall i | 0 <= i < |a| ensures !IsLineTerminator(a[i]) {
        assert (a + b)[i] == a[i];
      }
      forall i | 0 <= i < |b| ensures !IsLineTerminator(b[i]) {
        assert (a + b)[|a| + i] == b[i];
      }
    }
  }

  /** Where the first line of `s` ends: the first line terminator, or the
      end of the text. */
  function LineEnd(s: string): (e: nat)
    ensures e <= |s| && LineFree(s[..e])
    ensures e < |s| ==> IsLineTerminator(s[e])
  {
    if s == [] || IsLineTerminator(s[0]) then 0
    else
      var e := 1 + LineEnd(s[1..]);
      assert s[..e] == [s[0]] + s[1..][..e - 1];
      LineFreeConcat([s[0]], s[1..][..e - 1]);
      e
  }

  /** The number of `\n` characters. */
  function NewlineCount(s: string): nat
  {
    if s == [] then 0 else (if s[0] == '\n' then 1 else 0) + NewlineCount(s[1..])
  }

  lemma {:induction false} NewlineCountAppend(a: string, b: string)
    ensures NewlineCount(a + b) == NewlineCount(a) + NewlineCount(b)
  {
    if a == [] {
      assert a + b == b;
    } else {
      assert (a + b)[0] == a[0];
      assert (a + b)[1..] == a[1..] + b;
      NewlineCountAppend(a[1..], b);
    }
  }

  lemma {:induction false} LineFreeHasNoNewline(s: string)
    requires LineFree(s)
    ensures NewlineCount(s) == 0
  {
    if s != [] {
      assert LineFree(s[1..]) by {
        forall i | 0 <= i < |s[1..]| ensures !IsLineTerminator(s[1..][i]) {
          assert s[1..][i] == s[i + 1];
        }
      }
      LineFreeHasNoNewline(s[1..]);
    }
  }

  // ---------------------------------------------------------------------
  // The markup the rules write

  type HeadingLevel = k: int | 1 <= k <= 4 witness 1

  /** `#` repeated `k` times and a space: what a level-`k` rule anchors on. */
  function Marker(k: HeadingLevel): string
  {
    seq(k, _ => '#') + " "
  }

  /** A class list as the `class` attribute writes it: space-separated. */
  function JoinClasses(classes: seq<string>): string
  {
    if classes == [] then "" else if |classes| == 1 then classes[0] else classes[0] + " " + JoinClasses(classes[1..])
  }

  /** `<name class="…">` */
  function OpenTag(name: string, classes: seq<string>): string
  {
    "<" + name + " class=\"" + JoinClasses(classes) + "\">"
  }

  /** `</name>` */
  function CloseTag(name: string): string
  {
    "</" + name + ">"
  }

  function HeadingName(k: HeadingLevel): string
  {
    if k == 1 then "h1" else if k == 2 then "h2" else if k == 3 then "h3" else "h4"
  }

  function HeadingClasses(k: HeadingLevel): seq<string>
  {
    if k == 1 then ["text-3xl", "font-bold", "mb-4"]
    else if k == 2 then ["text-2xl", "font-semibold", "mb-3"]
    else if k == 3 then ["text-xl", "font-semibold", "mb-2"]
    else ["text-lg", "font-semibold", "mb-2"]
  }

  function HeadingOpen(k: HeadingLevel): string
  {
    OpenTag(HeadingName(k), HeadingClasses(k))
  }

  function HeadingClose(k: HeadingLevel): string
  {
    CloseTag(HeadingName(k))
  }

  const StrongOpen := OpenTag("strong", ["font-semibold"])
  const StrongClose := CloseTag("strong")
  const EmOpen := OpenTag("em", ["italic"])
  const EmClose := CloseTag("em")
  const CodeClasses := ["bg-gray-100", "px-1", "py-0.5", "rounded", "text-sm", "font-mono"]
  const CodeOpen := OpenTag("code", CodeClasses)
  const CodeClose := CloseTag("code")
  const PreClasses := ["bg-gray-100", "p-4", "rounded-lg", "overflow-x-auto", "my-4"]
  const PreOpen := OpenTag("pre", PreClasses) + OpenTag("code", ["text-sm"])
  const PreClose := CloseTag("code") + CloseTag("pre")
  const ParagraphOpen := OpenTag("p", ["mb-4"])
  const ParagraphClose := CloseTag("p")
  const ParagraphBreak := ParagraphClose + ParagraphOpen

  /** A character no rule acts on: not a line terminator, an asterisk or a
      backtick. */
  predicate InertChar(c: char)
  {
    !IsLineTerminator(c) && c != '*' && c != '`'
  }

  /** Text no rule can act on again. */
  predicate Inert(s: string)
  {
    forall i | 0 <= i < |s| :: InertChar(s[i])
  }

  lemma InertFacts(s: string)
    requires Inert(s)
    ensures LineFree(s) && '*' !in s && '`' !in s
  {
  }

  lemma InertConcat(a: string, b: string)
    requires Inert(a) && Inert(b)
    ensures Inert(a + b)
  {
    forall i | 0 <= i < |a + b| ensures InertChar((a + b)[i]) {
      if i >= |a| {
        assert (a + b)[i] == b[i - |a|];
      }
    }
  }

  /** The fixed parts of a tag are inert. */
  lemma TagSyntaxInert()
    ensures Inert("<") && Inert(" class=\"") && Inert("\">") && Inert("</") && Inert(">") && Inert(" ")
  {
  }

  lemma {:induction false} JoinClassesInert(classes: seq<string>)
    requires forall i | 0 <= i < |classes| :: Inert(classes[i])
    ensures Inert(JoinClasses(classes))
  {
    if |classes| > 1 {
      JoinClassesInert(classes[1..]);
      TagSyntaxInert();
      InertConcat(classes[0], " ");
      InertConcat(classes[0] + " ", JoinClasses(classes[1..]));
    }
  }

  /** Tags built from inert names and classes are inert. */
  lemma TagsInert(name: string, classes: seq<string>)
    requires Inert(name) && forall i | 0 <= i < |classes| :: Inert(classes[i])
    ensures Inert(OpenTag(name, classes)) && Inert(CloseTag(name))
    ensures OpenTag(name, classes)[0] == '<'
    ensures |name| > 0 ==> OpenTag(name, classes)[1] == name[0]
  {
    JoinClassesInert(classes);
    TagSyntaxInert();
    InertConcat("<", name);
    InertConcat("<" + name, " class=\"");
    InertConcat("<" + name + " class=\"", JoinClasses(classes));
    InertConcat("<" + name + " class=\"" + JoinClasses(classes), "\">");
    InertConcat("</", name);
    InertConcat("</" + name, ">");
  }

  /** The words of one heading level's tag are inert. */
  predicate HeadingWordsAreInert(k: HeadingLevel)
  {
    && Inert(HeadingName(k)) && |HeadingName(k)| > 0 && HeadingName(k)[0] == 'h'
    && forall i | 0 <= i < |HeadingClasses(k)| :: Inert(HeadingClasses(k)[i])
  }

  lemma HeadingOneTwoWordsInert()
    ensures HeadingWordsAreInert(1) && HeadingWordsAreInert(2)
  {
    assert Inert("h1") && Inert("text-3xl") && Inert("font-bold") && Inert("mb-4");
    assert Inert("h2") && Inert("text-2xl") && Inert("font-semibold") && Inert("mb-3");
  }

  lemma HeadingThreeFourWordsInert()
    ensures HeadingWordsAreInert(3) && HeadingWordsAreInert(4)
  {
    assert Inert("h3") && Inert("text-xl") && Inert("font-semibold") && Inert("mb-2");
    assert Inert("h4") && Inert("text-lg");
  }

  lemma HeadingWordsInert(k: HeadingLevel)
    ensures Inert(HeadingName(k)) && |HeadingName(k)| > 0 && HeadingName(k)[0] == 'h'
    ensures forall i | 0 <= i < |HeadingClasses(k)| :: Inert(HeadingClasses(k)[i])
  {
    HeadingOneTwoWordsInert();
    HeadingThreeFourWordsInert();
    assert HeadingWordsAreInert(k);
  }

  /** The heading markup is inert and starts with `<h`. */
  lemma HeadingMarkupIsInert(k: HeadingLevel)
    ensures Inert(HeadingOpen(k)) && Inert(HeadingClose(k))
    ensures HeadingOpen(k)[0] == '<' && HeadingOpen(k)[1] == 'h'
  {
    var name, classes := HeadingName(k), HeadingClasses(k);
    HeadingWordsInert(k);
    TagsInert(name, classes);
  }

  lemma StrongAndEmInert()
    ensures Inert(StrongOpen) && Inert(StrongClose) && Inert(EmOpen) && Inert(EmClose)
  {
    assert Inert("strong") && Inert("font-semibold") && Inert("em") && Inert("italic");
    TagsInert("strong", ["font-semibold"]);
    TagsInert("em", ["italic"]);
  }

  lemma CodeInert()
    ensures Inert(CodeOpen) && Inert(CodeClose)
    ensures |CodeOpen| > 1 && CodeOpen[1] == 'c'
  {
    assert Inert("code") && Inert("bg-gray-100") && Inert("px-1") && Inert("py-0.5");
    assert Inert("rounded") && Inert("text-sm") && Inert("font-mono");
    TagsInert("code", CodeClasses);
  }

  /** The bold, italic and code markup is inert. */
  lemma InlineMarkupIsInert()
    ensures Inert(StrongOpen) && Inert(StrongClose) && Inert(EmOpen) && Inert(EmClose)
    ensures Inert(CodeOpen) && Inert(CodeClose)
  {
    StrongAndEmInert();
    CodeInert();
  }

  lemma PreInert()
    ensures Inert(PreOpen) && Inert(PreClose)
    ensures |PreOpen| > 1 && PreOpen[1] == 'p'
  {
    assert Inert("pre") && Inert("bg-gray-100") && Inert("p-4") && Inert("rounded-lg");
    assert Inert("overflow-x-auto") && Inert("my-4");
    TagsInert("pre", PreClasses);
    assert Inert("code") && Inert("text-sm");
    TagsInert("code", ["text-sm"]);
    InertConcat(OpenTag("pre", PreClasses), OpenTag("code", ["text-sm"]));
    InertConcat(CloseTag("code"), CloseTag("pre"));
  }

  /** The fence and paragraph markup is inert. */
  lemma BlockMarkupIsInert()
    ensures Inert(PreOpen) && Inert(PreClose)
    ensures Inert(ParagraphOpen) && Inert(ParagraphClose) && Inert(ParagraphBreak)
  {
    PreInert();
    assert Inert("p") && Inert("mb-4");
    TagsInert("p", ["mb-4"]);
    InertConcat(ParagraphClose, ParagraphOpen);
  }

  // ---------------------------------------------------------------------
  // Line rules: `^…(.*$)` under the `m` flag rewrites each line on its own

  datatype LineRule = Heading(level: HeadingLevel) | Paragraph

  function AsciiLower(c: char): char
  {
    if 'A' <= c <= 'Z' then (c as int + 32) as char else c
  }

  /** A prefix test under the `i` flag, which folds ASCII letters only. */
  predicate StartsWithIgnoringCase(s: string, p: string)
  {
    |s| >= |p| && forall i | 0 <= i < |p| :: AsciiLower(s[i]) == AsciiLower(p[i])
  }

  /** The negative lookahead `(?!<[h1-6]|<pre|<code)` with the `i` flag. */
  predicate Exempt(line: string)
  {
    || (|line| >= 2 && line[0] == '<' && line[1] in "hH123456")
    || StartsWithIgnoringCase(line, "<pre")
    || StartsWithIgnoringCase(line, "<code")
  }

  /** One line under one line rule. */
  function RewriteLine(line: string, rule: LineRule): string
  {
    match rule
    case Heading(k) =>
      var m := Marker(k);
      if |line| >= |m| && line[..|m|] == m then HeadingOpen(k) + line[|m|..] + HeadingClose(k) else line
    case Paragraph =>
      if Exempt(line) then line else ParagraphOpen + line + ParagraphClose
  }

  /** A line rule over the whole text: every line, the empty ones between
      adjacent terminators and the one after a final terminator included,
      is rewritten and the terminators are kept. */
  function MapLines(s: string, rule: LineRule): string
    decreases |s|
  {
    var e := LineEnd(s);
    if e == |s| then RewriteLine(s, rule)
    else RewriteLine(s[..e], rule) + [s[e]] + MapLines(s[e + 1..], rule)
  }

  lemma RewriteLineStaysLineFree(line: string, rule: LineRule)
    requires LineFree(line)
    ensures LineFree(RewriteLine(line, rule))
  {
    match rule
    case Heading(k) =>
      var m := Marker(k);
      if |line| >= |m| && line[..|m|] == m {
        HeadingMarkupIsInert(k);
        InertFacts(HeadingOpen(k));
        InertFacts(HeadingClose(k));
        assert LineFree(line[|m|..]);
        LineFreeConcat(HeadingOpen(k), line[|m|..]);
        LineFreeConcat(HeadingOpen(k) + line[|m|..], HeadingClose(k));
      }
    case Paragraph =>
      if !Exempt(line) {
        BlockMarkupIsInert();
        InertFacts(ParagraphOpen);
        InertFacts(ParagraphClose);
        LineFreeConcat(ParagraphOpen, line);
        LineFreeConcat(ParagraphOpen + line, ParagraphClose);
      }
  }

  /** On a single line a line rule is just that rule applied to the line. */
  lemma MapLinesOnLine(line: string, rule: LineRule)
    requires LineFree(line)
    ensures MapLines(line, rule) == RewriteLine(line, rule)
    ensures LineFree(MapLines(line, rule))
  {
    assert LineEnd(line) == |line|;
    RewriteLineStaysLineFree(line, rule);
  }

  // ---------------------------------------------------------------------
  // Delimiter rules: `d(.*?)d` pairs lazily within a line, `d([\s\S]*?)d`
  // also across lines

  /** `d` occurs in `s` at position `k`. */
  predicate OccursAt(s: string, d: string, k: int)
  {
    0 <= k && k + |d| <= |s| && s[k..k + |d|] == d
  }

  /** The lazy search for the closing delimiter: the first occurrence of
      `d` at or after `j`, stopping at a line terminator unless
      `crossLines`. */
  function FindClose(s: string, d: string, j: nat, crossLines: bool): (r: Option<nat>)
    requires 0 < |d| && j <= |s|
    decreases |s| - j
    ensures r.Some? ==> j <= r.value && r.value + |d| <= |s|
  {
    if j + |d| > |s| then None
    else if OccursAt(s, d, j) then Some(j)
    else if !crossLines && IsLineTerminator(s[j]) then None
    else FindClose(s, d, j + 1, crossLines)
  }

  /** What the lazy search finds: the first closing delimiter at or after
      `j`, with no line terminator before it unless the rule crosses
      lines; and when it finds none, every later occurrence lies past a
      line terminator on a rule that does not cross lines. */
  lemma {:induction false} FindCloseFinds(s: string, d: string, j: nat, crossLines: bool)
    requires 0 < |d| && j <= |s|
    decreases |s| - j
    ensures var r := FindClose(s, d, j, crossLines);
      && (r.Some? ==>
        && OccursAt(s, d, r.value)
        && (crossLines || LineFree(s[j..r.value]))
        && forall k | j <= k < r.value :: !OccursAt(s, d, k))
      && (r.None? ==>
        forall k | j <= k && OccursAt(s, d, k) :: !crossLines && !LineFree(s[j..k]))
  {
    if j + |d| > |s| || OccursAt(s, d, j) {
    } else if !crossLines && IsLineTerminator(s[j]) {
      forall k | j < k && OccursAt(s, d, k) ensures !LineFree(s[j..k]) {
        LineFreeStep(s, j, k);
      }
    } else {
      FindCloseFinds(s, d, j + 1, crossLines);
      var r := FindClose(s, d, j + 1, crossLines);
      if r.Some? {
        LineFreeStep(s, j, r.value);
      } else {
        forall k | j < k && OccursAt(s, d, k) ensures !crossLines && !LineFree(s[j..k]) {
          LineFreeStep(s, j, k);
        }
      }
    }
  }

  /** A slice is line-free when its first character is no line terminator
      and the rest is line-free. */
  lemma LineFreeStep(s: string, j: nat, k: nat)
    requires j < k <= |s|
    ensures LineFree(s[j..k]) <==> !IsLineTerminator(s[j]) && LineFree(s[j + 1..k])
  {
    assert s[j..k] == [s[j]] + s[j + 1..k];
    LineFreeConcat([s[j]], s[j + 1..k]);
  }

  /** A delimiter rule over the whole text: scanning left to right, an
      opening `d` with a closing one found is replaced with its content
      wrapped in `open` and `close`, and the scan resumes after the
      closing `d`; any other character is kept. */
  function ReplaceSpans(s: string, d: string, open: string, close: string, crossLines: bool): string
    requires 0 < |d|
    decreases |s|
  {
    if |s| < |d| then s
    else if OccursAt(s, d, 0) && FindClose(s, d, |d|, crossLines).Some? then
      var j := FindClose(s, d, |d|, crossLines).value;
      open + s[|d|..j] + close + ReplaceSpans(s[j + |d|..], d, open, close, crossLines)
    else [s[0]] + ReplaceSpans(s[1..], d, open, close, crossLines)
  }

  /** A rule whose delimiter does not occur changes nothing. */
  lemma {:induction false} ReplaceSpansAbsent(s: string, d: string, open: string, close: string, crossLines: bool)
    requires 0 < |d|
    requires forall k | 0 <= k :: !OccursAt(s, d, k)
    ensures ReplaceSpans(s, d, open, close, crossLines) == s
    decreases |s|
  {
    if |s| >= |d| {
      assert !OccursAt(s, d, 0);
      forall k | 0 <= k ensures !OccursAt(s[1..], d, k) {
        if k + |d| <= |s[1..]| {
          assert s[1..][k..k + |d|] == s[k + 1..k + 1 + |d|];
          assert !OccursAt(s, d, k + 1);
        }
      }
      ReplaceSpansAbsent(s[1..], d, open, close, crossLines);
    }
  }

  lemma CharAbsent(s: string, d: string)
    requires 0 < |d| && d[0] !in s
    ensures forall k | 0 <= k :: !OccursAt(s, d, k)
  {
    forall k | 0 <= k ensures !OccursAt(s, d, k) {
      if k + |d| <= |s| {
        assert s[k..k + |d|][0] == s[k];
        assert s[k] in s;
      }
    }
  }

  // ---------------------------------------------------------------------
  // The chain, in source order

  /** The four heading rules, `#` to `####`. */
  function Headings(s: string): string
  {
    MapLines(MapLines(MapLines(MapLines(s, Heading(1)), Heading(2)), Heading(3)), Heading(4))
  }

  function Bold(s: string): string
  {
    ReplaceSpans(s, "**", StrongOpen, StrongClose, false)
  }

  function Italic(s: string): string
  {
    ReplaceSpans(s, "*", EmOpen, EmClose, false)
  }

  function InlineCode(s: string): string
  {
    ReplaceSpans(s, "`", CodeOpen, CodeClose, false)
  }

  function Fence(s: string): string
  {
    ReplaceSpans(s, "```", PreOpen, PreClose, true)
  }

  /** `/\n\n/g`: each pair of newlines, taken left to right without
      overlap, becomes a paragraph break. */
  function BreakParagraphs(s: string): string
    decreases |s|
  {
    if |s| < 2 then s
    else if s[0] == '\n' && s[1] == '\n' then ParagraphBreak + BreakParagraphs(s[2..])
    else [s[0]] + BreakParagraphs(s[1..])
  }

  /** The final rule: every line not exempted by the lookahead is wrapped
      in a paragraph. */
  function WrapParagraphs(s: string): string
  {
    MapLines(s, Paragraph)
  }

  /** `htmlContent`. */
  function Render(content: string): string
  {
    WrapParagraphs(BreakParagraphs(Fence(InlineCode(Italic(Bold(Headings(content)))))))
  }

  // ---------------------------------------------------------------------
  // Headings

  /** The level-`k` rule fires on a line that starts with `k` hashes and a
      space and on no other level's rule; its output starts with `<h` and
      no heading rule fires on it again. */
  lemma HeadingRuleLevels(k: HeadingLevel, rest: string, j: HeadingLevel)
    ensures RewriteLine(Marker(k) + rest, Heading(j)) ==
      if j == k then HeadingOpen(k) + rest + HeadingClose(k) else Marker(k) + rest
    ensures RewriteLine(HeadingOpen(k) + rest + HeadingClose(k), Heading(j)) == HeadingOpen(k) + rest + HeadingClose(k)
  {
    var line := Marker(k) + rest;
    var mj := Marker(j);
    if j == k {
      assert line[..|mj|] == mj;
      assert line[|mj|..] == rest;
    } else if j < k {
      assert line[j] == '#' && mj[j] == ' ';
      assert |line| >= |mj| ==> line[..|mj|][j] != mj[j];
    } else {
      assert line[k] == ' ' && mj[k] == '#';
      assert |line| >= |mj| ==> line[..|mj|][k] != mj[k];
    }
    HeadingMarkupIsInert(k);
    var h := HeadingOpen(k) + rest + HeadingClose(k);
    assert h[0] == '<' && mj[0] == '#';
    assert |h| >= |mj| ==> h[..|mj|][0] != mj[0];
  }

  /** A line `#`×k, a space and text, for k from 1 to 4, leaves the heading
      rules as the level-k element wrapping the text. */
  lemma HeadingLine(k: HeadingLevel, rest: string)
    requires LineFree(rest)
    ensures Headings(Marker(k) + rest) == HeadingOpen(k) + rest + HeadingClose(k)
  {
    var m := Marker(k) + rest;
    var h := HeadingOpen(k) + rest + HeadingClose(k);
    assert LineFree(Marker(k));
    LineFreeConcat(Marker(k), rest);
    HeadingRuleLevels(k, rest, 1);
    HeadingRuleLevels(k, rest, 2);
    HeadingRuleLevels(k, rest, 3);
    HeadingRuleLevels(k, rest, 4);
    HeadingMarkupIsInert(k);
    InertFacts(HeadingOpen(k));
    InertFacts(HeadingClose(k));
    LineFreeConcat(HeadingOpen(k), rest);
    LineFreeConcat(HeadingOpen(k) + rest, HeadingClose(k));
    var t1 := MapLines(m, Heading(1));
    MapLinesOnLine(m, Heading(1));
    assert t1 == (if k == 1 then h else m);
    var t2 := MapLines(t1, Heading(2));
    MapLinesOnLine(t1, Heading(2));
    assert t2 == (if k <= 2 then h else m);
    var t3 := MapLines(t2, Heading(3));
    MapLinesOnLine(t2, Heading(3));
    assert t3 == (if k <= 3 then h else m);
    MapLinesOnLine(t3, Heading(4));
  }

  /** A line starting with five or more hashes gets no heading. */
  lemma FiveHashesNoHeading(line: string)
    requires LineFree(line) && |line| >= 5 && line[..5] == "#####"
    ensures Headings(line) == line
  {
    forall j: HeadingLevel ensures RewriteLine(line, Heading(j)) == line {
      var mj := Marker(j);
      assert line[j] == '#' && mj[j] == ' ';
      assert line[..|mj|][j] != mj[j];
    }
    MapLinesOnLine(line, Heading(1));
    MapLinesOnLine(line, Heading(2));
    MapLinesOnLine(line, Heading(3));
    MapLinesOnLine(line, Heading(4));
  }

  // ---------------------------------------------------------------------
  // Inline rules

  /** Bold runs first, so `**x**` becomes strong text, and the italic rule
      then finds no asterisk left. */
  lemma BoldBeforeItalic(x: string)
    requires LineFree(x) && '*' !in x
    ensures Italic(Bold("**" + x + "**")) == StrongOpen + x + StrongClose
  {
    var s := "**" + x + "**";
    var d := "**";
    assert OccursAt(s, d, 0) by {
      assert s[0..2] == d;
    }
    assert OccursAt(s, d, 2 + |x|) by {
      assert s[2 + |x|..2 + |x| + 2] == d;
    }
    assert s[2..2 + |x|] == x;
    var r := FindClose(s, d, 2, false);
    FindCloseFinds(s, d, 2, false);
    assert r.Some?;
    var j := r.value;
    forall k | 2 <= k < 2 + |x| ensures !OccursAt(s, d, k) {
      assert s[k] == x[k - 2];
      assert x[k - 2] in x;
      assert s[k..k + 2][0] == s[k];
    }
    assert j == 2 + |x|;
    assert s[j + 2..] == [];
    assert Bold(s) == StrongOpen + x + StrongClose + ReplaceSpans([], d, StrongOpen, StrongClose, false);
    var b := StrongOpen + x + StrongClose;
    assert ReplaceSpans([], d, StrongOpen, StrongClose, false) == [];
    assert Bold(s) == b;
    InlineMarkupIsInert();
    InertFacts(StrongOpen);
    InertFacts(StrongClose);
    assert '*' !in b;
    CharAbsent(b, "*");
    ReplaceSpansAbsent(b, "*", EmOpen, EmClose, false);
  }

  /** No backtick remains on the first line of `t`. */
  predicate NoTickBeforeLineEnd(t: string)
    decreases |t|
  {
    t == [] || IsLineTerminator(t[0]) || (t[0] != '`' && NoTickBeforeLineEnd(t[1..]))
  }

  /** Reading `t` line by line, no line holds two backticks; `seen` says a
      backtick was already read on the current line. */
  predicate OneTickPerLine(t: string, seen: bool)
    decreases |t|
  {
    if t == [] then true
    else if IsLineTerminator(t[0]) then OneTickPerLine(t[1..], false)
    else if t[0] == '`' then !seen && OneTickPerLine(t[1..], true)
    else OneTickPerLine(t[1..], seen)
  }

  lemma {:induction false} TickFreePrefix(x: string, y: string, seen: bool)
    requires LineFree(x) && '`' !in x
    ensures OneTickPerLine(x + y, seen) == OneTickPerLine(y, seen)
    decreases |x|
  {
    if x == [] {
      assert x + y == y;
    } else {
      assert x[0] in x;
      assert (x + y)[0] == x[0];
      assert (x + y)[1..] == x[1..] + y;
      assert '`' !in x[1..] by {
        assert x == [x[0]] + x[1..];
      }
      assert LineFree(x[1..]) by {
        forall i | 0 <= i < |x[1..]| ensures !IsLineTerminator(x[1..][i]) {
          assert x[1..][i] == x[i + 1];
        }
      }
      TickFreePrefix(x[1..], y, seen);
    }
  }

  lemma {:induction false} NoTickFromFindClose(t: string)
    requires forall k | 0 <= k < |t| :: LineFree(t[..k]) ==> t[k] != '`'
    ensures NoTickBeforeLineEnd(t)
    decreases |t|
  {
    if t != [] && !IsLineTerminator(t[0]) {
      assert t[..0] == [];
      var u := t[1..];
      forall k | 0 <= k < |u| && LineFree(u[..k]) ensures u[k] != '`' {
        assert t[..k + 1] == [t[0]] + u[..k];
        LineFreeConcat([t[0]], u[..k]);
      }
      NoTickFromFindClose(u);
    }
  }

  /** Between a backtick and its closing one there is no backtick and no
      line terminator. */
  lemma CodeSpanInterior(s: string, j: nat)
    requires 1 <= |s| && FindClose(s, "`", 1, false) == Some(j)
    ensures 1 <= j < |s| && LineFree(s[1..j]) && '`' !in s[1..j]
  {
    FindCloseFinds(s, "`", 1, false);
    var mid := s[1..j];
    forall i | 0 <= i < |mid| ensures mid[i] != '`' {
      assert !OccursAt(s, "`", 1 + i);
      OccursAtOne(s, '`', 1 + i);
    }
  }

  /** A one-character delimiter occurs exactly where that character is. */
  lemma OccursAtOne(s: string, c: char, k: nat)
    requires k < |s|
    ensures OccursAt(s, [c], k) <==> s[k] == c
  {
    assert s[k..k + 1] == [s[k]];
  }

  /** The code element built around such an interior holds neither. */
  lemma CodeElementClean(mid: string)
    requires LineFree(mid) && '`' !in mid
    ensures LineFree(CodeOpen + mid + CodeClose) && '`' !in CodeOpen + mid + CodeClose
  {
    CodeInert();
    InertFacts(CodeOpen);
    InertFacts(CodeClose);
    LineFreeConcat(CodeOpen, mid);
    LineFreeConcat(CodeOpen + mid, CodeClose);
  }

  /** A backtick with a closing one on its line: the code element holds
      no backtick and no line terminator. */
  lemma CodeSpanStep(s: string, j: nat)
    requires 1 <= |s| && s[0] == '`' && FindClose(s, "`", 1, false) == Some(j)
    requires OneTickPerLine(InlineCode(s[j + 1..]), false)
    ensures OneTickPerLine(InlineCode(s), false)
  {
    CodeSpanInterior(s, j);
    var x := CodeOpen + s[1..j] + CodeClose;
    var tail := InlineCode(s[j + 1..]);
    assert OneTickPerLine(x + tail, false) by {
      CodeElementClean(s[1..j]);
      TickFreePrefix(x, tail, false);
    }
    InlineCodeUnfold(s, j);
  }

  /** The inline-code rule on a text opening with a paired backtick. */
  lemma InlineCodeUnfold(s: string, j: nat)
    requires 1 <= |s| && s[0] == '`' && FindClose(s, "`", 1, false) == Some(j)
    ensures j + 1 <= |s|
    ensures InlineCode(s) == CodeOpen + s[1..j] + CodeClose + InlineCode(s[j + 1..])
  {
    var d := "`";
    assert |d| == 1;
    OccursAtOne(s, '`', 0);
    SpanUnfold(s, d, CodeOpen, CodeClose, false, j);
  }

  /** A backtick with no closing one on its line has no backtick after it
      on that line. */
  lemma UnpairedTickAlone(s: string)
    requires 1 <= |s| && s[0] == '`' && FindClose(s, "`", 1, false).None?
    ensures NoTickBeforeLineEnd(s[1..])
  {
    var d := "`";
    var u := s[1..];
    FindCloseFinds(s, d, 1, false);
    forall k | 0 <= k < |u| && LineFree(u[..k]) ensures u[k] != '`' {
      assert u[..k] == s[1..k + 1];
      assert LineFree(s[1..k + 1]);
      assert !OccursAt(s, d, k + 1);
      OccursAtOne(s, '`', k + 1);
    }
    NoTickFromFindClose(u);
  }

  /** An unpaired backtick is kept, and nothing after it on its line is a
      backtick. */
  lemma UnpairedTickStep(s: string)
    requires 1 <= |s| && s[0] == '`' && FindClose(s, "`", 1, false).None?
    requires OneTickPerLine(InlineCode(s[1..]), true)
    ensures OneTickPerLine(InlineCode(s), false)
  {
    assert InlineCode(s) == [s[0]] + InlineCode(s[1..]);
    assert (InlineCode(s))[1..] == InlineCode(s[1..]);
  }

  /** Any other character is kept; a line terminator starts a new line. */
  lemma OtherCharStep(s: string, seen: bool)
    requires 1 <= |s| && s[0] != '`'
    requires OneTickPerLine(InlineCode(s[1..]), if IsLineTerminator(s[0]) then false else seen)
    ensures OneTickPerLine(InlineCode(s), seen)
  {
    assert !OccursAt(s, "`", 0) by {
      assert s[0..1] == [s[0]];
    }
    assert InlineCode(s) == [s[0]] + InlineCode(s[1..]);
    assert (InlineCode(s))[1..] == InlineCode(s[1..]);
  }

  /** After the inline-code rule every line holds at most one backtick:
      pairs on a line are consumed, and an unpaired backtick has none after
      it on its line. */
  lemma {:induction false} InlineCodeLeavesOneTickPerLine(s: string, seen: bool)
    requires seen ==> NoTickBeforeLineEnd(s)
    ensures OneTickPerLine(InlineCode(s), seen)
    decreases |s|
  {
    if |s| >= 1 {
      if s[0] == '`' {
        assert !seen;
        var r := FindClose(s, "`", 1, false);
        if r.Some? {
          InlineCodeLeavesOneTickPerLine(s[r.value + 1..], false);
          CodeSpanStep(s, r.value);
        } else {
          UnpairedTickAlone(s);
          InlineCodeLeavesOneTickPerLine(s[1..], true);
          UnpairedTickStep(s);
        }
      } else {
        var next := if IsLineTerminator(s[0]) then false else seen;
        InlineCodeLeavesOneTickPerLine(s[1..], next);
        OtherCharStep(s, seen);
      }
    }
  }

  lemma {:induction false} OneTickPerLineNoPair(t: string, seen: bool)
    requires OneTickPerLine(t, seen)
    ensures forall k | 0 <= k < |t| - 1 :: !(t[k] == '`' && t[k + 1] == '`')
    decreases |t|
  {
    if t != [] {
      var u := t[1..];
      if IsLineTerminator(t[0]) {
        OneTickPerLineNoPair(u, false);
      } else if t[0] == '`' {
        OneTickPerLineNoPair(u, true);
        assert u != [] ==> u[0] != '`';
      } else {
        OneTickPerLineNoPair(u, seen);
      }
      forall k | 1 <= k < |t| - 1 ensures !(t[k] == '`' && t[k + 1] == '`') {
        assert t[k] == u[k - 1] && t[k + 1] == u[k];
      }
    }
  }

  /** The fenced-block rule never fires: it needs three backticks on one
      line, and the inline-code rule has left at most one per line. */
  lemma FenceNeverFires(s: string)
    ensures Fence(InlineCode(s)) == InlineCode(s)
  {
    var c := InlineCode(s);
    InlineCodeLeavesOneTickPerLine(s, false);
    OneTickPerLineNoPair(c, false);
    forall k | 0 <= k ensures !OccursAt(c, "```", k) {
      if k + 3 <= |c| {
        assert c[k..k + 3][0] == c[k] && c[k..k + 3][1] == c[k + 1];
      }
    }
    ReplaceSpansAbsent(c, "```", PreOpen, PreClose, true);
  }

  // ---------------------------------------------------------------------
  // Newlines

  /** A rewritten line stays free of newlines. */
  lemma RewriteLineNoNewline(line: string, rule: LineRule)
    requires LineFree(line)
    ensures NewlineCount(line) == 0 && NewlineCount(RewriteLine(line, rule)) == 0
  {
    RewriteLineStaysLineFree(line, rule);
    LineFreeHasNoNewline(line);
    LineFreeHasNoNewline(RewriteLine(line, rule));
  }

  /** Counting for one line, its terminator and the rest of the text. */
  lemma LineThenRestNewlines(line: string, a: string, c: char, rest: string, u: string)
    requires NewlineCount(line) == 0 && NewlineCount(a) == 0 && NewlineCount(u) == NewlineCount(rest)
    ensures NewlineCount(a + [c] + u) == NewlineCount(line + [c] + rest)
  {
    NewlineCountAppend(a, [c]);
    NewlineCountAppend(a + [c], u);
    NewlineCountAppend(line, [c]);
    NewlineCountAppend(line + [c], rest);
  }

  /** A line rule on a text with a line terminator: the first line, the
      terminator, and the rule on the rest. */
  lemma MapLinesUnfold(s: string, rule: LineRule)
    requires LineEnd(s) < |s|
    ensures MapLines(s, rule) == RewriteLine(s[..LineEnd(s)], rule) + [s[LineEnd(s)]] + MapLines(s[LineEnd(s) + 1..], rule)
  {
  }

  lemma SplitAround(s: string, e: nat)
    requires e < |s|
    ensures s == s[..e] + [s[e]] + s[e + 1..]
  {
  }

  /** The last line under a line rule keeps its (zero) newlines. */
  lemma LastLineNewlines(s: string, rule: LineRule)
    requires LineEnd(s) == |s|
    ensures NewlineCount(MapLines(s, rule)) == NewlineCount(s)
  {
    assert s[..|s|] == s;
    RewriteLineNoNewline(s, rule);
  }

  /** One line and its terminator, given that the rest of the text keeps
      its newlines. */
  lemma LineStepNewlines(s: string, rule: LineRule)
    requires LineEnd(s) < |s|
    requires NewlineCount(MapLines(s[LineEnd(s) + 1..], rule)) == NewlineCount(s[LineEnd(s) + 1..])
    ensures NewlineCount(MapLines(s, rule)) == NewlineCount(s)
  {
    var e := LineEnd(s);
    var line, rest := s[..e], s[e + 1..];
    var a, u := RewriteLine(line, rule), MapLines(rest, rule);
    assert NewlineCount(MapLines(s, rule)) == NewlineCount(a + [s[e]] + u) by {
      MapLinesUnfold(s, rule);
    }
    assert NewlineCount(s) == NewlineCount(line + [s[e]] + rest) by {
      SplitAround(s, e);
    }
    assert NewlineCount(a + [s[e]] + u) == NewlineCount(line + [s[e]] + rest) by {
      RewriteLineNoNewline(line, rule);
      LineThenRestNewlines(line, a, s[e], rest, u);
    }
  }

  lemma {:induction false} MapLinesKeepsNewlines(s: string, rule: LineRule)
    ensures NewlineCount(MapLines(s, rule)) == NewlineCount(s)
    decreases |s|
  {
    if LineEnd(s) == |s| {
      LastLineNewlines(s, rule);
    } else {
      var rest := s[LineEnd(s) + 1..];
      assert NewlineCount(MapLines(rest, rule)) == NewlineCount(rest) by {
        MapLinesKeepsNewlines(rest, rule);
      }
      LineStepNewlines(s, rule);
    }
  }

  /** A replaced span keeps the newlines of its content. */
  lemma SpanKeepsNewlines(d: string, mid: string, open: string, close: string)
    requires NewlineCount(d) == 0 && NewlineCount(open) == 0 && NewlineCount(close) == 0
    ensures NewlineCount(open + mid + close) == NewlineCount(d + mid + d)
  {
    NewlineCountAppend(open, mid);
    NewlineCountAppend(open + mid, close);
    NewlineCountAppend(d, mid);
    NewlineCountAppend(d + mid, d);
  }

  /** A text that opens with `d` and holds another `d` at `j` splits
      around the two. */
  lemma SplitAtDelimiters(s: string, d: string, j: nat)
    requires OccursAt(s, d, 0) && OccursAt(s, d, j) && |d| <= j
    ensures s == d + s[|d|..j] + d + s[j + |d|..]
  {
    assert s[0..|d|] == d && s[j..j + |d|] == d;
    assert s == s[0..|d|] + s[|d|..j] + s[j..j + |d|] + s[j + |d|..];
  }

  /** Counting for one replaced span followed by the rest of the text. */
  lemma SpanThenRestNewlines(d: string, mid: string, rest: string, open: string, close: string, tail: string)
    requires NewlineCount(d) == 0 && NewlineCount(open) == 0 && NewlineCount(close) == 0
    requires NewlineCount(tail) == NewlineCount(rest)
    ensures NewlineCount(open + mid + close + tail) == NewlineCount(d + mid + d + rest)
  {
    SpanKeepsNewlines(d, mid, open, close);
    NewlineCountAppend(open + mid + close, tail);
    NewlineCountAppend(d + mid + d, rest);
  }

  /** The delimiter rule at a matched opening delimiter. */
  lemma SpanUnfold(s: string, d: string, open: string, close: string, crossLines: bool, j: nat)
    requires 0 < |d| <= |s| && OccursAt(s, d, 0) && FindClose(s, d, |d|, crossLines) == Some(j)
    ensures |d| <= j && j + |d| <= |s|
    ensures ReplaceSpans(s, d, open, close, crossLines) ==
      open + s[|d|..j] + close + ReplaceSpans(s[j + |d|..], d, open, close, crossLines)
  {
  }

  /** One replaced span, given that the rest of the text keeps its
      newlines. */
  lemma SpanStepNewlines(s: string, d: string, open: string, close: string, crossLines: bool, j: nat)
    requires 0 < |d| <= |s| && NewlineCount(d) == 0 && NewlineCount(open) == 0 && NewlineCount(close) == 0
    requires OccursAt(s, d, 0) && FindClose(s, d, |d|, crossLines) == Some(j)
    requires NewlineCount(ReplaceSpans(s[j + |d|..], d, open, close, crossLines)) == NewlineCount(s[j + |d|..])
    ensures NewlineCount(ReplaceSpans(s, d, open, close, crossLines)) == NewlineCount(s)
  {
    var mid, rest := s[|d|..j], s[j + |d|..];
    var tail := ReplaceSpans(rest, d, open, close, crossLines);
    assert NewlineCount(ReplaceSpans(s, d, open, close, crossLines)) == NewlineCount(open + mid + close + tail) by {
      SpanUnfold(s, d, open, close, crossLines, j);
    }
    assert NewlineCount(s) == NewlineCount(d + mid + d + rest) by {
      FindCloseFinds(s, d, |d|, crossLines);
      SplitAtDelimiters(s, d, j);
    }
    assert NewlineCount(open + mid + close + tail) == NewlineCount(d + mid + d + rest) by {
      SpanThenRestNewlines(d, mid, rest, open, close, tail);
    }
  }

  /** One kept character, given that the rest of the text keeps its
      newlines. */
  lemma CharStepNewlines(s: string, d: string, open: string, close: string, crossLines: bool)
    requires 0 < |d| <= |s|
    requires !(OccursAt(s, d, 0) && FindClose(s, d, |d|, crossLines).Some?)
    requires NewlineCount(ReplaceSpans(s[1..], d, open, close, crossLines)) == NewlineCount(s[1..])
    ensures NewlineCount(ReplaceSpans(s, d, open, close, crossLines)) == NewlineCount(s)
  {
    var tail := ReplaceSpans(s[1..], d, open, close, crossLines);
    assert NewlineCount(ReplaceSpans(s, d, open, close, crossLines)) == NewlineCount([s[0]] + tail) by {
      assert ReplaceSpans(s, d, open, close, crossLines) == [s[0]] + tail;
    }
    assert NewlineCount(s) == NewlineCount([s[0]] + s[1..]) by {
      assert s == [s[0]] + s[1..];
    }
    NewlineCountAppend([s[0]], tail);
    NewlineCountAppend([s[0]], s[1..]);
  }

  lemma {:induction false} ReplaceSpansKeepsNewlines(s: string, d: string, open: string, close: string, crossLines: bool)
    requires 0 < |d| && NewlineCount(d) == 0 && NewlineCount(open) == 0 && NewlineCount(close) == 0
    ensures NewlineCount(ReplaceSpans(s, d, open, close, crossLines)) == NewlineCount(s)
    decreases |s|
  {
    if |s| >= |d| {
      var r := FindClose(s, d, |d|, crossLines);
      if OccursAt(s, d, 0) && r.Some? {
        var rest := s[r.value + |d|..];
        assert NewlineCount(ReplaceSpans(rest, d, open, close, crossLines)) == NewlineCount(rest) by {
          ReplaceSpansKeepsNewlines(rest, d, open, close, crossLines);
        }
        SpanStepNewlines(s, d, open, close, crossLines, r.value);
      } else {
        var rest := s[1..];
        assert NewlineCount(ReplaceSpans(rest, d, open, close, crossLines)) == NewlineCount(rest) by {
          ReplaceSpansKeepsNewlines(rest, d, open, close, crossLines);
        }
        CharStepNewlines(s, d, open, close, crossLines);
      }
    } else {
      assert ReplaceSpans(s, d, open, close, crossLines) == s;
    }
  }

  lemma HeadingsKeepNewlines(s: string)
    ensures NewlineCount(Headings(s)) == NewlineCount(s)
  {
    var h1 := MapLines(s, Heading(1));
    var h2 := MapLines(h1, Heading(2));
    var h3 := MapLines(h2, Heading(3));
    MapLinesKeepsNewlines(s, Heading(1));
    MapLinesKeepsNewlines(h1, Heading(2));
    MapLinesKeepsNewlines(h2, Heading(3));
    MapLinesKeepsNewlines(h3, Heading(4));
  }

  lemma InlineRulesKeepNewlines(h: string)
    ensures NewlineCount(InlineCode(Italic(Bold(h)))) == NewlineCount(h)
  {
    InlineMarkupIsInert();
    InertFacts(StrongOpen);
    InertFacts(StrongClose);
    InertFacts(EmOpen);
    InertFacts(EmClose);
    InertFacts(CodeOpen);
    InertFacts(CodeClose);
    assert LineFree("**") && LineFree("*") && LineFree("`");
    LineFreeHasNoNewline("**");
    LineFreeHasNoNewline("*");
    LineFreeHasNoNewline("`");
    LineFreeHasNoNewline(StrongOpen);
    LineFreeHasNoNewline(StrongClose);
    LineFreeHasNoNewline(EmOpen);
    LineFreeHasNoNewline(EmClose);
    LineFreeHasNoNewline(CodeOpen);
    LineFreeHasNoNewline(CodeClose);
    ReplaceSpansKeepsNewlines(h, "**", StrongOpen, StrongClose, false);
    ReplaceSpansKeepsNewlines(Bold(h), "*", EmOpen, EmClose, false);
    ReplaceSpansKeepsNewlines(Italic(Bold(h)), "`", CodeOpen, CodeClose, false);
  }

  lemma FenceKeepsNewlines(c: string)
    ensures NewlineCount(Fence(c)) == NewlineCount(c)
  {
    BlockMarkupIsInert();
    InertFacts(PreOpen);
    InertFacts(PreClose);
    assert LineFree("```");
    LineFreeHasNoNewline("```");
    LineFreeHasNoNewline(PreOpen);
    LineFreeHasNoNewline(PreClose);
    ReplaceSpansKeepsNewlines(c, "```", PreOpen, PreClose, true);
  }

  /** Every rule before the `\n\n` rewrite, and the paragraph rule after
      it, keeps the number of newlines. */
  lemma RulesKeepNewlines(s: string, t: string)
    ensures NewlineCount(Fence(InlineCode(Italic(Bold(Headings(s)))))) == NewlineCount(s)
    ensures NewlineCount(WrapParagraphs(t)) == NewlineCount(t)
  {
    HeadingsKeepNewlines(s);
    InlineRulesKeepNewlines(Headings(s));
    FenceKeepsNewlines(InlineCode(Italic(Bold(Headings(s)))));
    MapLinesKeepsNewlines(t, Paragraph);
  }

  // ---------------------------------------------------------------------
  // Blank lines

  /** No `\n\n` in `t`. */
  predicate NoDoubleNewline(t: string)
  {
    forall k | 0 <= k < |t| - 1 :: t[k] != '\n' || t[k + 1] != '\n'
  }

  /** No two adjacent line terminators of any kind: no empty line between
      two terminators. */
  predicate NoBlankLine(t: string)
  {
    forall k | 0 <= k < |t| - 1 :: !IsLineTerminator(t[k]) || !IsLineTerminator(t[k + 1])
  }

  /** The `\n\n` rewrite leaves no two consecutive newlines. */
  lemma {:induction false} BreakParagraphsRemovesPairs(s: string)
    ensures NoDoubleNewline(BreakParagraphs(s))
    ensures |BreakParagraphs(s)| > 0 && BreakParagraphs(s)[0] == '\n' ==> |s| > 0 && s[0] == '\n'
    decreases |s|
  {
    var b := BreakParagraphs(s);
    if |s| >= 2 {
      BlockMarkupIsInert();
      InertFacts(ParagraphBreak);
      if s[0] == '\n' && s[1] == '\n' {
        var u := BreakParagraphs(s[2..]);
        BreakParagraphsRemovesPairs(s[2..]);
        assert b == ParagraphBreak + u;
        forall k | 0 <= k < |b| - 1 ensures b[k] != '\n' || b[k + 1] != '\n' {
          if k >= |ParagraphBreak| {
            assert b[k] == u[k - |ParagraphBreak|] && b[k + 1] == u[k + 1 - |ParagraphBreak|];
          } else {
            assert b[k] == ParagraphBreak[k];
          }
        }
      } else {
        var u := BreakParagraphs(s[1..]);
        BreakParagraphsRemovesPairs(s[1..]);
        assert b == [s[0]] + u;
        forall k | 0 <= k < |b| - 1 ensures b[k] != '\n' || b[k + 1] != '\n' {
          if k >= 1 {
            assert b[k] == u[k - 1] && b[k + 1] == u[k];
          }
        }
      }
    }
  }

  lemma RewriteLineNonEmpty(line: string)
    requires LineFree(line)
    ensures |RewriteLine(line, Paragraph)| > 0 && LineFree(RewriteLine(line, Paragraph))
  {
    RewriteLineStaysLineFree(line, Paragraph);
  }

  /** The paragraph rule turns every line, the empty ones included, into a
      non-empty one, so its output has no blank line. */
  lemma {:induction false} WrapParagraphsNoBlankLine(s: string)
    ensures var w := WrapParagraphs(s);
      |w| > 0 && !IsLineTerminator(w[0]) && NoBlankLine(w)
    decreases |s|
  {
    var e := LineEnd(s);
    var w := WrapParagraphs(s);
    if e == |s| {
      assert s[..e] == s;
      RewriteLineNonEmpty(s);
    } else {
      var a := RewriteLine(s[..e], Paragraph);
      var u := WrapParagraphs(s[e + 1..]);
      RewriteLineNonEmpty(s[..e]);
      WrapParagraphsNoBlankLine(s[e + 1..]);
      assert w == a + [s[e]] + u;
      forall k | 0 <= k < |w| - 1 ensures !IsLineTerminator(w[k]) || !IsLineTerminator(w[k + 1]) {
        if k < |a| {
          assert w[k] == a[k];
        } else if k == |a| {
          assert w[k + 1] == u[0];
        } else {
          assert w[k] == u[k - |a| - 1] && w[k + 1] == u[k - |a|];
        }
      }
    }
  }

  /** The rendered HTML never holds `\n\n`, nor any other empty line. */
  lemma RenderHasNoBlankLine(content: string)
    ensures NoBlankLine(Render(content))
    ensures NoDoubleNewline(Render(content))
  {
    WrapParagraphsNoBlankLine(BreakParagraphs(Fence(InlineCode(Italic(Bold(Headings(content)))))));
  }

  // ---------------------------------------------------------------------
  // Paragraphs and whole documents

  /** The paragraph rule leaves a line alone exactly when it starts with
      `<h`, `<H`, `<1` to `<6`, `<pre` or `<code` (letters in any case),
      and wraps it otherwise; heading output is always left alone. */
  lemma ParagraphRuleOnLine(line: string, k: HeadingLevel, x: string)
    requires LineFree(line)
    ensures WrapParagraphs(line) == if Exempt(line) then line else ParagraphOpen + line + ParagraphClose
    ensures Exempt(HeadingOpen(k) + x + HeadingClose(k))
  {
    MapLinesOnLine(line, Paragraph);
    HeadingMarkupIsInert(k);
    InertFacts(HeadingOpen(k));
    InertFacts(HeadingClose(k));
    var h := HeadingOpen(k) + x + HeadingClose(k);
    assert h[0] == '<' && h[1] == 'h';
  }

  /** The empty document renders as one empty paragraph. */
  lemma EmptyRender()
    ensures Render("") == ParagraphOpen + ParagraphClose
  {
    assert LineFree("");
    MapLinesOnLine("", Heading(1));
    MapLinesOnLine("", Heading(2));
    MapLinesOnLine("", Heading(3));
    MapLinesOnLine("", Heading(4));
    MapLinesOnLine("", Paragraph);
  }

  lemma {:induction false} BreakParagraphsOnLine(s: string)
    requires LineFree(s)
    ensures BreakParagraphs(s) == s
    decreases |s|
  {
    if |s| >= 2 {
      assert LineFree(s[1..]) by {
        forall i | 0 <= i < |s[1..]| ensures !IsLineTerminator(s[1..][i]) {
          assert s[1..][i] == s[i + 1];
        }
      }
      BreakParagraphsOnLine(s[1..]);
    }
  }

  /** A line without asterisks or backticks passes the inline rules and
      the `\n\n` rule unchanged. */
  lemma InlineRulesOnPlainLine(t: string)
    requires LineFree(t) && '*' !in t && '`' !in t
    ensures BreakParagraphs(Fence(InlineCode(Italic(Bold(t))))) == t
  {
    CharAbsent(t, "**");
    ReplaceSpansAbsent(t, "**", StrongOpen, StrongClose, false);
    CharAbsent(t, "*");
    ReplaceSpansAbsent(t, "*", EmOpen, EmClose, false);
    CharAbsent(t, "`");
    ReplaceSpansAbsent(t, "`", CodeOpen, CodeClose, false);
    CharAbsent(t, "```");
    ReplaceSpansAbsent(t, "```", PreOpen, PreClose, true);
    BreakParagraphsOnLine(t);
  }

  /** A whole document that is one heading line of level 1 to 4 renders as
      that heading element, not wrapped in a paragraph. */
  lemma HeadingDocument(k: HeadingLevel, rest: string)
    requires LineFree(rest) && '*' !in rest && '`' !in rest
    ensures Render(Marker(k) + rest) == HeadingOpen(k) + rest + HeadingClose(k)
  {
    var h := HeadingOpen(k) + rest + HeadingClose(k);
    HeadingLine(k, rest);
    HeadingMarkupIsInert(k);
    InertFacts(HeadingOpen(k));
    InertFacts(HeadingClose(k));
    LineFreeConcat(HeadingOpen(k), rest);
    LineFreeConcat(HeadingOpen(k) + rest, HeadingClose(k));
    assert '*' !in h && '`' !in h;
    InlineRulesOnPlainLine(h);
    ParagraphRuleOnLine(h, k, rest);
  }

  lemma HashLineNotExempt(line: string)
    requires |line| > 0 && line[0] == '#'
    ensures !Exempt(line)
  {
    assert AsciiLower(line[0]) != AsciiLower('<');
  }

  lemma FiveHashesPassesInnerRules(line: string)
    requires LineFree(line) && |line| >= 5 && line[..5] == "#####" && '*' !in line && '`' !in line
    ensures BreakParagraphs(Fence(InlineCode(Italic(Bold(Headings(line)))))) == line
  {
    FiveHashesNoHeading(line);
    InlineRulesOnPlainLine(line);
  }

  /** A whole document that is one line of five or more hashes gets no
      heading and is wrapped in a paragraph. */
  lemma FiveHashesDocument(line: string)
    requires LineFree(line) && |line| >= 5 && line[..5] == "#####" && '*' !in line && '`' !in line
    ensures Render(line) == ParagraphOpen + line + ParagraphClose
  {
    FiveHashesPassesInnerRules(line);
    assert Render(line) == WrapParagraphs(line);
    assert line[0] == line[..5][0] == '#';
    HashLineNotExempt(line);
    MapLinesOnLine(line, Paragraph);
  }

  // ---------------------------------------------------------------------
  // The fenced-block rule runs too late

  /** As written, a fenced block is never rendered as `<pre>`: the
      inline-code rule has already turned its backticks into `<code>`
      elements before the fence rule looks for them. */
  lemma FencedBlockNotRendered(x: string)
    requires '`' !in x
    ensures Fence(InlineCode("```" + x + "```")) != PreOpen + x + PreClose
  {
    var s := "```" + x + "```";
    FenceNeverFires(s);
    assert OccursAt(s, "`", 0) by {
      assert s[0..1] == "`";
    }
    assert OccursAt(s, "`", 1) by {
      assert s[1..2] == "`";
    }
    var r := FindClose(s, "`", 1, false);
    FindCloseFinds(s, "`", 1, false);
    assert r == Some(1);
    assert InlineCode(s) == CodeOpen + s[1..1] + CodeClose + InlineCode(s[2..]);
    CodeInert();
    PreInert();
    assert InlineCode(s)[1] == 'c';
    assert (PreOpen + x + PreClose)[1] == 'p';
  }

  /** The rule order evidently intended: fenced blocks before inline code. */
  function RenderFenceFirst(content: string): string
  {
    WrapParagraphs(BreakParagraphs(InlineCode(Fence(Italic(Bold(Headings(content)))))))
  }

  /** With the fence rule first, the fence and inline-code steps turn a
      fenced block whose body holds no backtick, on one line or across
      several, into one `<pre>` element. */
  lemma FenceFirstRendersBlock(x: string)
    requires '`' !in x
    ensures InlineCode(Fence("```" + x + "```")) == PreOpen + x + PreClose
  {
    var b := PreOpen + x + PreClose;
    FenceWrapsBlock(x);
    assert '`' !in b by {
      PreInert();
      InertFacts(PreOpen);
      InertFacts(PreClose);
    }
    CharAbsent(b, "`");
    ReplaceSpansAbsent(b, "`", CodeOpen, CodeClose, false);
  }

  /** The fence rule alone turns a fenced block without backticks inside
      into one `<pre>` element. */
  lemma FenceWrapsBlock(x: string)
    requires '`' !in x
    ensures Fence("```" + x + "```") == PreOpen + x + PreClose
  {
    var s := "```" + x + "```";
    var d := "```";
    assert FindClose(s, d, 3, true) == Some(3 + |x|) by {
      FencedOccurrences(x);
      FindCloseFinds(s, d, 3, true);
    }
    assert OccursAt(s, d, 0) by {
      assert s[0..3] == d;
    }
    SpanUnfold(s, d, PreOpen, PreClose, true, 3 + |x|);
    assert s[3..3 + |x|] == x;
    assert s[3 + |x| + 3..] == [];
    assert ReplaceSpans([], d, PreOpen, PreClose, true) == [];
  }

  /** In a fenced block whose body holds no backtick, the only fence after
      the opening one is the closing one. */
  lemma FencedOccurrences(x: string)
    requires '`' !in x
    ensures OccursAt("```" + x + "```", "```", 3 + |x|)
    ensures forall k | 3 <= k < 3 + |x| :: !OccursAt("```" + x + "```", "```", k)
  {
    var s := "```" + x + "```";
    var d := "```";
    assert s[3 + |x|..3 + |x| + 3] == d;
    forall k | 3 <= k < 3 + |x| ensures !OccursAt(s, d, k) {
      assert s[k] == x[k - 3];
      assert x[k - 3] in x;
      assert s[k..k + 3][0] == s[k];
    }
  }

  /** A line that starts with no hash gets no heading. */
  lemma NoHashNoHeading(line: string)
    requires LineFree(line) && |line| > 0 && line[0] != '#'
    ensures Headings(line) == line
  {
    forall j: HeadingLevel ensures RewriteLine(line, Heading(j)) == line {
      var mj := Marker(j);
      assert mj[0] == '#';
      if |line| >= |mj| {
        assert line[..|mj|][0] != mj[0];
      }
    }
    MapLinesOnLine(line, Heading(1));
    MapLinesOnLine(line, Heading(2));
    MapLinesOnLine(line, Heading(3));
    MapLinesOnLine(line, Heading(4));
  }

  /** The fence markup opens with `<pre`, which the paragraph rule's
      lookahead exempts, and closes with `</`, which it does not. */
  lemma PreMarkupStarts()
    ensures |PreOpen| >= 4 && PreOpen[..4] == "<pre"
    ensures |PreClose| >= 2 && PreClose[..2] == "</"
  {
  }

  /** A fenced line without asterisks passes the heading, bold and italic
      rules unchanged. */
  lemma FencedLineBeforeFence(x: string)
    requires LineFree(x) && '*' !in x
    ensures Italic(Bold(Headings("```" + x + "```"))) == "```" + x + "```"
  {
    var s := "```" + x + "```";
    assert LineFree(s) by {
      LineFreeConcat("```", x);
      LineFreeConcat("```" + x, "```");
    }
    NoHashNoHeading(s);
    assert '*' !in s;
    CharAbsent(s, "**");
    ReplaceSpansAbsent(s, "**", StrongOpen, StrongClose, false);
    CharAbsent(s, "*");
    ReplaceSpansAbsent(s, "*", EmOpen, EmClose, false);
  }

  /** A `<pre>` element on one line passes the `\n\n` rule and the
      paragraph rule unchanged. */
  lemma PreLineKept(x: string)
    requires LineFree(x)
    ensures WrapParagraphs(BreakParagraphs(PreOpen + x + PreClose)) == PreOpen + x + PreClose
  {
    var b := PreOpen + x + PreClose;
    assert LineFree(b) by {
      PreInert();
      InertFacts(PreOpen);
      InertFacts(PreClose);
      LineFreeConcat(PreOpen, x);
      LineFreeConcat(PreOpen + x, PreClose);
    }
    assert Exempt(b) by {
      PreMarkupStarts();
      assert b[..4] == PreOpen[..4];
    }
    BreakParagraphsOnLine(b);
    MapLinesOnLine(b, Paragraph);
  }

  /** With the corrected order, a whole document that is a fenced block on
      one line, its body free of asterisks and backticks, renders as one
      `<pre>` element and nothing else. */
  lemma FencedLineDocument(x: string)
    requires LineFree(x) && '*' !in x && '`' !in x
    ensures RenderFenceFirst("```" + x + "```") == PreOpen + x + PreClose
  {
    var s := "```" + x + "```";
    var b := PreOpen + x + PreClose;
    assert InlineCode(Fence(Italic(Bold(Headings(s))))) == b by {
      FencedLineBeforeFence(x);
      FenceFirstRendersBlock(x);
    }
    PreLineKept(x);
  }

  /** The corrected order alone does not keep a block that spans lines in
      one piece: its closing line, `</code></pre>`, is not exempted by the
      lookahead and is wrapped in a paragraph. */
  lemma ClosingFenceLineWrapped()
    ensures WrapParagraphs(PreClose) == ParagraphOpen + PreClose + ParagraphClose
  {
    PreMarkupStarts();
    assert PreClose[1] == '/';
    BlockMarkupIsInert();
    InertFacts(PreClose);
    MapLinesOnLine(PreClose, Paragraph);
  }

  /** The corrected order keeps the guarantee that no empty line is left. */
  lemma FenceFirstHasNoBlankLine(content: string)
    ensures NoBlankLine(RenderFenceFirst(content))
  {
    WrapParagraphsNoBlankLine(BreakParagraphs(InlineCode(Fence(Italic(Bold(Headings(content)))))));
  }
}
