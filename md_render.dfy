/** The Markdown renderer of the file preview as one pipeline: escape the text, cut
    out code, apply the heading, link, image, table, emphasis and rule rewrites, run
    the list pass, rewrite and merge block quotes, run the paragraph pass, and put
    the code back. `AsWritten` is the renderer as it stands; `Corrected` uses
    placeholders no rewrite starts in, puts nested lists inside items, and keeps the
    list pass's closing tags out of paragraphs. */
module MdRender {
  import opened Wrappers
  import opened Text
  import opened HtmlEscape
  import opened MdPasses
  import opened MdCode
  import MdLists
  import MdParagraphs
  import MdRewrites

  /** The rewrites between the code pass and the list pass, in order. */
  const MidRules: seq<Rule> := [
    Heading(6), Heading(5), Heading(4), Heading(3), Heading(2), Heading(1),
    Link, Image, Table,
    Emphasis('*', 2, "strong"), Emphasis('_', 2, "strong"), Emphasis('*', 1, "em"), Emphasis('_', 1, "em"),
    Emphasis('~', 2, "del"),
    HorizontalRule('-'), HorizontalRule('*')
  ]

  lemma {:induction false} MidRulesValid()
    ensures forall i :: 0 <= i < |MidRules| ==> ValidRule(MidRules[i])
  {
  }

  function ListRenders(ts: seq<MdLists.Token>): (r: seq<string>)
    ensures |r| == |ts|
  {
    seq(|ts|, i requires 0 <= i < |ts| => MdLists.Render(ts[i]))
  }

  function ParaRenders(ps: seq<MdParagraphs.Para>): (r: seq<string>)
    ensures |r| == |ps|
  {
    seq(|ps|, i requires 0 <= i < |ps| => MdParagraphs.Render(ps[i]))
  }

  /** `html = processLists(html)`: split into lines, emit, join with newlines. */
  function ListPass(style: Style, html: string): string {
    var lines := SplitOn(html, '\n');
    var ts := if style == Corrected then MdLists.FixedProcessLists(lines) else MdLists.ProcessListsSpec(lines);
    Join(ListRenders(ts), "\n")
  }

  /** The block-quote rewrite, then the merge of adjacent quotes. */
  function QuotePass(html: string): string {
    Apply(Literal(MdRewrites.QuoteSeam, "\n"), Apply(Quote, html))
  }

  /** The block test the paragraph pass uses. */
  function BlockTest(style: Style): string -> bool {
    if style == Corrected then MdParagraphs.IsBlockFixed else MdParagraphs.IsBlock
  }

  /** The paragraph pass: split into lines, wrap, join with newlines. */
  function ParagraphPass(style: Style, html: string): string {
    Join(ParaRenders(MdParagraphs.ParagraphsSpec(SplitOn(html, '\n'), BlockTest(style))), "\n")
  }

  /** renderBasicMarkdown. */
  function RenderMarkdown(style: Style, text: string): string {
    MidRulesValid();
    var e := EscapeHtml(text);
    var fenced := ProtectSpec(style, Fenced, e, 0);
    var inline := ProtectSpec(style, Inline, fenced.0, 0);
    var m := ApplyAll(MidRules, inline.0);
    var p := ParagraphPass(style, QuotePass(ListPass(style, m)));
    Apply(RestoreRule(style, Inline, inline.1), Apply(RestoreRule(style, Fenced, fenced.1), p))
  }

  // ---------------------------------------------------------------------------
  // A line of plain text

  /** A character no pass reacts to: no escaping, no code, no rewrite's lead, no
      placeholder's lead, and no line break. */
  predicate IsPlainChar(c: char) {
    !IsSpecial(c) && c != '`' && c != '#' && c != '[' && c != '!' && c != '|' && c != '*' &&
    c != '_' && c != '~' && c != '-' && c != Sentinel && !IsLineTerminator(c)
  }

  /** One line of prose: plain characters, not blank, and not a numbered-list item. */
  predicate PlainLine(l: string) {
    (forall i :: 0 <= i < |l| ==> IsPlainChar(l[i])) && !Blank(l) && MdLists.MatchItem(l).None?
  }

  lemma {:induction false} ProtectPlain(style: Style, kind: CodeKind, t: string, n: nat)
    requires forall i :: 0 <= i < |t| ==> t[i] != '`'
    ensures ProtectSpec(style, kind, t, n) == (t, [])
    decreases |t|
  {
    if |t| > 0 {
      assert MatchCode(kind, t).None?;
      ProtectPlain(style, kind, t[1..], n);
      assert t == [t[0]] + t[1..];
    }
  }

  lemma {:induction false} EscapePlain(t: string)
    requires forall i :: 0 <= i < |t| ==> !IsSpecial(t[i])
    ensures EscapeHtml(t) == t
  {
    EscapeIdentityIff(t);
  }

  lemma {:induction false} RulesPlain(rules: seq<Rule>, t: string)
    requires forall i :: 0 <= i < |rules| ==> ValidRule(rules[i])
    requires forall i, j :: 0 <= i < |rules| && 0 <= j < |t| ==> t[j] != Lead(rules[i])
    ensures ApplyAll(rules, t) == t
    decreases |rules|
  {
    if |rules| > 0 {
      NoLeadUnchanged(rules[0], t, true);
      RulesPlain(rules[1..], t);
    }
  }

  lemma {:induction false} ListPassPlain(style: Style, l: string)
    requires '\n' !in l && MdLists.MatchItem(l).None?
    ensures ListPass(style, l) == l
  {
    SplitFree(l, '\n');
    assert [l][..0] == [];
    var line := MdLists.Line(l);
    assert MdLists.Run([l]) == MdLists.ListState([], [line]);
    assert MdLists.FixedRun([l]) == MdLists.ListState([], [line]);
  }

  lemma {:induction false} NoTagStart(t: string, p: string)
    requires |t| > 0 && t[0] != '<' && |p| > 0 && p[0] == '<'
    ensures !StartsWith(t, p)
  {
  }

  /** The trimmed line of a line that is not blank starts with one of its characters. */
  lemma {:induction false} TrimHead(l: string)
    requires !Blank(l)
    ensures |Trim(l)| > 0 && Trim(l)[0] in l
  {
    TrimEmptyIff(l);
    var s := TrimStart(l);
    assert Trim(l)[0] == s[0] == l[|l| - |s|];
  }

  /** A line that is not blank and holds no `<` is no block line, for either test. */
  lemma {:induction false} ProseNotBlock(l: string)
    requires '<' !in l && !Blank(l)
    ensures !MdParagraphs.IsBlock(l) && !MdParagraphs.IsBlockFixed(l)
  {
    TrimHead(l);
    var t := Trim(l);
    NoTagStart(t, "<h");
    NoTagStart(t, "<ul>");
    NoTagStart(t, "<ol>");
    NoTagStart(t, "<li>");
    NoTagStart(t, "<table>");
    NoTagStart(t, "<blockquote>");
    NoTagStart(t, "<hr");
    NoTagStart(t, "<pre>");
    NoTagStart(t, "</ul>");
    NoTagStart(t, "</ol>");
    NoTagStart(t, "</li>");
  }

  lemma {:induction false} OneProseLine(l: string, block: string -> bool)
    requires !block(l)
    ensures MdParagraphs.ParagraphsSpec([l], block) == [MdParagraphs.ParaOpen, MdParagraphs.Copy(l), MdParagraphs.ParaClose]
  {
    assert [l][..0] == [];
    assert MdParagraphs.Marker(false, l, block) == [MdParagraphs.ParaOpen];
    assert MdParagraphs.ParaRun([l], block) == MdParagraphs.ParaState(true, [] + [MdParagraphs.ParaOpen] + [MdParagraphs.Copy(l)]);
  }

  lemma {:induction false} ParagraphRenders(l: string)
    ensures ParaRenders([MdParagraphs.ParaOpen, MdParagraphs.Copy(l), MdParagraphs.ParaClose]) == ["<p>", l, "</p>"]
  {
  }

  /** The three lines of a one-line paragraph, joined. */
  lemma {:induction false} JoinParagraph(l: string)
    ensures Join(["<p>", l, "</p>"], "\n") == "<p>\n" + l + "\n</p>"
  {
    var open, close := "<p>", "</p>";
    JoinCons(l, [close], "\n");
    assert [l] + [close] == [l, close];
    JoinCons(open, [l, close], "\n");
    assert [open] + [l, close] == [open, l, close];
    assert open + "\n" == "<p>\n";
    assert "\n" + close == "\n</p>";
    AppendAssoc(l, "\n", close);
    AppendAssoc("<p>\n", l, "\n</p>");
  }

  lemma {:induction false} ParagraphPassPlain(style: Style, l: string)
    requires '\n' !in l && '<' !in l && !Blank(l)
    ensures ParagraphPass(style, l) == "<p>\n" + l + "\n</p>"
  {
    SplitFree(l, '\n');
    ProseNotBlock(l);
    OneProseLine(l, BlockTest(style));
    ParagraphRenders(l);
    JoinParagraph(l);
  }

  /** A character that is none of `<p>`, `</p>` and the newline stays out of a
      one-line paragraph around a line without it. */
  lemma {:induction false} ParagraphAvoids(l: string, c: char)
    requires c != '<' && c != 'p' && c != '>' && c != '\n' && c != '/' && c !in l
    ensures c !in "<p>\n" + l + "\n</p>"
  {
    var p := "<p>\n" + l + "\n</p>";
    forall i | 0 <= i < |p|
      ensures p[i] != c
    {
      if i < 4 {
        assert p[i] == "<p>\n"[i];
      } else if i < 4 + |l| {
        assert p[i] == l[i - 4];
      } else {
        assert p[i] == "\n</p>"[i - 4 - |l|];
      }
    }
  }

  /** A line of prose comes out as a paragraph of its own, unchanged, in both
      renderers. */
  lemma {:induction false} PlainLineIsParagraph(style: Style, l: string)
    requires PlainLine(l)
    ensures RenderMarkdown(style, l) == "<p>\n" + l + "\n</p>"
  {
    MidRulesValid();
    assert EscapeHtml(l) == l by {
      EscapePlain(l);
    }
    assert ProtectSpec(style, Fenced, l, 0) == (l, []) by {
      ProtectPlain(style, Fenced, l, 0);
    }
    assert ProtectSpec(style, Inline, l, 0) == (l, []) by {
      ProtectPlain(style, Inline, l, 0);
    }
    assert ApplyAll(MidRules, l) == l by {
      RulesPlain(MidRules, l);
    }
    assert QuotePass(ListPass(style, l)) == l by {
      ListPassPlain(style, l);
      NoLeadUnchanged(Quote, l, true);
      NoLeadUnchanged(Literal(MdRewrites.QuoteSeam, "\n"), l, true);
    }
    var p := "<p>\n" + l + "\n</p>";
    ParagraphPassPlain(style, l);
    RestorePlain(style, l);
  }

  /** Restoring finds no placeholder in a paragraph of plain text. */
  lemma {:induction false} RestorePlain(style: Style, l: string)
    requires forall i :: 0 <= i < |l| ==> IsPlainChar(l[i])
    ensures var p := "<p>\n" + l + "\n</p>";
      Apply(RestoreRule(style, Inline, []), Apply(RestoreRule(style, Fenced, []), p)) == p
  {
    var p := "<p>\n" + l + "\n</p>";
    var lead := if style == AsWritten then '_' else Sentinel;
    assert lead == PlaceholderPrefix(style, Fenced)[0] == PlaceholderPrefix(style, Inline)[0];
    assert lead !in l;
    ParagraphAvoids(l, lead);
    NoLeadUnchanged(RestoreRule(style, Fenced, []), p, true);
    NoLeadUnchanged(RestoreRule(style, Inline, []), p, true);
  }

  // ---------------------------------------------------------------------------
  // Lists and paragraphs

  /** A string with no white space at either end trims to itself. */
  lemma {:induction false} TrimTight(s: string)
    requires |s| > 0 && !IsJsSpace(s[0]) && !IsJsSpace(s[|s| - 1])
    ensures Trim(s) == s
  {
    assert TrimStart(s) == s;
    assert TrimEnd(s) == s;
  }

  /** A line starting with `<li>` trims to a string starting with `<li>`. */
  lemma {:induction false} TrimItem(c: string)
    ensures StartsWith(Trim("<li>" + c), "<li>")
  {
    var s := "<li>" + c;
    assert TrimStart(s) == s;
    var t := TrimEnd(s);
    assert !IsJsSpace(s[3]);
    assert |t| >= 4;
    assert t[..4] == s[..4] == "<li>";
  }

  /** A closing tag is no block line to the pass as written: the paragraph pass wraps
      the `</li>`, `</ul>` and `</ol>` lines the list pass emits. */
  lemma {:induction false} ClosingTagsWrapped(t: MdLists.Token)
    requires t.Close? || t.LiClose?
    ensures !MdParagraphs.IsBlock(MdLists.Render(t))
  {
    match t
    case LiClose => ClosingLineWrapped("</li>");
    case Close(k) =>
      var r := MdLists.Render(t);
      assert r == "</" + MdLists.TagName(k) + ">";
      ClosingLineWrapped(r);
  }

  lemma {:induction false} LiCloseWrapped()
    ensures !MdParagraphs.IsBlock("</li>")
  {
    ClosingTagsWrapped(MdLists.LiClose);
  }

  lemma {:induction false} UlCloseWrapped()
    ensures !MdParagraphs.IsBlock("</ul>")
  {
    ClosingTagsWrapped(MdLists.Close(MdLists.Ul));
    assert MdLists.Render(MdLists.Close(MdLists.Ul)) == "</" + "ul" + ">" == "</ul>";
  }

  /** A line `</…>` is no block line to the pass as written. */
  lemma {:induction false} ClosingLineWrapped(r: string)
    requires |r| > 2 && r[0] == '<' && r[1] == '/' && r[|r| - 1] == '>'
    ensures !MdParagraphs.IsBlock(r)
  {
    TrimTight(r);
    NoSlashStart(r, "<h");
    NoSlashStart(r, "<ul>");
    NoSlashStart(r, "<ol>");
    NoSlashStart(r, "<li>");
    NoSlashStart(r, "<table>");
    NoSlashStart(r, "<blockquote>");
    NoSlashStart(r, "<hr");
    NoSlashStart(r, "<pre>");
  }

  lemma {:induction false} NoSlashStart(t: string, p: string)
    requires |t| > 1 && t[1] == '/' && |p| > 1 && p[1] != '/'
    ensures !StartsWith(t, p)
  {
  }

  /** Every tag the list pass emits is a block line to the corrected test. */
  lemma {:induction false} ListTagsAreBlocks(t: MdLists.Token)
    requires !t.Line?
    ensures MdParagraphs.IsBlockFixed(MdLists.Render(t))
  {
    var r := MdLists.Render(t);
    match t
    case Li(c) => TrimItem(c);
    case Open(k) => TrimTight(r);
    case Close(k) => TrimTight(r);
    case LiClose => TrimTight(r);
  }

  /** With the corrected renderer, text made only of list items leaves the paragraph
      pass with no paragraph at all. */
  lemma {:induction false} ListsUnwrapped(lines: seq<string>)
    requires forall i :: 0 <= i < |lines| ==> MdLists.MatchItem(lines[i]).Some?
    ensures var renders := ListRenders(MdLists.FixedProcessLists(lines));
      MdParagraphs.ParagraphsSpec(renders, MdParagraphs.IsBlockFixed) == MdParagraphs.AllCopied(renders)
  {
    var ts := MdLists.FixedProcessLists(lines);
    MdLists.FixedListsWellNested(lines);
    MdLists.ListContents(lines);
    MdLists.AllItemsNoUnmatched(lines);
    MdLists.NoTextsNoLines(ts);
    var renders := ListRenders(ts);
    forall i | 0 <= i < |renders|
      ensures MdParagraphs.IsBlockFixed(renders[i])
    {
      ListTagsAreBlocks(ts[i]);
    }
    MdParagraphs.BlocksUnwrapped(renders, MdParagraphs.IsBlockFixed);
  }

  /** With the renderer as written, the single item "- a" comes out of the paragraph
      pass as `<ul>`, `<li>a`, `<p>`, `</li>`, `</ul>`, `</p>`: a paragraph opens inside
      the list and closes after it. */
  lemma {:induction false} ListItemWrapped(a: string)
    requires forall i :: 0 <= i < |a| ==> !IsLineTerminator(a[i])
    requires |a| > 0 ==> !IsJsSpace(a[0])
    ensures var renders := ListRenders(MdLists.ProcessListsSpec(["- " + a]));
      renders == ["<ul>", "<li>" + a, "</li>", "</ul>"] &&
      MdParagraphs.ParagraphsSpec(renders, MdParagraphs.IsBlock)
        == [MdParagraphs.Copy("<ul>"), MdParagraphs.Copy("<li>" + a), MdParagraphs.ParaOpen,
            MdParagraphs.Copy("</li>"), MdParagraphs.Copy("</ul>"), MdParagraphs.ParaClose]
  {
    var l := "- " + a;
    assert MdLists.MatchItem(l) == Some(MdLists.Item(0, MdLists.Ul, a)) by {
      MdLists.MatchBullet("", a);
      assert "" + "- " + a == l;
    }
    SingleItemTokens(l, a);
    SingleItemRenders(a);
    ItemLinesWrapped(a);
  }

  lemma {:induction false} SingleItemTokens(l: string, a: string)
    requires MdLists.MatchItem(l) == Some(MdLists.Item(0, MdLists.Ul, a))
    ensures MdLists.ProcessListsSpec([l]) == [MdLists.Open(MdLists.Ul), MdLists.Li(a), MdLists.LiClose, MdLists.Close(MdLists.Ul)]
  {
    MdLists.FirstItemOpens(l, MdLists.Item(0, MdLists.Ul, a));
    var s := MdLists.ListState([MdLists.Frame(MdLists.Ul, 0)], [MdLists.Open(MdLists.Ul), MdLists.Li(a)]);
    assert MdLists.Render(MdLists.Li(a))[1] == 'l';
    assert MdLists.Render(MdLists.Close(MdLists.Ul))[1] == '/';
    assert !MdLists.LastIs(s.result, MdLists.Render(MdLists.Close(MdLists.Ul)));
    MdLists.CloseAllStep(s);
    var t := MdLists.CloseTop(s);
    assert t == MdLists.ListState([], s.result + [MdLists.LiClose] + [MdLists.Close(MdLists.Ul)]);
    assert MdLists.CloseAll(t) == t;
  }

  lemma {:induction false} SingleItemRenders(a: string)
    ensures ListRenders([MdLists.Open(MdLists.Ul), MdLists.Li(a), MdLists.LiClose, MdLists.Close(MdLists.Ul)])
      == ["<ul>", "<li>" + a, "</li>", "</ul>"]
  {
    var ts := [MdLists.Open(MdLists.Ul), MdLists.Li(a), MdLists.LiClose, MdLists.Close(MdLists.Ul)];
    var r := ListRenders(ts);
    assert r[0] == MdLists.Render(ts[0]) == "<" + "ul" + ">" == "<ul>";
    assert r[1] == "<li>" + a;
    assert r[2] == "</li>";
    assert r[3] == MdLists.Render(ts[3]) == "</" + "ul" + ">" == "</ul>";
  }

  lemma {:induction false} UlIsBlock()
    ensures MdParagraphs.IsBlock("<ul>")
  {
    TrimTight("<ul>");
  }

  lemma {:induction false} ItemIsBlock(a: string)
    ensures MdParagraphs.IsBlock("<li>" + a)
  {
    TrimItem(a);
  }

  lemma {:induction false} ItemLinesWrapped(a: string)
    ensures MdParagraphs.ParagraphsSpec(["<ul>", "<li>" + a, "</li>", "</ul>"], MdParagraphs.IsBlock)
      == [MdParagraphs.Copy("<ul>"), MdParagraphs.Copy("<li>" + a), MdParagraphs.ParaOpen,
          MdParagraphs.Copy("</li>"), MdParagraphs.Copy("</ul>"), MdParagraphs.ParaClose]
  {
    UlIsBlock();
    ItemIsBlock(a);
    LiCloseWrapped();
    UlCloseWrapped();
    MdParagraphs.TwoBlocksTwoLines("<ul>", "<li>" + a, "</li>", "</ul>", MdParagraphs.IsBlock);
  }

  // ---------------------------------------------------------------------------
  // A line of prose with one code span, rendered with corrected placeholders

  /** Every rewrite the pipeline runs between the code pass and restoration spares the
      corrected placeholders: none of them starts at the sentinel, at `B`, `I` or a
      digit, and none starts at a plain character either. */
  lemma {:induction false} PipelineRulesSpare()
    ensures forall i :: 0 <= i < |MidRules| ==>
      ValidRule(MidRules[i]) && Spares(MidRules[i]) && !IsPlainChar(Lead(MidRules[i]))
    ensures ValidRule(Quote) && Spares(Quote) && !IsPlainChar(Lead(Quote))
    ensures var seam := Literal(MdRewrites.QuoteSeam, "\n");
      ValidRule(seam) && Spares(seam) && !IsPlainChar(Lead(seam))
  {
    MidRulesValid();
  }

  /** What a code span of the line may hold: anything but a backtick or a character
      the escape pass rewrites; newlines and Markdown syntax included. */
  predicate CodeChars(code: string) {
    forall i :: 0 <= i < |code| ==> !IsSpecial(code[i]) && code[i] != '`'
  }

  predicate AllPlain(t: string) {
    forall i :: 0 <= i < |t| ==> IsPlainChar(t[i])
  }

  /** Prose a line may start with without making the line a list item: nothing, or a
      first character that is no white space, no `+` and no digit (a plain character
      is no `-` or `*` already). */
  predicate NoItemStart(a: string) {
    |a| == 0 || (!IsJsSpace(a[0]) && a[0] != '+' && !IsAsciiDigit(a[0]))
  }

  /** A character of prose or of a corrected placeholder. */
  predicate LineChar(c: char) {
    IsPlainChar(c) || c == Sentinel || c == 'I' || IsAsciiDigit(c)
  }

  /** The fenced pattern needs three backticks in a row; text without them is copied. */
  lemma {:induction false} ProtectNoFence(style: Style, t: string, n: nat)
    requires forall j :: 0 <= j < |t| ==> !FenceAt(t, j)
    ensures ProtectSpec(style, Fenced, t, n) == (t, [])
    decreases |t|
  {
    if |t| > 0 {
      assert MatchCode(Fenced, t).None?;
      forall j | 0 <= j < |t| - 1 ensures !FenceAt(t[1..], j) {
        assert !FenceAt(t, j + 1);
      }
      ProtectNoFence(style, t[1..], n);
      assert t == [t[0]] + t[1..];
    }
  }

  /** Text without a backtick is copied by the code pass, which then goes on as usual. */
  lemma {:induction false} ProtectPrefix(style: Style, kind: CodeKind, a: string, s: string, n: nat)
    requires forall i :: 0 <= i < |a| ==> a[i] != '`'
    ensures ProtectSpec(style, kind, a + s, n) == (a + ProtectSpec(style, kind, s, n).0, ProtectSpec(style, kind, s, n).1)
    decreases |a|
  {
    if |a| > 0 {
      var t := a + s;
      assert t[0] == a[0];
      assert MatchCode(kind, t).None?;
      assert t[1..] == a[1..] + s;
      ProtectPrefix(style, kind, a[1..], s, n);
      var r := ProtectSpec(style, kind, s, n).0;
      assert ProtectSpec(style, kind, t, n).0 == [a[0]] + (a[1..] + r);
      assert [a[0]] + (a[1..] + r) == a + r by {
        AppendAssoc([a[0]], a[1..], r);
        assert [a[0]] + a[1..] == a;
      }
      assert ProtectSpec(style, kind, t, n).1 == ProtectSpec(style, kind, s, n).1;
    } else {
      assert a + s == s;
      assert a + ProtectSpec(style, kind, s, n).0 == ProtectSpec(style, kind, s, n).0;
    }
  }

  /** A code span followed by text without backticks: the span is stored, its
      placeholder emitted, and the text copied. */
  lemma {:induction false} InlineSpanProtected(style: Style, code: string, b: string, n: nat)
    requires |code| > 0 && '`' !in code && '`' !in b
    ensures ProtectSpec(style, Inline, "`" + code + "`" + b, n) == (Placeholder(style, Inline, n) + b, [Wrap(Inline, code)])
  {
    var t := "`" + code + "`" + b;
    assert t == "`" + code + ("`" + b);
    RunEndSkip("`", code, "`" + b, IsBacktick);
    var h := CodeHit(|code| + 2, code);
    assert MatchCode(Inline, t) == Some(h);
    ProtectHit(style, Inline, t, n, h);
    assert t[h.len..] == b;
    assert forall i :: 0 <= i < |b| ==> b[i] != '`';
    ProtectPlain(style, Inline, b, n + 1);
    assert [Wrap(Inline, code)] + [] == [Wrap(Inline, code)];
  }

  /** Where the pieces of the line sit. */
  lemma {:induction false} CodeLineShape(a: string, code: string, b: string)
    ensures var l := a + "`" + code + "`" + b; var k := |a| + 1 + |code|;
      |l| == k + 1 + |b| && l[|a|] == '`' && l[k] == '`' &&
      (forall i :: 0 <= i < |a| ==> l[i] == a[i]) &&
      (forall i :: 0 <= i < |code| ==> l[|a| + 1 + i] == code[i]) &&
      (forall i :: 0 <= i < |b| ==> l[k + 1 + i] == b[i])
  {
  }

  /** The line holds no character the escape pass rewrites, and backticks only
      around the span. */
  lemma {:induction false} CodeLineChars(a: string, code: string, b: string)
    requires AllPlain(a) && AllPlain(b) && CodeChars(code)
    ensures var l := a + "`" + code + "`" + b; var k := |a| + 1 + |code|;
      forall i :: 0 <= i < |l| ==> !IsSpecial(l[i]) && (l[i] == '`' ==> i == |a| || i == k)
  {
    var l := a + "`" + code + "`" + b;
    var k := |a| + 1 + |code|;
    CodeLineShape(a, code, b);
    forall i | 0 <= i < |l| ensures !IsSpecial(l[i]) && (l[i] == '`' ==> i == |a| || i == k) {
      if i < |a| {
        assert l[i] == a[i];
      } else if |a| < i < k {
        assert l[|a| + 1 + (i - |a| - 1)] == code[i - |a| - 1];
      } else if k < i {
        assert l[k + 1 + (i - k - 1)] == b[i - k - 1];
      }
    }
  }

  /** Two backticks with at least one character between them make no fence. */
  lemma {:induction false} TwoTicksNoFence(l: string, p: nat, k: nat)
    requires p + 1 < k && forall i :: 0 <= i < |l| ==> (l[i] == '`' ==> i == p || i == k)
    ensures forall j :: 0 <= j < |l| ==> !FenceAt(l, j)
  {
    forall j | 0 <= j < |l| ensures !FenceAt(l, j) {
      if j + 2 < |l| && l[j] == '`' {
        assert l[j + 1] != '`' || l[j + 2] != '`';
      }
    }
  }

  /** The escape and code passes over the line: nothing is escaped, no fence is found,
      and the span is replaced by the first inline placeholder. */
  lemma {:induction false} CodeLineProtected(a: string, code: string, b: string)
    requires AllPlain(a) && AllPlain(b) && |code| > 0 && CodeChars(code)
    ensures var l := a + "`" + code + "`" + b;
      EscapeHtml(l) == l && ProtectSpec(Corrected, Fenced, l, 0) == (l, []) &&
      ProtectSpec(Corrected, Inline, l, 0) == (a + Placeholder(Corrected, Inline, 0) + b, [Wrap(Inline, code)])
  {
    var l := a + "`" + code + "`" + b;
    CodeLineChars(a, code, b);
    EscapePlain(l);
    TwoTicksNoFence(l, |a|, |a| + 1 + |code|);
    ProtectNoFence(Corrected, l, 0);
    CodeSpanProtected(a, code, b);
  }

  lemma {:induction false} CodeSpanProtected(a: string, code: string, b: string)
    requires AllPlain(a) && AllPlain(b) && |code| > 0 && CodeChars(code)
    ensures ProtectSpec(Corrected, Inline, a + "`" + code + "`" + b, 0)
      == (a + Placeholder(Corrected, Inline, 0) + b, [Wrap(Inline, code)])
  {
    var rest := "`" + code + "`" + b;
    assert a + "`" + code + "`" + b == a + rest;
    ProtectPrefix(Corrected, Inline, a, rest, 0);
    assert '`' !in code && '`' !in b by {
      assert forall i :: 0 <= i < |code| ==> code[i] != '`';
      assert forall i :: 0 <= i < |b| ==> b[i] != '`';
    }
    InlineSpanProtected(Corrected, code, b, 0);
    AppendAssoc(a, Placeholder(Corrected, Inline, 0), b);
  }

  /** The characters of the protected line: prose and one corrected placeholder. */
  lemma {:induction false} ProtectedLineChars(a: string, b: string)
    requires AllPlain(a) && AllPlain(b)
    ensures var m := a + Placeholder(Corrected, Inline, 0) + b;
      m[|a|] == Sentinel && (forall j :: 0 <= j < |m| ==> LineChar(m[j])) &&
      (|a| > 0 ==> m[0] == a[0])
  {
    var ph := Placeholder(Corrected, Inline, 0);
    var d := NatToString(0);
    assert ph == [Sentinel, 'I'] + d + [Sentinel];
    assert forall i :: 0 <= i < |ph| ==> LineChar(ph[i]) by {
      assert forall i :: 0 <= i < |d| ==> IsAsciiDigit(d[i]);
      assert forall i :: 2 <= i < 2 + |d| ==> ph[i] == d[i - 2];
    }
    var m := a + ph + b;
    forall j | 0 <= j < |m| ensures LineChar(m[j]) {
      if j < |a| {
        assert m[j] == a[j];
      } else if j < |a| + |ph| {
        assert m[j] == ph[j - |a|];
      } else {
        assert m[j] == b[j - |a| - |ph|];
      }
    }
  }

  /** The protected line passes the rewrites, the list pass and the quote pass
      unchanged, and the paragraph pass wraps it. */
  lemma {:induction false} ProtectedLineParagraph(m: string, a0: char)
    requires |m| > 0 && (forall j :: 0 <= j < |m| ==> LineChar(m[j])) && Sentinel in m
    requires m[0] == Sentinel || (m[0] == a0 && !IsJsSpace(a0) && a0 != '+' && !IsAsciiDigit(a0) && IsPlainChar(a0))
    ensures forall i :: 0 <= i < |MidRules| ==> ValidRule(MidRules[i])
    ensures ParagraphPass(Corrected, QuotePass(ListPass(Corrected, ApplyAll(MidRules, m)))) == "<p>\n" + m + "\n</p>"
  {
    PipelineRulesSpare();
    RulesPlain(MidRules, m);
    assert MdLists.MatchItem(m).None? by {
      RunEndAt(m, 0, MdLists.IsNotJsSpace, 0);
    }
    assert '\n' !in m && '<' !in m;
    ListPassPlain(Corrected, m);
    NoLeadUnchanged(Quote, m, true);
    NoLeadUnchanged(Literal(MdRewrites.QuoteSeam, "\n"), m, true);
    assert !Blank(m);
    ParagraphPassPlain(Corrected, m);
  }

  /** Restoring fenced spans passes over an inline placeholder: its second character
      is no `B`, and no closing sentinel follows its last one. */
  lemma {:induction false} FencedRestoreSkips(x: string, y: string, stored: seq<string>)
    requires Sentinel !in x && Sentinel !in y
    ensures var ph := Placeholder(Corrected, Inline, 0);
      Apply(RestoreRule(Corrected, Fenced, stored), x + ph + y) == x + ph + y
  {
    var r := RestoreRule(Corrected, Fenced, stored);
    var ph := Placeholder(Corrected, Inline, 0);
    var d := NatToString(0);
    assert ph == [Sentinel, 'I'] + d + [Sentinel];
    var mid := ['I'] + d;
    var tail := [Sentinel] + y;
    assert NoLead(r, x);
    assert NoLead(r, mid) by {
      assert forall i :: 0 <= i < |d| ==> IsAsciiDigit(d[i]);
      assert forall i :: 1 <= i < |mid| ==> mid[i] == d[i - 1];
    }
    assert NoLead(r, y);
    var t := [Sentinel] + (mid + tail);
    assert x + ph + y == x + t;
    ScanSkips(r, x, t, true);
    var ls := LineStartAfter(x, true);
    assert t[1] == 'I';
    InlineIsNoFenced(t, stored, ls);
    ScanMiss(r, t, ls);
    assert t[1..] == mid + tail;
    ScanSkips(r, mid, tail, false);
    assert Match(r, tail, false).None? by {
      NoLaterCloser(tail, stored);
    }
    ScanMiss(r, tail, LineStartAfter(mid, false));
    assert tail[1..] == y;
    NoLeadUnchanged(r, y, false);
  }

  /** The fenced restoring pattern needs a `B` after the sentinel. */
  lemma {:induction false} InlineIsNoFenced(t: string, stored: seq<string>, lineStart: bool)
    requires |t| > 1 && t[1] == 'I'
    ensures Match(RestoreRule(Corrected, Fenced, stored), t, lineStart).None?
  {
    assert !StartsWith(t, PlaceholderPrefix(Corrected, Fenced)) by {
      assert PlaceholderPrefix(Corrected, Fenced)[1] == 'B';
    }
  }

  /** The fenced restoring pattern needs a closing sentinel after the digits. */
  lemma {:induction false} NoLaterCloser(t: string, stored: seq<string>)
    requires |t| > 0 && forall i :: 1 <= i < |t| ==> t[i] != Sentinel
    ensures MatchRestore(PlaceholderPrefix(Corrected, Fenced), PlaceholderCloser(Corrected), stored, t).None?
  {
  }

  /** Restoring inline spans puts the stored markup in place of the placeholder. */
  lemma {:induction false} InlineRestores(x: string, y: string, stored: seq<string>)
    requires Sentinel !in x && Sentinel !in y && |stored| > 0
    ensures var ph := Placeholder(Corrected, Inline, 0);
      Apply(RestoreRule(Corrected, Inline, stored), x + ph + y) == x + stored[0] + y
  {
    var r := RestoreRule(Corrected, Inline, stored);
    var ph := Placeholder(Corrected, Inline, 0);
    assert NoLead(r, x) && NoLead(r, y);
    AppendAssoc(x, ph, y);
    ScanSkips(r, x, ph + y, true);
    ScanPlaceholder(Corrected, Inline, stored, 0, y, LineStartAfter(x, true));
    NoLeadUnchanged(r, y, IsLineTerminator(ph[|ph| - 1]));
    AppendAssoc(x, stored[0], y);
  }

  /** With the corrected placeholders, a line of prose holding one inline code span is
      rendered as a paragraph with the span's `<code>` markup in place: the span's
      text, Markdown syntax included, comes through untouched. */
  lemma {:induction false} CorrectedInlineCodeRenders(a: string, code: string, b: string)
    requires AllPlain(a) && AllPlain(b) && NoItemStart(a)
    requires |code| > 0 && CodeChars(code)
    ensures RenderMarkdown(Corrected, a + "`" + code + "`" + b) == "<p>\n" + a + Wrap(Inline, code) + b + "\n</p>"
  {
    var l := a + "`" + code + "`" + b;
    var ph := Placeholder(Corrected, Inline, 0);
    var m := a + ph + b;
    CodeLineProtected(a, code, b);
    ProtectedLineChars(a, b);
    assert Sentinel in m;
    var a0 := if |a| > 0 then a[0] else Sentinel;
    ProtectedLineParagraph(m, a0);
    var x := "<p>\n" + a;
    var y := b + "\n</p>";
    ParagraphFrame(a, ph, b, Wrap(Inline, code));
    FencedRestoreSkips(x, y, []);
    InlineRestores(x, y, [Wrap(Inline, code)]);
  }

  /** The paragraph around the line, split around the placeholder; the sentinel occurs
      in neither part. */
  lemma {:induction false} ParagraphFrame(a: string, ph: string, b: string, w: string)
    requires AllPlain(a) && AllPlain(b)
    ensures "<p>\n" + (a + ph + b) + "\n</p>" == ("<p>\n" + a) + ph + (b + "\n</p>")
    ensures ("<p>\n" + a) + w + (b + "\n</p>") == "<p>\n" + a + w + b + "\n</p>"
    ensures Sentinel !in "<p>\n" + a && Sentinel !in b + "\n</p>"
  {
    var x := "<p>\n" + a;
    var y := b + "\n</p>";
    forall i | 0 <= i < |x| ensures x[i] != Sentinel {
      if i >= 4 {
        assert x[i] == a[i - 4];
      }
    }
    forall i | 0 <= i < |y| ensures y[i] != Sentinel {
      if i < |b| {
        assert y[i] == b[i];
      }
    }
  }
}
