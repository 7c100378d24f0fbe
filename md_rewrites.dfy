/** What the individual rewrites of the Markdown renderer do to the text they are
    meant for: headings, horizontal rules, emphasis, links and images, block quotes
    and the merging of adjacent block quotes. */
module MdRewrites {
  import opened Wrappers
  import opened Text
  import opened MdPasses

  predicate OneLine(l: string) {
    forall i :: 0 <= i < |l| ==> !IsLineTerminator(l[i])
  }

  /** On a single line a `^…$` rule either rewrites the whole line or nothing. */
  lemma {:induction false} AnchoredOnLine(r: Rule, l: string)
    requires ValidRule(r) && Anchored(r) && OneLine(l) && |l| > 0
    ensures Apply(r, l) == (match Match(r, l, true) case Some(h) => h.rep + Scan(r, l[h.len..], false) case None => l)
  {
    match Match(r, l, true)
    case Some(h) =>
      assert !IsLineTerminator(l[h.len - 1]);
    case None =>
      AnchoredMidLine(r, l[1..]);
      assert l == [l[0]] + l[1..];
  }

  /** The six heading passes, `######` first and `#` last. */
  function HeadingPasses(level: nat, s: string): string
    requires level <= 6
  {
    if level == 0 then s else HeadingPasses(level - 1, Apply(Heading(level), s))
  }

  predicate IsNotHash(c: char) { c != '#' }

  /** The heading level a line asks for: one to six `#` and then a space. */
  function HeadingLevel(l: string): (r: Option<nat>)
    ensures r.Some? ==> 1 <= r.value <= 6 && r.value < |l| && l[r.value] == ' '
  {
    var k := RunEnd(l, 0, IsNotHash);
    if 1 <= k <= 6 && k < |l| && l[k] == ' ' then Some(k) else None
  }

  lemma {:induction false} HeadingLevelIff(l: string, k: nat)
    requires 1 <= k <= 6
    ensures StartsWith(l, Repeat('#', k) + " ") <==> HeadingLevel(l) == Some(k)
  {
    var h := Repeat('#', k) + " ";
    var e := RunEnd(l, 0, IsNotHash);
    if StartsWith(l, h) {
      assert l[k] == h[k] == ' ';
      assert forall i :: 0 <= i < k ==> l[i] == h[i] == '#';
      assert e == k;
    }
    if HeadingLevel(l) == Some(k) {
      assert e == k;
      assert l[..k + 1] == h;
    }
  }

  lemma {:induction false} HeadingPassOnLine(k: nat, l: string)
    requires 1 <= k <= 6 && OneLine(l)
    ensures Apply(Heading(k), l) == if HeadingLevel(l) == Some(k) then HeadingHtml(k, l[k + 1..]) else l
  {
    HeadingLevelIff(l, k);
    if |l| > 0 {
      AnchoredOnLine(Heading(k), l);
      if HeadingLevel(l) == Some(k) {
        var e := LineEnd(l, k + 1);
        assert e == |l|;
        assert l[k + 1..e] == l[k + 1..];
        assert MatchHeading(k, l, true) == Some(Hit(|l|, HeadingHtml(k, l[k + 1..])));
        assert l[|l|..] == "";
      }
    }
  }

  lemma {:induction false} HeadingHtmlNotHeading(k: nat, c: string)
    ensures OneLine(c) ==> OneLine(HeadingHtml(k, c))
    ensures HeadingLevel(HeadingHtml(k, c)) == None
  {
    var h := HeadingHtml(k, c);
    assert h[0] == '<';
    assert RunEnd(h, 0, IsNotHash) == 0;
    if OneLine(c) {
      var d := NatToString(k);
      assert forall i :: 0 <= i < |d| ==> IsAsciiDigit(d[i]);
      assert h == "<h" + d + ">" + c + "</h" + d + ">";
      forall i | 0 <= i < |h| ensures !IsLineTerminator(h[i]) {
        if i < 2 + |d| + 1 + |c| {
          if i < 2 + |d| + 1 {
            if i >= 2 && i < 2 + |d| {
              assert h[i] == d[i - 2];
            }
          } else {
            assert h[i] == c[i - 3 - |d|];
          }
        } else {
          var j := i - (2 + |d| + 1 + |c|);
          var tail := "</h" + d + ">";
          assert h[i] == tail[j];
          if 3 <= j < 3 + |d| {
            assert tail[j] == d[j - 3];
          }
        }
      }
    }
  }

  /** What the heading passes up to the given level make of one line. */
  function HeadingResult(n: nat, l: string): string {
    match HeadingLevel(l)
    case Some(k) => if k <= n then HeadingHtml(k, l[k + 1..]) else l
    case None => l
  }

  lemma {:induction false} RestOfLine(l: string, k: nat)
    requires OneLine(l) && k <= |l|
    ensures OneLine(l[k..])
  {
    var m := l[k..];
    forall i | 0 <= i < |m| ensures !IsLineTerminator(m[i]) {
      assert m[i] == l[k + i];
    }
  }

  /** A line of k `#` (k from 1 to 6) and a space becomes an `<hk>` heading of the
      rest of the line, whatever passes follow it; any other line is untouched. */
  lemma {:induction false} HeadingsOnLine(n: nat, l: string)
    requires n <= 6 && OneLine(l)
    ensures HeadingPasses(n, l) == HeadingResult(n, l)
    decreases n, 1
  {
    if n > 0 {
      if HeadingLevel(l) == Some(n) {
        HeadingStep(n, l);
      } else {
        HeadingSkip(n, l);
        PassUnchanged(n, l);
      }
    }
  }

  /** A pass of another level leaves the line to the lower passes. */
  lemma {:induction false} HeadingSkip(n: nat, l: string)
    requires 1 <= n <= 6 && OneLine(l) && HeadingLevel(l) != Some(n)
    ensures Apply(Heading(n), l) == l
    ensures HeadingPasses(n - 1, l) == HeadingResult(n, l)
    decreases n, 0
  {
    HeadingPassSkips(n, l);
    HeadingsOnLine(n - 1, l);
    HeadingResultSkip(n, l);
  }

  lemma {:induction false} HeadingPassSkips(k: nat, l: string)
    requires 1 <= k <= 6 && OneLine(l) && HeadingLevel(l) != Some(k)
    ensures Apply(Heading(k), l) == l
  {
    HeadingPassOnLine(k, l);
  }

  lemma {:induction false} PassUnchanged(n: nat, l: string)
    requires 1 <= n <= 6 && Apply(Heading(n), l) == l
    ensures HeadingPasses(n, l) == HeadingPasses(n - 1, l)
  {
  }

  lemma {:induction false} HeadingResultSkip(n: nat, l: string)
    requires 1 <= n && HeadingLevel(l) != Some(n)
    ensures HeadingResult(n - 1, l) == HeadingResult(n, l)
  {
  }

  lemma {:induction false} HeadingStep(n: nat, l: string)
    requires 1 <= n <= 6 && OneLine(l) && HeadingLevel(l) == Some(n)
    ensures HeadingPasses(n, l) == HeadingResult(n, l)
    decreases n, 0
  {
    HeadingPassOnLine(n, l);
    var h := HeadingHtml(n, l[n + 1..]);
    assert HeadingPasses(n, l) == HeadingPasses(n - 1, h);
    RestOfLine(l, n + 1);
    HeadingHtmlNotHeading(n, l[n + 1..]);
    HeadingsOnLine(n - 1, h);
    assert HeadingResult(n - 1, h) == h;
  }

  /** A line of k `#` and a space: its heading level is k when k is from 1 to 6 and
      none otherwise. */
  lemma {:induction false} HashLineLevel(k: nat, rest: string)
    ensures HeadingLevel(Repeat('#', k) + " " + rest) == if 1 <= k <= 6 then Some(k) else None
    ensures (Repeat('#', k) + " " + rest)[k + 1..] == rest
  {
    var l := Repeat('#', k) + " " + rest;
    assert l[k] == ' ';
    forall j | 0 <= j < k ensures !IsNotHash(l[j]) {
      assert l[j] == Repeat('#', k)[j];
    }
    RunEndAt(l, 0, IsNotHash, k);
  }

  /** After all six heading passes, k `#` and a space make an `<hk>` heading for k
      from 1 to 6, so `###### six` is a level-six heading and not a level-one heading
      of `##### six`; seven or more `#` are no heading. */
  lemma {:induction false} HashLine(k: nat, rest: string)
    requires OneLine(rest)
    ensures HeadingPasses(6, Repeat('#', k) + " " + rest)
      == if 1 <= k <= 6 then HeadingHtml(k, rest) else Repeat('#', k) + " " + rest
  {
    var l := Repeat('#', k) + " " + rest;
    assert OneLine(l) by {
      forall i | 0 <= i < |l| ensures !IsLineTerminator(l[i]) {
        if i < k { assert l[i] == '#'; } else if i > k { assert l[i] == rest[i - k - 1]; }
      }
    }
    HashLineLevel(k, rest);
    HeadingsOnLine(6, l);
  }

  /** A line that is exactly `---` (or `***`) becomes `<hr>`; any other line stays. */
  lemma {:induction false} HorizontalRuleOnLine(m: char, l: string)
    requires OneLine(l)
    ensures Apply(HorizontalRule(m), l) == if l == [m, m, m] then "<hr>" else l
  {
    if |l| > 0 {
      AnchoredOnLine(HorizontalRule(m), l);
      if l == [m, m, m] {
        assert l[3..] == "";
      } else if StartsWith(l, [m, m, m]) && |l| > 3 {
        assert l[..3] == [m, m, m];
        assert !IsLineTerminator(l[3]);
      }
    }
  }

  /** `***` is left alone by both star emphasis passes, so it reaches the rule pass. */
  lemma {:induction false} ThreeStarsSurviveEmphasis()
    ensures Apply(Emphasis('*', 2, "strong"), "***") == "***"
    ensures Apply(Emphasis('*', 1, "em"), "***") == "***"
  {
    var t := "***";
    assert RunEnd(t, 2, x => x == '*') == 2;
    assert RunEnd(t[1..], 2, x => x == '*') == 2;
    assert RunEnd(t, 1, x => x == '*') == 1;
    assert RunEnd(t[1..], 1, x => x == '*') == 1;
    assert RunEnd(t[2..], 1, x => x == '*') == 1;
    assert t[1..][1..] == t[2..];
    assert t[2..][1..] == "";
    assert Apply(Emphasis('*', 2, "strong"), t) == [t[0]] + Scan(Emphasis('*', 2, "strong"), t[1..], false);
  }

  /** A delimiter, a run without the delimiter, the delimiter: wrapped in the tag. */
  lemma {:induction false} EmphasisWraps(c: char, w: nat, tag: string, x: string, rest: string)
    requires (w == 1 || w == 2) && |x| > 0 && c !in x && c !in rest
    ensures Apply(Emphasis(c, w, tag), Repeat(c, w) + x + Repeat(c, w) + rest)
      == "<" + tag + ">" + x + "</" + tag + ">" + rest
  {
    var r := Emphasis(c, w, tag);
    var d := Repeat(c, w);
    var t := d + x + d + rest;
    assert t[..w] == d;
    var e := RunEnd(t, w, y => y == c);
    assert forall i :: w <= i < w + |x| ==> t[i] == x[i - w];
    assert t[w + |x|] == c;
    assert e == w + |x|;
    assert t[e..] == d + rest;
    assert t[w..e] == x;
    assert t[e + w..] == rest;
    assert Match(r, t, true) == Some(Hit(e + w, "<" + tag + ">" + x + "</" + tag + ">"));
    assert NoLead(r, rest);
    NoLeadUnchanged(r, rest, IsLineTerminator(t[e + w - 1]));
  }

  /** `* a` / `* b` is taken for emphasis before lists are looked at: the two list
      markers become `<em>` and `</em>`. */
  lemma {:induction false} StarListEatenByItalic(a: string, b: string)
    requires '*' !in a && '*' !in b
    ensures Apply(Emphasis('*', 1, "em"), "* " + a + "\n* " + b) == "<em> " + a + "\n</em> " + b
  {
    var x := " " + a + "\n";
    var rest := " " + b;
    assert '*' !in x by { assert forall i :: 1 <= i < |x| - 1 ==> x[i] == a[i - 1]; }
    assert '*' !in rest by { assert forall i :: 1 <= i < |rest| ==> rest[i] == b[i - 1]; }
    EmphasisWraps('*', 1, "em", x, rest);
    assert Repeat('*', 1) == "*";
    assert "*" + x + "*" + rest == "* " + a + "\n* " + b;
    assert "<em>" + x + "</em>" + rest == "<em> " + a + "\n</em> " + b;
  }

  /** A line `&gt; ` followed by at least one character becomes a block quote. */
  lemma {:induction false} QuoteOnLine(l: string)
    requires OneLine(l)
    ensures Apply(Quote, l) ==
      if StartsWith(l, "&gt; ") && |l| > 5 then "<blockquote>" + l[5..] + "</blockquote>" else l
  {
    if |l| > 0 {
      AnchoredOnLine(Quote, l);
      if StartsWith(l, "&gt; ") && |l| > 5 {
        assert LineEnd(l, 5) == |l|;
        assert l[|l|..] == "";
      } else if StartsWith(l, "&gt; ") {
        assert LineEnd(l, 5) == 5;
      }
    }
  }

  const QuoteSeam: string := "</blockquote>\n<blockquote>"

  /** Text opening with the seam's first character but shorter than the seam, with no
      further `<`, is kept. */
  lemma {:induction false} ShortTagKept(r: Rule, c: string, lineStart: bool)
    requires r.Literal? && ValidRule(r) && |c| > 0 && |c| < |r.pattern|
    requires forall i :: 1 <= i < |c| ==> c[i] != r.pattern[0]
    ensures Scan(r, c, lineStart) == c
  {
    ScanMiss(r, c, lineStart);
    var c' := c[1..];
    assert NoLead(r, c') by {
      forall i | 0 <= i < |c'| ensures c'[i] != Lead(r) {
        assert c'[i] == c[i + 1];
      }
    }
    NoLeadUnchanged(r, c', IsLineTerminator(c[0]));
    assert c == [c[0]] + c';
  }

  /** The pattern, text without its first character, and a short closing tag: only
      the pattern is replaced. */
  lemma {:induction false} LiteralBeforeTag(r: Rule, b: string, close: string, lineStart: bool)
    requires r.Literal? && ValidRule(r)
    requires |close| > 0 && |close| < |r.pattern|
    requires forall i :: 1 <= i < |close| ==> close[i] != r.pattern[0]
    requires NoLead(r, b)
    ensures Scan(r, r.pattern + b + close, lineStart) == r.replacement + b + close
  {
    var p := r.pattern;
    var t2 := p + b + close;
    var ls2 := IsLineTerminator(p[|p| - 1]);
    assert Scan(r, t2, lineStart) == r.replacement + Scan(r, b + close, ls2) by {
      assert t2[..|p|] == p;
      ScanHit(r, t2, lineStart, Hit(|p|, r.replacement));
      assert t2[|p|..] == b + close;
      assert t2[|p| - 1] == p[|p| - 1];
    }
    assert Scan(r, b + close, ls2) == b + close by {
      ScanSkips(r, b, close, ls2);
      ShortTagKept(r, close, LineStartAfter(b, ls2));
    }
    AppendAssoc(r.replacement, b, close);
  }

  /** An opening tag that starts like the pattern but differs at its second
      character, followed by the rest: the tag passes through. */
  lemma {:induction false} OpenTagPasses(r: Rule, open: string, rest: string)
    requires r.Literal? && ValidRule(r)
    requires |open| >= 2 && |r.pattern| >= 2 && open[1] != r.pattern[1]
    requires forall i :: 1 <= i < |open| ==> open[i] != r.pattern[0]
    ensures Apply(r, open + rest) == open + Scan(r, rest, IsLineTerminator(open[|open| - 1]))
  {
    var p := r.pattern;
    var t := open + rest;
    var tail := open[1..];
    var ls := IsLineTerminator(open[0]);
    assert Scan(r, t, true) == [open[0]] + Scan(r, tail + rest, ls) by {
      assert !StartsWith(t, p) by {
        if |p| <= |t| {
          assert t[..|p|][1] == open[1];
        }
      }
      ScanMiss(r, t, true);
      assert t[1..] == tail + rest;
    }
    assert NoLead(r, tail) by {
      forall i | 0 <= i < |tail| ensures tail[i] != Lead(r) {
        assert tail[i] == open[i + 1];
      }
    }
    assert Scan(r, tail + rest, ls) == tail + Scan(r, rest, IsLineTerminator(open[|open| - 1])) by {
      ScanSkips(r, tail, rest, ls);
      assert tail[|tail| - 1] == open[|open| - 1];
    }
    assert open == [open[0]] + tail;
    AppendAssoc([open[0]], tail, Scan(r, rest, IsLineTerminator(open[|open| - 1])));
  }

  /** A fixed-string rewrite of a pattern between an opening and a closing tag whose
      only occurrence of the pattern's first character is their first one, and which
      do not begin the pattern: only the pattern in the middle is replaced. */
  lemma {:induction false} LiteralBetweenTags(r: Rule, open: string, a: string, b: string, close: string)
    requires r.Literal? && ValidRule(r)
    requires |open| >= 2 && |r.pattern| >= 2 && open[1] != r.pattern[1]
    requires forall i :: 1 <= i < |open| ==> open[i] != r.pattern[0]
    requires |close| > 0 && |close| < |r.pattern|
    requires forall i :: 1 <= i < |close| ==> close[i] != r.pattern[0]
    requires NoLead(r, a) && NoLead(r, b)
    ensures Apply(r, open + a + r.pattern + b + close) == open + a + r.replacement + b + close
  {
    var p := r.pattern;
    var tail := p + b + close;
    var rest := a + tail;
    var ls := IsLineTerminator(open[|open| - 1]);
    calc {
      Apply(r, open + a + p + b + close);
      {
        AppendAssoc(open + a, p, b);
        AppendAssoc(open + a, p + b, close);
        AppendAssoc(open, a, tail);
      }
      Apply(r, open + rest);
      { OpenTagPasses(r, open, rest); }
      open + Scan(r, a + tail, ls);
      { ScanSkips(r, a, tail, ls); }
      open + (a + Scan(r, tail, LineStartAfter(a, ls)));
      { LiteralBeforeTag(r, b, close, LineStartAfter(a, ls)); }
      open + (a + (r.replacement + b + close));
      { AppendAssoc(open, a, r.replacement + b + close); }
      open + a + r.replacement + b + close;
    }
  }

  /** Two adjacent quoted lines become one block quote of two lines. */
  lemma {:induction false} QuotesMerge(a: string, b: string)
    requires '<' !in a && '<' !in b
    ensures Apply(Literal(QuoteSeam, "\n"), "<blockquote>" + a + QuoteSeam + b + "</blockquote>")
      == "<blockquote>" + a + "\n" + b + "</blockquote>"
  {
    var open := "<blockquote>";
    var close := "</blockquote>";
    assert QuoteSeam[0] == '<' && QuoteSeam[1] == '/' && open[1] == 'b';
    assert forall i :: 1 <= i < |open| ==> open[i] != '<';
    assert forall i :: 1 <= i < |close| ==> close[i] != '<';
    LiteralBetweenTags(Literal(QuoteSeam, "\n"), open, a, b, close);
  }

  /** A link without a title: text, then the URL up to the closing parenthesis. */
  lemma {:induction false} LinkWithoutTitle(text: string, url: string, rest: string)
    requires |text| > 0 && ']' !in text && |url| > 0 && ')' !in url && '"' !in url
    ensures MatchLinkParts("[" + text + "](" + url + ")" + rest)
      == Some(LinkParts(|text| + |url| + 4, text, url, None))
  {
    var t := "[" + text + "](" + url + ")" + rest;
    assert forall i :: 1 <= i < 1 + |text| ==> t[i] == text[i - 1];
    assert t[1 + |text|] == ']';
    assert RunEnd(t, 1, IsCloseBracket) == 1 + |text|;
    var k := |text| + 3;
    assert forall i :: k <= i < k + |url| ==> t[i] == url[i - k];
    assert t[k + |url|] == ')';
    assert RunEnd(t, k, IsUrlStop) == k + |url|;
    assert t[1..1 + |text|] == text;
    assert t[k..k + |url|] == url;
  }

  /** The href value cannot end early: it is the URL, which holds no quote, and it
      is followed by the closing quote, then by the title attribute exactly when a
      title was captured; the link always opens in a new, unrelated tab. */
  lemma {:induction false} LinkHtmlShape(p: LinkParts)
    ensures StartsWith(LinkHtml(p), "<a href=\"" + p.url + "\"")
    ensures var after := LinkHtml(p)[|"<a href=\"" + p.url + "\""|..];
      if p.title.Some? then StartsWith(after, " title=\"" + p.title.value + "\"")
      else after == " target=\"_blank\" rel=\"noopener noreferrer\">" + p.text + "</a>"
    ensures EndsWith(LinkHtml(p), " target=\"_blank\" rel=\"noopener noreferrer\">" + p.text + "</a>")
  {
    var h := "<a href=\"" + p.url + "\"";
    var titleAttr := if p.title.Some? then " title=\"" + p.title.value + "\"" else "";
    var tail := " target=\"_blank\" rel=\"noopener noreferrer\">" + p.text + "</a>";
    var html := LinkHtml(p);
    assert html == h + titleAttr + tail;
    assert html[|h|..] == titleAttr + tail;
    assert html[..|h|] == h;
    assert html[|html| - |tail|..] == tail;
    if p.title.Some? {
      assert (titleAttr + tail)[..|titleAttr|] == titleAttr;
    } else {
      assert titleAttr + tail == tail;
    }
  }

  /** Links are rewritten before images, so an image with a non-empty alt text and a
      URL without a quote turns into `!` followed by a link. */
  lemma {:induction false} ImageWithAltBecomesLink(alt: string, url: string)
    requires |alt| > 0 && ']' !in alt && |url| > 0 && ')' !in url && '"' !in url
    ensures Apply(Link, "![" + alt + "](" + url + ")")
      == "!" + LinkHtml(LinkParts(|alt| + |url| + 4, alt, url, None))
  {
    var t1 := "[" + alt + "](" + url + ")";
    var p := LinkParts(|alt| + |url| + 4, alt, url, None);
    assert Scan(Link, t1, false) == LinkHtml(p) by {
      assert t1 + "" == t1;
      LinkWithoutTitle(alt, url, "");
      assert MatchLink(t1) == Some(Hit(|t1|, LinkHtml(p)));
      ScanHit(Link, t1, false, Hit(|t1|, LinkHtml(p)));
      assert t1[|t1|..] == "";
    }
    var t := "![" + alt + "](" + url + ")";
    assert t == "!" + t1;
    ScanStep(Link, t, true);
    assert t[1..] == t1;
  }

  /** An image with an empty alt text is not a link: the link pattern needs at least
      one character between the brackets. */
  lemma {:induction false} EmptyAltIsNoLink(url: string)
    requires '[' !in url
    ensures Apply(Link, "![](" + url + ")") == "![](" + url + ")"
  {
    var t := "![](" + url + ")";
    assert RunEnd(t[1..], 1, IsCloseBracket) == 1 by {
      RunEndAt(t[1..], 1, IsCloseBracket, 1);
    }
    assert MatchLinkParts(t[1..]) == None;
    ScanStep(Link, t, true);
    ScanMiss(Link, t[1..], false);
    assert t[1..][1..] == t[2..];
    assert NoLead(Link, t[2..]);
    NoLeadUnchanged(Link, t[2..], false);
    assert t == [t[0]] + ([t[1]] + t[2..]);
  }

  /** Where the pieces of `![alt](url)` sit. */
  lemma {:induction false} ImageTextShape(alt: string, url: string)
    ensures var t := "![" + alt + "](" + url + ")"; var j := 2 + |alt|;
      |t| == j + |url| + 3 && t[0] == '!' && t[1] == '[' && t[j] == ']' && t[j + 1] == '(' && t[|t| - 1] == ')' &&
      (forall i :: 0 <= i < |alt| ==> t[2 + i] == alt[i]) &&
      (forall i :: 0 <= i < |url| ==> t[j + 2 + i] == url[i]) &&
      t[2..j] == alt && t[j + 2..|t| - 1] == url
  {
  }

  /** The image pattern at the start of t, given where its runs end. */
  lemma {:induction false} ImageAt(t: string, j: nat, u: nat)
    requires |t| > 1 && t[0] == '!' && t[1] == '[' && j + 1 < |t| && t[j + 1] == '('
    requires RunEnd(t, 2, IsCloseBracket) == j && RunEnd(t, j + 2, IsCloseParen) == u
    requires j + 2 < u && u + 1 == |t|
    ensures Apply(Image, t) == ImageHtml(t[2..j], t[j + 2..u])
  {
    assert StartsWith(t, "![");
    var h := Hit(u + 1, ImageHtml(t[2..j], t[j + 2..u]));
    assert MatchImage(t) == Some(h);
    ScanHit(Image, t, true, h);
    assert t[|t|..] == "";
  }

  /** The image rule turns `![alt](url)` into an `<img>`, the URL copied into `src`
      and the alt text into `alt` as they are. */
  lemma {:induction false} ImageRewrites(alt: string, url: string)
    requires ']' !in alt && |url| > 0 && ')' !in url
    ensures Apply(Image, "![" + alt + "](" + url + ")") == ImageHtml(alt, url)
  {
    var t := "![" + alt + "](" + url + ")";
    ImageTextShape(alt, url);
    var j := 2 + |alt|;
    forall i | 2 <= i < j ensures !IsCloseBracket(t[i]) {
      assert t[2 + (i - 2)] == alt[i - 2];
    }
    RunEndAt(t, 2, IsCloseBracket, j);
    forall i | j + 2 <= i < |t| - 1 ensures !IsCloseParen(t[i]) {
      assert t[j + 2 + (i - j - 2)] == url[i - j - 2];
    }
    RunEndAt(t, j + 2, IsCloseParen, |t| - 1);
    ImageAt(t, j, |t| - 1);
  }

  /** An image with an empty alt text therefore reaches the image rule, which turns it
      into an `<img>` with that URL. */
  lemma {:induction false} EmptyAltImage(url: string)
    requires |url| > 0 && ')' !in url
    ensures Apply(Image, "![](" + url + ")") == ImageHtml("", url)
  {
    assert "![" + "" + "](" + url + ")" == "![](" + url + ")";
    ImageRewrites("", url);
  }

  /** The link pattern fails when its URL run stops at a quote that no whitespace
      precedes. */
  lemma {:induction false} LinkStopsAtQuote(s: string, j: nat, u: nat)
    requires |s| > 0 && s[0] == '[' && 1 < j && j + 1 < |s| && s[j + 1] == '('
    requires RunEnd(s, 1, IsCloseBracket) == j && RunEnd(s, j + 2, IsUrlStop) == u
    requires u < |s| && s[u] == '"' && !(u - 1 > j + 2 && IsJsSpace(s[u - 1]))
    ensures MatchLinkParts(s) == None
  {
  }

  /** A URL holding a quote and no whitespace defeats the link pattern: `[^)"]+` stops
      at the quote, which neither `)` nor a whitespace-led title can follow. */
  lemma {:induction false} QuotedUrlMissesLink(alt: string, url: string)
    requires ']' !in alt && ')' !in url && '"' in url
    requires forall i :: 0 <= i < |url| ==> !IsJsSpace(url[i])
    ensures MatchLinkParts(("![" + alt + "](" + url + ")")[1..]) == None
  {
    var t := "![" + alt + "](" + url + ")";
    ImageTextShape(alt, url);
    var s := t[1..];
    var j := 1 + |alt|;
    forall i | 1 <= i < j ensures !IsCloseBracket(s[i]) {
      assert s[i] == t[2 + (i - 1)] == alt[i - 1];
    }
    assert s[j] == t[j + 1];
    RunEndAt(s, 1, IsCloseBracket, j);
    if j > 1 {
      forall i | 0 <= i < |url| ensures s[j + 2 + i] == url[i] {
        assert s[j + 2 + i] == t[(2 + |alt|) + 2 + i];
      }
      var u := QuoteStopsUrlRun(s, j + 2, url);
      LinkStopsAtQuote(s, j, u);
    }
  }

  /** Where the URL run of the link pattern ends when the URL holds a quote and no
      whitespace: at a quote inside the URL, after no whitespace. */
  lemma {:induction false} QuoteStopsUrlRun(s: string, k: nat, url: string) returns (u: nat)
    requires k + |url| <= |s| && ')' !in url && '"' in url
    requires forall i :: 0 <= i < |url| ==> !IsJsSpace(url[i])
    requires forall i :: 0 <= i < |url| ==> s[k + i] == url[i]
    ensures u == RunEnd(s, k, IsUrlStop) && u < |s| && s[u] == '"' && !(u - 1 > k && IsJsSpace(s[u - 1]))
  {
    var m :| 0 <= m < |url| && url[m] == '"';
    assert s[k + m] == url[m];
    u := RunEnd(s, k, IsUrlStop);
    assert u <= k + m;
    assert s[k + (u - k)] == url[u - k];
    if u - 1 > k {
      assert s[k + (u - 1 - k)] == url[u - 1 - k];
    }
  }

  /** So the link rule leaves such an image as it is. */
  lemma {:induction false} QuotedUrlIsNoLink(alt: string, url: string)
    requires '[' !in alt && ']' !in alt && '[' !in url && ')' !in url && '"' in url
    requires forall i :: 0 <= i < |url| ==> !IsJsSpace(url[i])
    ensures Apply(Link, "![" + alt + "](" + url + ")") == "![" + alt + "](" + url + ")"
  {
    var t := "![" + alt + "](" + url + ")";
    QuotedUrlMissesLink(alt, url);
    ImageTextShape(alt, url);
    var s := t[1..];
    ScanStep(Link, t, true);
    ScanMiss(Link, s, false);
    var rest := t[2..];
    assert s[1..] == rest;
    assert NoLead(Link, rest) by {
      var j := 2 + |alt|;
      forall i | 0 <= i < |rest| ensures rest[i] != '[' {
        if i < |alt| {
          assert rest[i] == t[2 + i] == alt[i];
        } else if j + 2 <= i + 2 < |t| - 1 {
          assert rest[i] == t[j + 2 + (i + 2 - j - 2)] == url[i - |alt| - 2];
        }
      }
    }
    NoLeadUnchanged(Link, rest, false);
    assert t == [t[0]] + ([s[0]] + rest);
  }

  /** So such an image, alt text or not, passes the link rule untouched and the image
      rule copies its URL into `src="…"` as it is: the attribute value ends at the
      first quote inside the URL, and the rest of the URL spills into the tag. */
  lemma {:induction false} QuotedUrlImage(alt: string, url: string, q: nat)
    requires '[' !in alt && ']' !in alt && '[' !in url && ')' !in url
    requires forall i :: 0 <= i < |url| ==> !IsJsSpace(url[i])
    requires q < |url| && url[q] == '"' && '"' !in url[..q]
    ensures Apply(Image, Apply(Link, "![" + alt + "](" + url + ")")) == ImageHtml(alt, url)
    ensures StartsWith(ImageHtml(alt, url), "<img src=\"" + url[..q] + "\"")
  {
    assert '"' in url by { assert url[q] == '"'; }
    QuotedUrlIsNoLink(alt, url);
    ImageRewrites(alt, url);
    SrcEndsAtQuote(alt, url, q);
  }

  /** The `src` value of the image tag, read up to its first quote, is the URL up to
      its first quote. */
  lemma {:induction false} SrcEndsAtQuote(alt: string, url: string, q: nat)
    requires q < |url| && url[q] == '"'
    ensures StartsWith(ImageHtml(alt, url), "<img src=\"" + url[..q] + "\"")
  {
    var h := ImageHtml(alt, url);
    var pre := "<img src=\"" + url[..q] + "\"";
    var tail := url[q + 1..] + "\" alt=\"" + alt + "\" />";
    assert url == url[..q] + "\"" + url[q + 1..];
    assert h == pre + tail;
    assert h[..|pre|] == pre;
  }
}
