/** The protected-span table of the Markdown renderer: fenced code blocks and inline
    code spans are cut out of the text, stored in order, and replaced by numbered
    placeholders; at the end each placeholder is replaced by what was stored under
    its number. The renderer as written uses `__CODE_BLOCK_n__` and `__INLINE_CODE_n__`;
    the corrected renderer uses placeholders that no later rewrite can start in. */
module MdCode {
  import opened Wrappers
  import opened Text
  import opened MdPasses

  /** Which placeholders the renderer uses. */
  datatype Style = AsWritten | Corrected

  datatype CodeKind = Fenced | Inline

  /** A private-use character: it occurs in no Markdown syntax and no rewrite starts at it. */
  const Sentinel: char := '\U{E000}'

  function PlaceholderPrefix(style: Style, kind: CodeKind): (p: string)
    ensures |p| >= 2
  {
    match style
    case AsWritten => if kind == Fenced then "__CODE_BLOCK_" else "__INLINE_CODE_"
    case Corrected => [Sentinel, if kind == Fenced then 'B' else 'I']
  }

  function PlaceholderCloser(style: Style): (c: string)
    ensures |c| > 0 && !IsAsciiDigit(c[0])
  {
    match style
    case AsWritten => "__"
    case Corrected => [Sentinel]
  }

  /** The placeholder of the n-th stored span: prefix, decimal index, closer. */
  function Placeholder(style: Style, kind: CodeKind, n: nat): string {
    PlaceholderPrefix(style, kind) + NatToString(n) + PlaceholderCloser(style)
  }

  /** The markup a span is stored as. */
  function Wrap(kind: CodeKind, code: string): string {
    match kind
    case Fenced => "<pre><code>" + code + "</code></pre>"
    case Inline => "<code>" + code + "</code>"
  }

  predicate IsBacktick(c: char) { c == '`' }

  /** Three backticks at position j. */
  predicate FenceAt(t: string, j: nat) {
    j + 3 <= |t| && t[j] == '`' && t[j + 1] == '`' && t[j + 2] == '`'
  }

  /** The first fence at or after k. */
  function FenceFrom(t: string, k: nat): (r: Option<nat>)
    requires k <= |t|
    ensures r.Some? ==> k <= r.value && FenceAt(t, r.value)
    ensures r.Some? ==> forall j :: k <= j < r.value ==> !FenceAt(t, j)
    ensures r.None? ==> forall j :: k <= j <= |t| ==> !FenceAt(t, j)
    decreases |t| - k
  {
    if k + 3 > |t| then None
    else if FenceAt(t, k) then Some(k)
    else FenceFrom(t, k + 1)
  }

  datatype CodeHit = CodeHit(len: nat, code: string)

  /** The code pattern tried at the start of t: ```` ```([\s\S]*?)``` ```` ends at the
      first closing fence; `` `([^`]+)` `` needs at least one character that is not a
      backtick, newlines included. */
  function MatchCode(kind: CodeKind, t: string): (r: Option<CodeHit>)
    requires |t| > 0
    ensures r.Some? ==> 0 < r.value.len <= |t| && t[0] == '`'
    ensures r.Some? && kind == Fenced ==> r.value.len == |r.value.code| + 6 && !FenceAt(r.value.code, 0)
    ensures r.Some? && kind == Inline ==> r.value.len == |r.value.code| + 2 && |r.value.code| > 0 && '`' !in r.value.code
  {
    match kind
    case Fenced =>
      if FenceAt(t, 0) then
        match FenceFrom(t, 3)
        case Some(j) =>
          assert FenceAt(t[3..j], 0) ==> FenceAt(t, 3);
          Some(CodeHit(j + 3, t[3..j]))
        case None => None
      else None
    case Inline =>
      if t[0] == '`' then
        var e := RunEnd(t, 1, IsBacktick);
        if e > 1 && e < |t| then
          assert forall i :: 0 <= i < e - 1 ==> t[1..e][i] == t[i + 1];
          Some(CodeHit(e + 1, t[1..e]))
        else None
      else None
  }

  /** The code pass as a function: the text with every span replaced by its
      placeholder (numbered from n on), and the spans stored in order. */
  function ProtectSpec(style: Style, kind: CodeKind, t: string, n: nat): (r: (string, seq<string>))
    decreases |t|
  {
    if |t| == 0 then ("", [])
    else
      match MatchCode(kind, t)
      case Some(h) =>
        var rest := ProtectSpec(style, kind, t[h.len..], n + 1);
        (Placeholder(style, kind, n) + rest.0, [Wrap(kind, h.code)] + rest.1)
      case None =>
        var rest := ProtectSpec(style, kind, t[1..], n);
        ([t[0]] + rest.0, rest.1)
  }

  /** What the pass is meant to achieve once its placeholders are restored: every
      span replaced by its markup in place. */
  function DirectSpec(kind: CodeKind, t: string): string
    decreases |t|
  {
    if |t| == 0 then ""
    else
      match MatchCode(kind, t)
      case Some(h) => Wrap(kind, h.code) + DirectSpec(kind, t[h.len..])
      case None => [t[0]] + DirectSpec(kind, t[1..])
  }

  /** `html.replace(pattern, (match, code) => { spans.push(…); return placeholder })`:
      the search moves through the text, and each match pushes its markup and emits
      the placeholder numbered by the table's length before the push. */
  method Protect(style: Style, kind: CodeKind, html: string) returns (out: string, stored: seq<string>)
    ensures (out, stored) == ProtectSpec(style, kind, html, 0)
  {
    out := "";
    stored := [];
    var i := 0;
    ProtectedFromStart(style, kind, html);
    while i < |html|
      invariant ProtectedUpTo(style, kind, html, i, out, stored)
      decreases |html| - i
    {
      var hit := MatchCode(kind, html[i..]);
      ghost var i0, out0, stored0 := i, out, stored;
      if hit.Some? {
        out, stored, i := out + Placeholder(style, kind, |stored|), stored + [Wrap(kind, hit.value.code)], i + hit.value.len;
        ProtectAdvanceSpan(style, kind, html, i0, out0, stored0, hit.value, i, out, stored);
      } else {
        out, i := out + [html[i]], i + 1;
        ProtectAdvanceChar(style, kind, html, i0, out0, stored0, i, out);
      }
    }
    ProtectedToEnd(style, kind, html, out, stored);
  }

  /** The loop invariant of Protect: what is emitted and stored so far, followed by
      what the pass makes of the rest, is what it makes of the whole text. */
  predicate ProtectedUpTo(style: Style, kind: CodeKind, html: string, i: nat, out: string, stored: seq<string>) {
    i <= |html| &&
    var r := ProtectSpec(style, kind, html[i..], |stored|);
    var whole := ProtectSpec(style, kind, html, 0);
    out + r.0 == whole.0 && stored + r.1 == whole.1
  }

  lemma {:induction false} ProtectedFromStart(style: Style, kind: CodeKind, html: string)
    ensures ProtectedUpTo(style, kind, html, 0, "", [])
  {
    assert html[0..] == html;
    var whole := ProtectSpec(style, kind, html, 0);
    assert "" + whole.0 == whole.0 && [] + whole.1 == whole.1;
  }

  lemma {:induction false} ProtectedToEnd(style: Style, kind: CodeKind, html: string, out: string, stored: seq<string>)
    requires ProtectedUpTo(style, kind, html, |html|, out, stored)
    ensures (out, stored) == ProtectSpec(style, kind, html, 0)
  {
    assert html[|html|..] == "";
    assert out + "" == out && stored + [] == stored;
  }

  /** An iteration of Protect that replaces a span keeps its invariant. */
  lemma {:induction false} ProtectAdvanceSpan(style: Style, kind: CodeKind, html: string, i: nat, out: string, stored: seq<string>, h: CodeHit,
                                               i': nat, out': string, stored': seq<string>)
    requires i < |html| && ProtectedUpTo(style, kind, html, i, out, stored)
    requires MatchCode(kind, html[i..]) == Some(h)
    requires i' == i + h.len && out' == out + Placeholder(style, kind, |stored|) && stored' == stored + [Wrap(kind, h.code)]
    ensures ProtectedUpTo(style, kind, html, i', out', stored')
  {
    var n := |stored|;
    var p := Placeholder(style, kind, n);
    var w := Wrap(kind, h.code);
    var r := ProtectSpec(style, kind, html[i..], n);
    var r' := ProtectSpec(style, kind, html[i + h.len..], n + 1);
    var whole := ProtectSpec(style, kind, html, 0);
    ProtectStepSpan(style, kind, html, i, n, h);
    Glue(out, stored, r.0, r.1, r'.0, r'.1, p, w, whole.0, whole.1);
    assert |stored'| == n + 1;
    assert html[i'..] == html[i + h.len..];
  }

  /** Moving one emitted piece and one stored entry from the rest to the prefix. */
  lemma {:induction false} Glue(out: string, stored: seq<string>, a0: string, a1: seq<string>, b0: string, b1: seq<string>,
                                p: string, w: string, whole0: string, whole1: seq<string>)
    requires out + a0 == whole0 && stored + a1 == whole1
    requires a0 == p + b0 && a1 == [w] + b1
    ensures (out + p) + b0 == whole0 && (stored + [w]) + b1 == whole1
  {
    AppendAssoc(out, p, b0);
    AppendAssoc(stored, [w], b1);
  }

  /** An iteration of Protect that copies a character keeps its invariant. */
  lemma {:induction false} ProtectAdvanceChar(style: Style, kind: CodeKind, html: string, i: nat, out: string, stored: seq<string>,
                                               i': nat, out': string)
    requires i < |html| && ProtectedUpTo(style, kind, html, i, out, stored)
    requires MatchCode(kind, html[i..]).None?
    requires i' == i + 1 && out' == out + [html[i]]
    ensures ProtectedUpTo(style, kind, html, i', out', stored)
  {
    var whole := ProtectSpec(style, kind, html, 0);
    ProtectStepChar(style, kind, html, i, |stored|);
    var r' := ProtectSpec(style, kind, html[i + 1..], |stored|);
    Regroup(out, [html[i]], r'.0, stored, [], r'.1);
    assert stored + [] == stored;
  }

  /** A span of the code pass at position i of the text. */
  lemma {:induction false} ProtectStepSpan(style: Style, kind: CodeKind, html: string, i: nat, n: nat, h: CodeHit)
    requires i < |html| && MatchCode(kind, html[i..]) == Some(h)
    ensures i + h.len <= |html|
    ensures ProtectSpec(style, kind, html[i..], n).0
      == Placeholder(style, kind, n) + ProtectSpec(style, kind, html[i + h.len..], n + 1).0
    ensures ProtectSpec(style, kind, html[i..], n).1
      == [Wrap(kind, h.code)] + ProtectSpec(style, kind, html[i + h.len..], n + 1).1
  {
    assert html[i..][h.len..] == html[i + h.len..];
  }

  /** A copied character of the code pass at position i of the text. */
  lemma {:induction false} ProtectStepChar(style: Style, kind: CodeKind, html: string, i: nat, n: nat)
    requires i < |html| && MatchCode(kind, html[i..]).None?
    ensures ProtectSpec(style, kind, html[i..], n).0 == [html[i]] + ProtectSpec(style, kind, html[i + 1..], n).0
    ensures ProtectSpec(style, kind, html[i..], n).1 == ProtectSpec(style, kind, html[i + 1..], n).1
  {
    assert html[i..][1..] == html[i + 1..];
  }

  lemma {:induction false} Regroup<T, U>(a: seq<T>, b: seq<T>, c: seq<T>, x: seq<U>, y: seq<U>, z: seq<U>)
    ensures (a + (b + c), x + (y + z)) == ((a + b) + c, (x + y) + z)
  {
    AppendAssoc(a, b, c);
    AppendAssoc(x, y, z);
  }

  /** The restoring rewrite `prefix(\d+)closer` over the table. */
  function RestoreRule(style: Style, kind: CodeKind, stored: seq<string>): (r: Rule)
    ensures ValidRule(r) && Lead(r) == PlaceholderPrefix(style, kind)[0]
  {
    Restore(PlaceholderPrefix(style, kind), PlaceholderCloser(style), stored)
  }

  /** The digits of an index run up to the closer. */
  lemma {:induction false} DigitsThenCloser(p: string, n: nat, c: string, rest: string)
    requires |c| > 0 && !IsAsciiDigit(c[0])
    ensures var t := p + NatToString(n) + c + rest;
      RunEnd(t, |p|, IsNotDigit) == |p| + |NatToString(n)|
      && t[|p|..|p| + |NatToString(n)|] == NatToString(n)
  {
    var d := NatToString(n);
    var post := c + rest;
    AppendAssoc(p + d, c, rest);
    RunEndSkip(p, d, post, IsNotDigit);
  }

  /** The restoring pattern reads a prefix, a canonical numeral and a closer back as
      the entry stored under that number. */
  lemma {:induction false} RestoreReads(p: string, c: string, stored: seq<string>, n: nat, rest: string)
    requires |p| > 0 && |c| > 0 && !IsAsciiDigit(c[0]) && n < |stored|
    ensures MatchRestore(p, c, stored, p + NatToString(n) + c + rest)
      == Some(Hit(|p| + |NatToString(n)| + |c|, stored[n]))
  {
    var d := NatToString(n);
    var t := p + d + c + rest;
    DigitsThenCloser(p, n, c, rest);
    var e := |p| + |d|;
    assert t[..|p|] == p;
    assert t[e..] == c + rest;
    assert StartsWith(t[e..], c);
    DigitsValueOfNatToString(n);
    assert Lookup(stored, d) == stored[n];
  }

  /** Restoration reads a placeholder back as the entry stored under its number,
      whatever follows it. */
  lemma {:induction false} PlaceholderRestores(style: Style, kind: CodeKind, stored: seq<string>, n: nat, rest: string, lineStart: bool)
    requires n < |stored|
    ensures Match(RestoreRule(style, kind, stored), Placeholder(style, kind, n) + rest, lineStart)
      == Some(Hit(|Placeholder(style, kind, n)|, stored[n]))
  {
    var p := PlaceholderPrefix(style, kind);
    var c := PlaceholderCloser(style);
    assert Placeholder(style, kind, n) + rest == p + NatToString(n) + c + rest;
    RestoreReads(p, c, stored, n, rest);
  }

  /** One span of the code pass: its placeholder is emitted, its markup stored. */
  lemma {:induction false} ProtectHit(style: Style, kind: CodeKind, t: string, n: nat, h: CodeHit)
    requires |t| > 0 && MatchCode(kind, t) == Some(h)
    ensures h.len <= |t|
    ensures var rest := ProtectSpec(style, kind, t[h.len..], n + 1);
      ProtectSpec(style, kind, t, n) == (Placeholder(style, kind, n) + rest.0, [Wrap(kind, h.code)] + rest.1)
    ensures DirectSpec(kind, t) == Wrap(kind, h.code) + DirectSpec(kind, t[h.len..])
  {
  }

  /** Restoration over a placeholder emits the entry and resumes after it. */
  lemma {:induction false} ScanPlaceholder(style: Style, kind: CodeKind, stored: seq<string>, n: nat, rest: string, lineStart: bool)
    requires n < |stored|
    ensures var p := Placeholder(style, kind, n);
      Scan(RestoreRule(style, kind, stored), p + rest, lineStart)
        == stored[n] + Scan(RestoreRule(style, kind, stored), rest, IsLineTerminator(p[|p| - 1]))
  {
    var p := Placeholder(style, kind, n);
    PlaceholderRestores(style, kind, stored, n, rest, lineStart);
    ScanHit(RestoreRule(style, kind, stored), p + rest, lineStart, Hit(|p|, stored[n]));
    assert (p + rest)[|p|..] == rest;
    assert (p + rest)[|p| - 1] == p[|p| - 1];
  }

  /** Protecting and then restoring is the direct replacement, provided the text
      itself holds no character a placeholder starts with. */
  lemma {:induction false} RestoreAfterProtect(style: Style, kind: CodeKind, t: string, before: seq<string>, lineStart: bool)
    requires NoLead(RestoreRule(style, kind, []), t)
    ensures var r := ProtectSpec(style, kind, t, |before|);
      Scan(RestoreRule(style, kind, before + r.1), r.0, lineStart) == DirectSpec(kind, t)
    decreases |t|, 1
  {
    if |t| > 0 {
      match MatchCode(kind, t)
      case Some(h) => RestoreSpan(style, kind, t, before, lineStart, h);
      case None => RestoreChar(style, kind, t, before, lineStart);
    }
  }

  lemma {:induction false} RestoreSpan(style: Style, kind: CodeKind, t: string, before: seq<string>, lineStart: bool, h: CodeHit)
    requires NoLead(RestoreRule(style, kind, []), t)
    requires |t| > 0 && MatchCode(kind, t) == Some(h)
    ensures var r := ProtectSpec(style, kind, t, |before|);
      Scan(RestoreRule(style, kind, before + r.1), r.0, lineStart) == DirectSpec(kind, t)
    decreases |t|, 0
  {
    var w := Wrap(kind, h.code);
    var p := Placeholder(style, kind, |before|);
    var ls := IsLineTerminator(p[|p| - 1]);
    SpanFacts(style, kind, t, before, lineStart, h);
    NoLeadSuffix(RestoreRule(style, kind, []), t, h.len);
    RestoreAfterProtect(style, kind, t[h.len..], before + [w], ls);
  }

  /** The facts one span contributes to RestoreSpan. */
  lemma {:induction false} SpanFacts(style: Style, kind: CodeKind, t: string, before: seq<string>, lineStart: bool, h: CodeHit)
    requires |t| > 0 && MatchCode(kind, t) == Some(h)
    ensures h.len <= |t|
    ensures var r := ProtectSpec(style, kind, t, |before|);
      var w := Wrap(kind, h.code);
      var rest := ProtectSpec(style, kind, t[h.len..], |before| + 1);
      var p := Placeholder(style, kind, |before|);
      before + r.1 == (before + [w]) + rest.1
      && DirectSpec(kind, t) == w + DirectSpec(kind, t[h.len..])
      && Scan(RestoreRule(style, kind, before + r.1), r.0, lineStart)
        == w + Scan(RestoreRule(style, kind, before + r.1), rest.0, IsLineTerminator(p[|p| - 1]))
  {
    var n := |before|;
    var r := ProtectSpec(style, kind, t, n);
    var stored := before + r.1;
    var t' := t[h.len..];
    var w := Wrap(kind, h.code);
    var rest := ProtectSpec(style, kind, t', n + 1);
    var p := Placeholder(style, kind, n);
    assert r == (p + rest.0, [w] + rest.1) && DirectSpec(kind, t) == w + DirectSpec(kind, t') by {
      ProtectHit(style, kind, t, n, h);
    }
    assert stored == (before + [w]) + rest.1 by {
      AppendAssoc(before, [w], rest.1);
    }
    assert stored[n] == w;
    ScanPlaceholder(style, kind, stored, n, rest.0, lineStart);
  }

  /** A suffix of text without the lead character has none either. */
  lemma {:induction false} NoLeadSuffix(r: Rule, t: string, k: nat)
    requires ValidRule(r) && NoLead(r, t) && k <= |t|
    ensures NoLead(r, t[k..])
  {
    assert forall i :: 0 <= i < |t| - k ==> t[k..][i] == t[i + k];
  }

  lemma {:induction false} RestoreChar(style: Style, kind: CodeKind, t: string, before: seq<string>, lineStart: bool)
    requires NoLead(RestoreRule(style, kind, []), t)
    requires |t| > 0 && MatchCode(kind, t).None?
    ensures var r := ProtectSpec(style, kind, t, |before|);
      Scan(RestoreRule(style, kind, before + r.1), r.0, lineStart) == DirectSpec(kind, t)
    decreases |t|, 0
  {
    var n := |before|;
    var r := ProtectSpec(style, kind, t, n);
    var rule := RestoreRule(style, kind, before + r.1);
    var rest := ProtectSpec(style, kind, t[1..], n);
    assert r == ([t[0]] + rest.0, rest.1);
    assert DirectSpec(kind, t) == [t[0]] + DirectSpec(kind, t[1..]);
    ScanStep(rule, r.0, lineStart);
    assert r.0[1..] == rest.0;
    assert NoLead(RestoreRule(style, kind, []), t[1..]) by {
      assert forall i :: 0 <= i < |t| - 1 ==> t[1..][i] == t[i + 1];
    }
    RestoreAfterProtect(style, kind, t[1..], before, IsLineTerminator(t[0]));
  }

  /** The two words of an as-written placeholder prefix: `__W1_W2_`. */
  function PrefixWords(kind: CodeKind): (w: (string, string))
    ensures |w.0| > 0 && '_' !in w.0 && |w.1| > 0 && '_' !in w.1
    ensures PlaceholderPrefix(AsWritten, kind) == "__" + w.0 + "_" + w.1 + "_"
  {
    if kind == Fenced then ("CODE", "BLOCK") else ("INLINE", "CODE")
  }

  const Italic: Rule := Emphasis('_', 1, "em")

  /** `_([^_]+)_` cannot start at an underscore that is last or followed by another. */
  lemma {:induction false} ItalicMiss(t: string, lineStart: bool)
    requires |t| > 0 && t[0] == '_' && (|t| == 1 || t[1] == '_')
    ensures Match(Italic, t, lineStart).None?
  {
    assert StartsWith(t, Repeat('_', 1));
    assert RunEnd(t, 1, x => x == '_') == 1;
  }

  /** `_x_` with x free of underscores is wrapped in `<em>`, whatever follows. */
  lemma {:induction false} ItalicHit(x: string, rest: string, lineStart: bool)
    requires |x| > 0 && '_' !in x
    ensures Match(Italic, "_" + x + "_" + rest, lineStart) == Some(Hit(|x| + 2, "<em>" + x + "</em>"))
  {
    var t := "_" + x + "_" + rest;
    assert t[..1] == Repeat('_', 1);
    assert forall i :: 1 <= i < 1 + |x| ==> t[i] == x[i - 1] && t[i] != '_';
    assert t[1 + |x|] == '_';
    var e := RunEnd(t, 1, y => y == '_');
    assert e == 1 + |x|;
    assert t[e..][..1] == Repeat('_', 1);
    assert t[1..e] == x;
    assert "<" + "em" + ">" + x + "</" + "em" + ">" == "<em>" + x + "</em>";
  }

  /** The italic pass over `_x_` followed by anything. */
  lemma {:induction false} ItalicStep(x: string, rest: string, lineStart: bool)
    requires |x| > 0 && '_' !in x
    ensures Scan(Italic, "_" + x + "_" + rest, lineStart) == Em(x) + Scan(Italic, rest, false)
  {
    var t := "_" + x + "_" + rest;
    ItalicHit(x, rest, lineStart);
    ScanHit(Italic, t, lineStart, Hit(|x| + 2, "<em>" + x + "</em>"));
    assert t[|x| + 2..] == rest;
    assert t[|x| + 1] == '_';
  }

  function Em(x: string): string { "<em>" + x + "</em>" }

  /** What the italic pass leaves of an as-written placeholder: both words of the
      prefix and the index are taken for emphasis. */
  function Italicised(kind: CodeKind, n: nat): string {
    var w := PrefixWords(kind);
    "_" + Em(w.0) + w.1 + Em(NatToString(n)) + "_"
  }

  /** The italic pass over `__a_b_d__` with a, b and d free of underscores. */
  lemma {:induction false} ItalicOverPlaceholderShape(a: string, b: string, d: string, lineStart: bool)
    requires |a| > 0 && '_' !in a && '_' !in b && |d| > 0 && '_' !in d
    ensures Scan(Italic, "__" + a + "_" + b + "_" + d + "__", lineStart) == "_" + Em(a) + b + Em(d) + "_"
  {
    var t := "__" + a + "_" + b + "_" + d + "__";
    var u := "_" + d + "_" + "_";
    var x := "_" + a + "_" + (b + u);
    assert t == "_" + x;
    var ls := LineStartAfter(b, false);
    var su := Scan(Italic, u, ls);
    assert su == Em(d) + "_" by {
      ItalicStep(d, "_", ls);
      ItalicMiss("_", false);
      ScanMiss(Italic, "_", false);
    }
    var sb := Scan(Italic, b + u, false);
    assert sb == b + su by {
      ScanSkips(Italic, b, u, false);
    }
    var sx := Scan(Italic, x, false);
    assert sx == Em(a) + sb by {
      ItalicStep(a, b + u, false);
    }
    assert Scan(Italic, t, lineStart) == "_" + sx by {
      ItalicMiss(t, lineStart);
      ScanMiss(Italic, t, lineStart);
      assert t[1..] == x;
    }
    calc {
      "_" + (Em(a) + (b + (Em(d) + "_")));
      { AppendAssoc(Em(a), b, Em(d) + "_"); }
      "_" + ((Em(a) + b) + (Em(d) + "_"));
      { AppendAssoc(Em(a) + b, Em(d), "_"); }
      "_" + (((Em(a) + b) + Em(d)) + "_");
      { AppendAssoc("_", (Em(a) + b) + Em(d), "_"); }
      ("_" + ((Em(a) + b) + Em(d))) + "_";
      { AppendAssoc("_", Em(a) + b, Em(d)); }
      ("_" + (Em(a) + b)) + Em(d) + "_";
      { AppendAssoc("_", Em(a), b); }
      "_" + Em(a) + b + Em(d) + "_";
    }
  }

  /** The italic pass rewrites an as-written placeholder into Italicised. */
  lemma {:induction false} PlaceholderItalicised(kind: CodeKind, n: nat, lineStart: bool)
    ensures Scan(Italic, Placeholder(AsWritten, kind, n), lineStart) == Italicised(kind, n)
  {
    var w := PrefixWords(kind);
    var d := NatToString(n);
    assert '_' !in d by { assert forall i :: 0 <= i < |d| ==> IsAsciiDigit(d[i]); }
    ItalicOverPlaceholderShape(w.0, w.1, d, lineStart);
  }

  const Bold: Rule := Emphasis('_', 2, "strong")

  /** `__([^_]+)__` cannot start at an underscore not followed by another, nor at the
      last two characters. */
  lemma {:induction false} BoldMissShort(t: string, lineStart: bool)
    requires |t| > 0 && t[0] == '_' && (|t| <= 2 || t[1] != '_')
    ensures Match(Bold, t, lineStart).None?
  {
    if |t| >= 2 && t[..2] == Repeat('_', 2) {
      assert RunEnd(t, 2, x => x == '_') == 2;
    }
  }

  /** Nor where the run after `__` ends in a single underscore. */
  lemma {:induction false} BoldMissOpen(a: string, rest: string, lineStart: bool)
    requires |a| > 0 && '_' !in a && |rest| > 0 && rest[0] != '_'
    ensures Match(Bold, "_" + ("_" + (a + ("_" + rest))), lineStart).None?
  {
    var t := "_" + ("_" + (a + ("_" + rest)));
    assert forall i :: 2 <= i < 2 + |a| ==> t[i] == a[i - 2] && t[i] != '_';
    assert t[2 + |a|] == '_';
    assert RunEnd(t, 2, x => x == '_') == 2 + |a|;
    assert t[2 + |a| + 1] == rest[0];
  }

  /** One character the bold pass copies. */
  lemma {:induction false} BoldCopies(c: char, s: string, lineStart: bool)
    requires Match(Bold, [c] + s, lineStart).None?
    ensures Scan(Bold, [c] + s, lineStart) == [c] + Scan(Bold, s, IsLineTerminator(c))
  {
    ScanMiss(Bold, [c] + s, lineStart);
    assert ([c] + s)[1..] == s;
  }

  /** The bold pass copies `_b_d__` when b and d are non-empty and free of underscores. */
  lemma {:induction false} BoldOverShapeTail(b: string, d: string)
    requires |b| > 0 && '_' !in b && |d| > 0 && '_' !in d
    ensures var s1 := "_" + (b + ("_" + (d + ("_" + "_"))));
      Scan(Bold, s1, false) == s1
  {
    var s5 := "_" + "_";
    var s4 := d + s5;
    var s3 := "_" + s4;
    var s2 := b + s3;
    var s1 := "_" + s2;
    assert Scan(Bold, s4, false) == s4 by {
      ScanSkips(Bold, d, s5, false);
      BoldMissShort(s5, LineStartAfter(d, false));
      BoldCopies('_', "_", LineStartAfter(d, false));
      BoldMissShort("_", false);
      BoldCopies('_', "", false);
    }
    assert Scan(Bold, s2, false) == s2 by {
      ScanSkips(Bold, b, s3, false);
      BoldMissShort(s3, LineStartAfter(b, false));
      BoldCopies('_', s4, LineStartAfter(b, false));
    }
    BoldMissShort(s1, false);
    BoldCopies('_', s2, false);
  }

  /** The bold pass leaves the shape `__a_b_d__` alone when a, b and d are non-empty
      and free of underscores. */
  lemma {:induction false} BoldOverPlaceholderShape(a: string, b: string, d: string, lineStart: bool)
    requires |a| > 0 && '_' !in a && |b| > 0 && '_' !in b && |d| > 0 && '_' !in d
    ensures Scan(Bold, "__" + a + "_" + b + "_" + d + "__", lineStart) == "__" + a + "_" + b + "_" + d + "__"
  {
    var s2 := b + ("_" + (d + ("_" + "_")));
    var s1 := "_" + s2;
    var s0 := a + s1;
    var t := "_" + ("_" + s0);
    BoldOverShapeTail(b, d);
    assert Scan(Bold, s0, false) == s0 by {
      ScanSkips(Bold, a, s1, false);
      BoldMissShort(s1, LineStartAfter(a, false));
      BoldCopies('_', s2, LineStartAfter(a, false));
    }
    assert Scan(Bold, "_" + s0, false) == "_" + s0 by {
      BoldMissShort("_" + s0, false);
      BoldCopies('_', s0, false);
    }
    assert Scan(Bold, t, lineStart) == t by {
      BoldMissOpen(a, s2, lineStart);
      BoldCopies('_', "_" + s0, lineStart);
    }
    PlaceholderShapeNested(a, b, d);
  }

  lemma {:induction false} PlaceholderShapeNested(a: string, b: string, d: string)
    ensures "__" + a + "_" + b + "_" + d + "__" == "_" + ("_" + (a + ("_" + (b + ("_" + (d + ("_" + "_")))))))
  {
    var t := "__" + a + "_" + b + "_" + d + "__";
    var u := "_" + ("_" + (a + ("_" + (b + ("_" + (d + ("_" + "_")))))));
    assert |t| == |u|;
    forall i | 0 <= i < |t| ensures t[i] == u[i] {
      if i < 2 {
      } else if i < 2 + |a| {
        assert t[i] == a[i - 2] == u[i];
      } else if i == 2 + |a| {
      } else if i < 3 + |a| + |b| {
        assert t[i] == b[i - 3 - |a|] == u[i];
      } else if i == 3 + |a| + |b| {
      } else if i < 4 + |a| + |b| + |d| {
        assert t[i] == d[i - 4 - |a| - |b|] == u[i];
      }
    }
  }

  /** The bold pass, which runs before the italic one, leaves an as-written placeholder alone. */
  lemma {:induction false} BoldSparesPlaceholder(kind: CodeKind, n: nat, lineStart: bool)
    ensures Scan(Bold, Placeholder(AsWritten, kind, n), lineStart) == Placeholder(AsWritten, kind, n)
  {
    var w := PrefixWords(kind);
    var d := NatToString(n);
    assert '_' !in d by { assert forall i :: 0 <= i < |d| ==> IsAsciiDigit(d[i]); }
    BoldOverPlaceholderShape(w.0, w.1, d, lineStart);
  }

  /** The as-written restoring rewrite finds nothing in `_m_` when m has no underscore. */
  lemma {:induction false} RestoreFindsNothing(kind: CodeKind, stored: seq<string>, m: string, lineStart: bool)
    requires |m| > 0 && '_' !in m
    ensures Scan(RestoreRule(AsWritten, kind, stored), "_" + m + "_", lineStart) == "_" + m + "_"
  {
    var r := RestoreRule(AsWritten, kind, stored);
    var t := "_" + m + "_";
    var ls := LineStartAfter(m, false);
    assert t[1..] == m + "_";
    assert Scan(r, t, lineStart) == "_" + Scan(r, m + "_", false) by {
      RestoreMisses(kind, stored, t, lineStart);
      ScanMiss(r, t, lineStart);
    }
    assert Scan(r, m + "_", false) == m + Scan(r, "_", ls) by {
      ScanSkips(r, m, "_", false);
    }
    assert Scan(r, "_", ls) == "_" by {
      RestoreMisses(kind, stored, "_", ls);
      ScanMiss(r, "_", ls);
    }
  }

  /** The as-written restoring pattern needs two underscores to start a match. */
  lemma {:induction false} RestoreMisses(kind: CodeKind, stored: seq<string>, t: string, lineStart: bool)
    requires |t| > 0 && (|t| == 1 || t[1] != '_')
    ensures Match(RestoreRule(AsWritten, kind, stored), t, lineStart).None?
  {
    var pre := PlaceholderPrefix(AsWritten, kind);
    assert pre[1] == '_';
    assert !StartsWith(t, pre);
  }

  lemma {:induction false} EmKeepsOut(c: char, x: string)
    requires c !in x && c != '<' && c != '>' && c != '/' && c != 'e' && c != 'm'
    ensures c !in Em(x)
  {
    var e := Em(x);
    assert forall i :: 4 <= i < 4 + |x| ==> e[i] == x[i - 4];
  }

  /** As written, a lone placeholder at a line start never comes back: after the italic
      pass it is no longer one, and the restoring rewrite leaves the text as the italic
      pass made it instead of putting back the stored markup. PlaceholderAlwaysItalicised
      below shows the placeholder broken up in any surrounding text. */
  lemma {:induction false} CodeLostAsWritten(kind: CodeKind, stored: seq<string>, n: nat)
    ensures Scan(RestoreRule(AsWritten, kind, stored), Apply(Italic, Placeholder(AsWritten, kind, n)), true)
      == Italicised(kind, n)
    ensures forall code :: Italicised(kind, n) != Wrap(kind, code)
  {
    PlaceholderItalicised(kind, n, true);
    var w := PrefixWords(kind);
    var d := NatToString(n);
    var m := Em(w.0) + w.1 + Em(d);
    assert '_' !in m by {
      assert '_' !in d by { assert forall i :: 0 <= i < |d| ==> IsAsciiDigit(d[i]); }
      EmKeepsOut('_', w.0);
      EmKeepsOut('_', d);
    }
    assert Italicised(kind, n) == "_" + m + "_" by {
      AppendAssoc("_", Em(w.0) + w.1, Em(d));
      AppendAssoc("_", Em(w.0), w.1);
    }
    RestoreFindsNothing(kind, stored, m, true);
    forall code ensures Italicised(kind, n) != Wrap(kind, code) {
      assert Wrap(kind, code)[0] == '<';
    }
  }

  /** A match of `_([^_]+)_`: an underscore, a run without one, an underscore. */
  lemma {:induction false} ItalicHitShape(t: string, lineStart: bool)
    requires |t| > 0 && Match(Italic, t, lineStart).Some?
    ensures var h := Match(Italic, t, lineStart).value;
      2 < h.len <= |t| && t[h.len - 1] == '_' && forall j :: 1 <= j < h.len - 1 ==> t[j] != '_'
  {
    var e := RunEnd(t, 1, x => x == '_');
    assert Match(Italic, t, lineStart).value.len == e + 1;
    assert t[e..][..1] == Repeat('_', 1);
  }

  /** Wherever two underscores stand at k and k + 1, the italic pass reaches k + 1 as
      a position to search from: a match starting before k ends at k at the latest, and
      none starts at k. */
  lemma {:induction false} ItalicReaches(t: string, k: nat, lineStart: bool) returns (out: string, ls: bool)
    requires k + 1 < |t| && t[k] == '_' && t[k + 1] == '_'
    ensures Scan(Italic, t, lineStart) == out + Scan(Italic, t[k + 1..], ls)
  {
    forall i: nat, b | i <= k ensures MatchEndsBy(Italic, t, i, b, k) {
      var u := t[i..];
      if i == k {
        ItalicMiss(u, b);
      } else if Match(Italic, u, b).Some? {
        ItalicHitShape(u, b);
        assert u[k - i] == '_';
      }
    }
    out, ls := ScanReaches(Italic, t, 0, k, lineStart);
    assert t[0..] == t;
  }

  /** From its second character on, an as-written placeholder loses both prefix words
      and its index to the italic pass, whatever follows it. */
  lemma {:induction false} PlaceholderTailItalicised(kind: CodeKind, n: nat, s: string, lineStart: bool)
    ensures Scan(Italic, Placeholder(AsWritten, kind, n)[1..] + s, lineStart) ==
      Em(PrefixWords(kind).0) + (PrefixWords(kind).1 + (Em(NatToString(n)) + Scan(Italic, "_" + s, false)))
  {
    var w := PrefixWords(kind);
    var d := NatToString(n);
    assert '_' !in d by { assert forall i :: 0 <= i < |d| ==> IsAsciiDigit(d[i]); }
    var u := "_" + d + "_" + ("_" + s);
    var x := w.1 + u;
    PlaceholderTailForm(kind, n, s);
    var ls := LineStartAfter(w.1, false);
    assert Scan(Italic, u, ls) == Em(d) + Scan(Italic, "_" + s, false) by {
      ItalicStep(d, "_" + s, ls);
    }
    assert Scan(Italic, x, false) == w.1 + Scan(Italic, u, ls) by {
      ScanSkips(Italic, w.1, u, false);
    }
    ItalicStep(w.0, x, lineStart);
  }

  /** An as-written placeholder after its first underscore, followed by s. */
  lemma {:induction false} PlaceholderTailForm(kind: CodeKind, n: nat, s: string)
    ensures var w := PrefixWords(kind);
      Placeholder(AsWritten, kind, n)[1..] + s ==
      "_" + w.0 + "_" + (w.1 + ("_" + NatToString(n) + "_" + ("_" + s)))
  {
    var w := PrefixWords(kind);
    var d := NatToString(n);
    var ph := Placeholder(AsWritten, kind, n);
    var q := "_" + w.0 + "_" + w.1 + "_";
    assert ph == "_" + q + d + "__";
    assert ph[1..] == q + d + "__";
    PlaceholderTailShape(w.0, w.1, d, s);
  }

  lemma {:induction false} PlaceholderTailShape(a: string, b: string, d: string, s: string)
    ensures "_" + a + "_" + b + "_" + d + "__" + s == "_" + a + "_" + (b + ("_" + d + "_" + ("_" + s)))
  {
    var t := "_" + a + "_" + b + "_" + d + "__" + s;
    var u := "_" + a + "_" + (b + ("_" + d + "_" + ("_" + s)));
    assert |t| == |u|;
    forall i | 0 <= i < |t| ensures t[i] == u[i] {
      if i < 1 {
      } else if i < 1 + |a| {
        assert t[i] == a[i - 1] == u[i];
      } else if i == 1 + |a| {
      } else if i < 2 + |a| + |b| {
        assert t[i] == b[i - 2 - |a|] == u[i];
      } else if i == 2 + |a| + |b| {
      } else if i < 3 + |a| + |b| + |d| {
        assert t[i] == d[i - 3 - |a| - |b|] == u[i];
      } else if i < 5 + |a| + |b| + |d| {
      } else {
        assert t[i] == s[i - 5 - |a| - |b| - |d|] == u[i];
      }
    }
  }

  /** In any text, each as-written placeholder comes out of the italic pass with its
      prefix words and its index wrapped in `<em>`: whatever precedes it, the pass
      reaches its second underscore and takes `_CODE_`-style words and `_n_` for
      emphasis, so the text the restoring rewrite looks for is gone. */
  lemma {:induction false} PlaceholderAlwaysItalicised(kind: CodeKind, n: nat, p: string, s: string, lineStart: bool)
    returns (out: string)
    ensures Scan(Italic, p + Placeholder(AsWritten, kind, n) + s, lineStart) ==
      out + (Em(PrefixWords(kind).0) + (PrefixWords(kind).1 + (Em(NatToString(n)) + Scan(Italic, "_" + s, false))))
  {
    var ph := Placeholder(AsWritten, kind, n);
    var t := p + ph + s;
    assert ph[..2] == "__" by {
      var w := PrefixWords(kind);
      assert ph == "__" + w.0 + "_" + w.1 + "_" + NatToString(n) + "__";
    }
    assert t[|p|] == '_' && t[|p| + 1] == '_' by {
      assert t[|p|] == ph[0] && t[|p| + 1] == ph[1];
    }
    var ls;
    out, ls := ItalicReaches(t, |p|, lineStart);
    assert t[|p| + 1..] == ph[1..] + s;
    PlaceholderTailItalicised(kind, n, s, ls);
  }

  /** A corrected placeholder consists of the sentinel, a letter, digits and the sentinel. */
  predicate Spares(r: Rule)
    requires ValidRule(r)
  {
    Lead(r) != Sentinel && Lead(r) != 'B' && Lead(r) != 'I' && !IsAsciiDigit(Lead(r))
  }

  /** A corrected placeholder passes unchanged through every rewrite that does not
      start at one of its characters, and a line does not start after it. */
  lemma {:induction false} CorrectedPlaceholderInert(r: Rule, kind: CodeKind, n: nat, rest: string, lineStart: bool)
    requires ValidRule(r) && Spares(r)
    ensures var p := Placeholder(Corrected, kind, n);
      Scan(r, p + rest, lineStart) == p + Scan(r, rest, false)
  {
    var p := Placeholder(Corrected, kind, n);
    var d := NatToString(n);
    assert p == [Sentinel, if kind == Fenced then 'B' else 'I'] + d + [Sentinel];
    assert NoLead(r, p) by {
      assert forall i :: 0 <= i < |d| ==> IsAsciiDigit(d[i]);
      assert forall i :: 2 <= i < 2 + |d| ==> p[i] == d[i - 2];
    }
    ScanSkips(r, p, rest, lineStart);
  }
}
