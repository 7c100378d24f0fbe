/** The regular-expression rewrites of the Markdown renderer. Each rewrite is a
    `String.prototype.replace` with the `g` flag: the pattern is tried at every
    position from left to right; where it matches, the match is replaced and the
    search resumes after it; the replacement text is never searched again. A `Rule`
    names one pattern, `Match` is the pattern tried at one position (its
    backtracking worked out to a deterministic test), and `Scan` is the global
    replace. The patterns with `^`/`$` and the `m` flag see where lines start. */
module MdPasses {
  import opened Wrappers
  import opened Text
  import MdTable

  /** A match at the current position: how many characters it covers and what
      replaces them. */
  datatype Hit = Hit(len: nat, rep: string)

  datatype Rule =
    | Heading(level: nat)                              // ^#{level} (.*?)$  (gm)
    | Link                                             // \[([^\]]+)\]\(([^)"]+)(?:\s+"([^"]+)")?\)
    | Image                                            // !\[([^\]]*)\]\(([^)]+)\)
    | Table                                            // header, separator and body rows
    | Emphasis(delim: char, width: nat, tag: string)   // \*\*([^*]+)\*\* and the like
    | HorizontalRule(mark: char)                       // ^---$ and ^\*\*\*$  (gm)
    | Quote                                            // ^&gt; (.+)$  (gm)
    | Literal(pattern: string, replacement: string)    // a fixed string
    | Restore(prefix: string, closer: string, stored: seq<string>)  // prefix(\d+)closer

  predicate ValidRule(r: Rule) {
    match r
    case Heading(k) => 1 <= k <= 6
    case Emphasis(_, w, _) => w == 1 || w == 2
    case Literal(p, _) => |p| > 0
    case Restore(p, c, _) => |p| > 0 && |c| > 0 && !IsAsciiDigit(c[0])
    case _ => true
  }

  /** The character every match of the rule begins with. */
  function Lead(r: Rule): char
    requires ValidRule(r)
  {
    match r
    case Heading(_) => '#'
    case Link => '['
    case Image => '!'
    case Table => '|'
    case Emphasis(c, _, _) => c
    case HorizontalRule(m) => m
    case Quote => '&'
    case Literal(p, _) => p[0]
    case Restore(p, _, _) => p[0]
  }

  /** Whether the rule's pattern starts with `^` under the `m` flag. */
  predicate Anchored(r: Rule) {
    r.Heading? || r.HorizontalRule? || r.Quote?
  }

  function Repeat(c: char, n: nat): (r: string)
    ensures |r| == n && forall i :: 0 <= i < n ==> r[i] == c
  {
    if n == 0 then "" else [c] + Repeat(c, n - 1)
  }

  /** The end of the line that starts at or before k: `.` stops there and `$` holds there. */
  function LineEnd(t: string, k: nat): (r: nat)
    requires k <= |t|
    ensures k <= r <= |t|
    ensures forall j :: k <= j < r ==> !IsLineTerminator(t[j])
    ensures r < |t| ==> IsLineTerminator(t[r])
  {
    RunEnd(t, k, IsLineTerminator)
  }

  function HeadingHtml(level: nat, content: string): string {
    "<h" + NatToString(level) + ">" + content + "</h" + NatToString(level) + ">"
  }

  function MatchHeading(level: nat, t: string, lineStart: bool): (r: Option<Hit>)
    requires 1 <= level <= 6 && |t| > 0
    ensures r.Some? ==> 0 < r.value.len <= |t| && t[0] == '#'
  {
    if lineStart && StartsWith(t, Repeat('#', level) + " ") then
      var e := LineEnd(t, level + 1);
      Some(Hit(e, HeadingHtml(level, t[level + 1..e])))
    else None
  }

  function MatchHorizontalRule(m: char, t: string, lineStart: bool): (r: Option<Hit>)
    requires |t| > 0
    ensures r.Some? ==> 0 < r.value.len <= |t| && t[0] == m
  {
    if lineStart && StartsWith(t, [m, m, m]) && (|t| == 3 || IsLineTerminator(t[3])) then
      Some(Hit(3, "<hr>"))
    else None
  }

  function MatchQuote(t: string, lineStart: bool): (r: Option<Hit>)
    requires |t| > 0
    ensures r.Some? ==> 0 < r.value.len <= |t| && t[0] == '&'
  {
    if lineStart && StartsWith(t, "&gt; ") then
      var e := LineEnd(t, 5);
      if e > 5 then Some(Hit(e, "<blockquote>" + t[5..e] + "</blockquote>")) else None
    else None
  }

  /** `d{w}([^d]+)d{w}`: the delimiter, the longest run without it (at least one
      character, newlines included), the delimiter again. */
  function MatchEmphasis(c: char, w: nat, tag: string, t: string): (r: Option<Hit>)
    requires (w == 1 || w == 2) && |t| > 0
    ensures r.Some? ==> 0 < r.value.len <= |t| && t[0] == c
  {
    if StartsWith(t, Repeat(c, w)) then
      var e := RunEnd(t, w, x => x == c);
      if e > w && StartsWith(t[e..], Repeat(c, w)) then
        Some(Hit(e + w, "<" + tag + ">" + t[w..e] + "</" + tag + ">"))
      else None
    else None
  }

  predicate IsUrlStop(c: char) { c == ')' || c == '"' }

  predicate IsCloseBracket(c: char) { c == ']' }

  predicate IsCloseParen(c: char) { c == ')' }

  predicate IsQuoteMark(c: char) { c == '"' }

  predicate IsNotDigit(c: char) { !IsAsciiDigit(c) }

  /** The captured parts of a link. */
  datatype LinkParts = LinkParts(len: nat, text: string, url: string, title: Option<string>)

  /** The link pattern at the start of t, with its backtracking resolved: the URL is
      the longest run without `)` or `"`; if a `)` ends it there is no title;
      if a `"` ends it, the URL gives back its last character, which must be
      whitespace, and a non-empty title in quotes must follow, then `)`. */
  function MatchLinkParts(t: string): (r: Option<LinkParts>)
    requires |t| > 0
    ensures r.Some? ==> 0 < r.value.len <= |t| && t[0] == '['
    ensures r.Some? ==> |r.value.text| > 0 && ']' !in r.value.text
    ensures r.Some? ==> |r.value.url| > 0 && '"' !in r.value.url && ')' !in r.value.url
    ensures r.Some? && r.value.title.Some? ==> |r.value.title.value| > 0 && '"' !in r.value.title.value
  {
    if t[0] == '[' then
      var j := RunEnd(t, 1, IsCloseBracket);
      if j > 1 && j + 1 < |t| && t[j + 1] == '(' then
        var k := j + 2;
        var u := RunEnd(t, k, IsUrlStop);
        if u > k && u < |t| then
          if t[u] == ')' then
            Some(LinkParts(u + 1, t[1..j], t[k..u], None))
          else if u - 1 > k && IsJsSpace(t[u - 1]) then
            var q := RunEnd(t, u + 1, IsQuoteMark);
            if q > u + 1 && q + 1 < |t| && t[q + 1] == ')' then
              Some(LinkParts(q + 2, t[1..j], t[k..u - 1], Some(t[u + 1..q])))
            else None
          else None
        else None
      else None
    else None
  }

  function LinkHtml(p: LinkParts): string {
    var titleAttr := if p.title.Some? then " title=\"" + p.title.value + "\"" else "";
    "<a href=\"" + p.url + "\"" + titleAttr + " target=\"_blank\" rel=\"noopener noreferrer\">" + p.text + "</a>"
  }

  function MatchLink(t: string): (r: Option<Hit>)
    requires |t| > 0
    ensures r.Some? ==> 0 < r.value.len <= |t| && t[0] == '['
  {
    match MatchLinkParts(t)
    case Some(p) => Some(Hit(p.len, LinkHtml(p)))
    case None => None
  }

  function ImageHtml(alt: string, url: string): string {
    "<img src=\"" + url + "\" alt=\"" + alt + "\" />"
  }

  function MatchImage(t: string): (r: Option<Hit>)
    requires |t| > 0
    ensures r.Some? ==> 0 < r.value.len <= |t| && t[0] == '!'
  {
    if StartsWith(t, "![") then
      var j := RunEnd(t, 2, IsCloseBracket);
      if j + 1 < |t| && t[j + 1] == '(' then
        var u := RunEnd(t, j + 2, IsCloseParen);
        if u > j + 2 && u < |t| then Some(Hit(u + 1, ImageHtml(t[2..j], t[j + 2..u]))) else None
      else None
    else None
  }

  function MatchTableRule(t: string): (r: Option<Hit>)
    requires |t| > 0
    ensures r.Some? ==> 0 < r.value.len <= |t| && t[0] == '|'
  {
    match MdTable.MatchTable(t)
    case Some(m) =>
      Some(Hit(|m.header| + |m.separator| + |m.body|, MdTable.RenderTable(m.header, m.separator, m.body)))
    case None => None
  }

  function MatchLiteral(p: string, rep: string, t: string): (r: Option<Hit>)
    requires |p| > 0 && |t| > 0
    ensures r.Some? ==> 0 < r.value.len <= |t| && t[0] == p[0]
  {
    if StartsWith(t, p) then Some(Hit(|p|, rep)) else None
  }

  /** `stored[index]` for an index written as decimal digits: a JavaScript array
      yields its element only for the canonical numeral of an index in range, and
      the callback's `undefined` is inserted as the text "undefined" otherwise. */
  function Lookup(stored: seq<string>, digits: string): string
    requires forall i :: 0 <= i < |digits| ==> IsAsciiDigit(digits[i])
  {
    var v := DigitsValue(digits);
    if NatToString(v) == digits && v < |stored| then stored[v] else "undefined"
  }

  function MatchRestore(prefix: string, closer: string, stored: seq<string>, t: string): (r: Option<Hit>)
    requires |prefix| > 0 && |t| > 0
    ensures r.Some? ==> 0 < r.value.len <= |t| && t[0] == prefix[0]
  {
    if StartsWith(t, prefix) then
      var e := RunEnd(t, |prefix|, IsNotDigit);
      if e > |prefix| && StartsWith(t[e..], closer) then
        Some(Hit(e + |closer|, Lookup(stored, t[|prefix|..e])))
      else None
    else None
  }

  /** The rule's pattern tried at the start of t; lineStart says whether `^` holds there. */
  function Match(r: Rule, t: string, lineStart: bool): (h: Option<Hit>)
    requires ValidRule(r) && |t| > 0
    ensures h.Some? ==> 0 < h.value.len <= |t| && t[0] == Lead(r)
  {
    match r
    case Heading(k) => MatchHeading(k, t, lineStart)
    case Link => MatchLink(t)
    case Image => MatchImage(t)
    case Table => MatchTableRule(t)
    case Emphasis(c, w, tag) => MatchEmphasis(c, w, tag, t)
    case HorizontalRule(m) => MatchHorizontalRule(m, t, lineStart)
    case Quote => MatchQuote(t, lineStart)
    case Literal(p, rep) => MatchLiteral(p, rep, t)
    case Restore(p, c, stored) => MatchRestore(p, c, stored, t)
  }

  /** `t.replace(pattern, …)` with the `g` flag, searching from the start of t. */
  function Scan(r: Rule, t: string, lineStart: bool): string
    requires ValidRule(r)
    decreases |t|
  {
    if |t| == 0 then ""
    else
      match Match(r, t, lineStart)
      case Some(h) => h.rep + Scan(r, t[h.len..], IsLineTerminator(t[h.len - 1]))
      case None => [t[0]] + Scan(r, t[1..], IsLineTerminator(t[0]))
  }

  function Apply(r: Rule, s: string): string
    requires ValidRule(r)
  {
    Scan(r, s, true)
  }

  function ApplyAll(rules: seq<Rule>, s: string): string
    requires forall i :: 0 <= i < |rules| ==> ValidRule(rules[i])
  {
    if |rules| == 0 then s else ApplyAll(rules[1..], Apply(rules[0], s))
  }

  predicate NoLead(r: Rule, t: string)
    requires ValidRule(r)
  {
    forall i :: 0 <= i < |t| ==> t[i] != Lead(r)
  }

  /** A position holding anything but the lead character is copied. */
  lemma {:induction false} ScanStep(r: Rule, t: string, lineStart: bool)
    requires ValidRule(r) && |t| > 0 && t[0] != Lead(r)
    ensures Scan(r, t, lineStart) == [t[0]] + Scan(r, t[1..], IsLineTerminator(t[0]))
  {
    assert Match(r, t, lineStart).None?;
  }

  /** Where the pattern does not match, one character is copied. */
  lemma {:induction false} ScanMiss(r: Rule, t: string, lineStart: bool)
    requires ValidRule(r) && |t| > 0 && Match(r, t, lineStart).None?
    ensures Scan(r, t, lineStart) == [t[0]] + Scan(r, t[1..], IsLineTerminator(t[0]))
  {
  }

  /** Where the pattern matches, the match is replaced and the search resumes after it. */
  lemma {:induction false} ScanHit(r: Rule, t: string, lineStart: bool, h: Hit)
    requires ValidRule(r) && |t| > 0 && Match(r, t, lineStart) == Some(h)
    ensures 0 < h.len <= |t|
    ensures Scan(r, t, lineStart) == h.rep + Scan(r, t[h.len..], IsLineTerminator(t[h.len - 1]))
  {
  }

  /** Whether `^` holds after the text a, which follows a position where it held
      exactly when lineStart. */
  function LineStartAfter(a: string, lineStart: bool): bool {
    if |a| == 0 then lineStart else IsLineTerminator(a[|a| - 1])
  }

  /** Two stretches of output, the second starting where the first resumed. */
  lemma {:induction false} Chain(a: string, b: string, c: string, o1: string, o2: string)
    requires a == o1 + b && b == o2 + c
    ensures a == o1 + o2 + c
  {
    AppendAssoc(o1, o2, c);
  }

  /** Text the pattern cannot start in passes through, and the search resumes after it
      knowing whether a line starts there. */
  lemma {:induction false} ScanSkips(r: Rule, a: string, b: string, lineStart: bool)
    requires ValidRule(r) && NoLead(r, a)
    ensures Scan(r, a + b, lineStart) == a + Scan(r, b, LineStartAfter(a, lineStart))
    decreases |a|
  {
    if |a| > 0 {
      var t := a + b;
      var a' := a[1..];
      ScanStep(r, t, lineStart);
      assert t[1..] == a' + b;
      assert NoLead(r, a');
      ScanSkips(r, a', b, IsLineTerminator(a[0]));
      assert LineStartAfter(a', IsLineTerminator(a[0])) == LineStartAfter(a, lineStart);
      assert a == [a[0]] + a';
      Chain(Scan(r, t, lineStart), Scan(r, a' + b, IsLineTerminator(a[0])), Scan(r, b, LineStartAfter(a, lineStart)), [a[0]], a');
    } else {
      assert a + b == b;
    }
  }

  /** A rule leaves text without its lead character unchanged. */
  lemma {:induction false} NoLeadUnchanged(r: Rule, t: string, lineStart: bool)
    requires ValidRule(r) && NoLead(r, t)
    ensures Scan(r, t, lineStart) == t
  {
    ScanSkips(r, t, "", lineStart);
    assert t + "" == t;
  }

  /** Inside a line (after its first character), a `^`-anchored rule never matches. */
  lemma {:induction false} AnchoredMidLine(r: Rule, t: string)
    requires ValidRule(r) && Anchored(r)
    requires forall i :: 0 <= i < |t| ==> !IsLineTerminator(t[i])
    ensures Scan(r, t, false) == t
    decreases |t|
  {
    if |t| > 0 {
      AnchoredMidLine(r, t[1..]);
      assert t == [t[0]] + t[1..];
    }
  }

  /** No match of the rule tried at position i of t runs past position k. */
  predicate MatchEndsBy(r: Rule, t: string, i: nat, lineStart: bool, k: nat)
    requires ValidRule(r) && i < |t|
  {
    Match(r, t[i..], lineStart).None? || i + Match(r, t[i..], lineStart).value.len <= k + 1
  }

  /** No match starting at or before k runs past k. */
  predicate NoMatchAcross(r: Rule, t: string, k: nat)
    requires ValidRule(r)
  {
    k < |t| && forall i: nat, b :: i <= k ==> MatchEndsBy(r, t, i, b, k)
  }

  /** One step of the global replace at position p of t: a character copied where the
      pattern does not match, or the match replaced; the search resumes at j. */
  lemma {:induction false} ScanStepAt(r: Rule, t: string, p: nat, lineStart: bool) returns (j: nat, out: string, ls: bool)
    requires ValidRule(r) && p < |t|
    ensures j == p + (if Match(r, t[p..], lineStart).None? then 1 else Match(r, t[p..], lineStart).value.len)
    ensures p < j <= |t|
    ensures Scan(r, t[p..], lineStart) == out + Scan(r, t[j..], ls)
  {
    var u := t[p..];
    var m := Match(r, u, lineStart);
    var n;
    if m.None? {
      ScanMiss(r, u, lineStart);
      n, out, ls := 1, [u[0]], IsLineTerminator(u[0]);
    } else {
      ScanHit(r, u, lineStart, m.value);
      n, out, ls := m.value.len, m.value.rep, IsLineTerminator(u[m.value.len - 1]);
    }
    j := p + n;
    assert u[n..] == t[j..];
  }

  /** One step of the global replace from position p up to k, when no match crosses
      from k to k + 1: it copies a character or replaces a match ending by k. */
  lemma {:induction false} ScanAdvance(r: Rule, t: string, p: nat, k: nat, lineStart: bool)
    returns (j: nat, out: string, ls: bool)
    requires ValidRule(r) && NoMatchAcross(r, t, k) && p <= k
    ensures p < j <= k + 1
    ensures Scan(r, t[p..], lineStart) == out + Scan(r, t[j..], ls)
    ensures j == k + 1 ==> Scan(r, t[p..], lineStart) == out + Scan(r, t[k + 1..], ls)
  {
    assert MatchEndsBy(r, t, p, lineStart, k);
    j, out, ls := ScanStepAt(r, t, p, lineStart);
  }

  /** When no match crosses from position k to k + 1, the global replace, searching
      from p, resumes its search at k + 1, whatever it did before. */
  lemma {:induction false} ScanReaches(r: Rule, t: string, p: nat, k: nat, lineStart: bool)
    returns (out: string, ls: bool)
    requires ValidRule(r) && NoMatchAcross(r, t, k) && p <= k
    ensures Scan(r, t[p..], lineStart) == out + Scan(r, t[k + 1..], ls)
    decreases k - p
  {
    var j, o1, l1 := ScanAdvance(r, t, p, k, lineStart);
    if j == k + 1 {
      out, ls := o1, l1;
    } else {
      var o2, l2 := ScanReaches(r, t, j, k, l1);
      Chain(Scan(r, t[p..], lineStart), Scan(r, t[j..], l1), Scan(r, t[k + 1..], l2), o1, o2);
      out, ls := o1 + o2, l2;
    }
  }
}
