/** The paragraph pass of the Markdown renderer: the text, split into lines, is walked
    with an `inParagraph` flag; a run of lines that are not block lines is wrapped in a
    `<p>` line before it and a `</p>` line after it, and every line is copied. The
    emitted lines are modelled as tokens so that the wrapping can be stated. */
module MdParagraphs {
  import opened Wrappers
  import opened Text

  /** One emitted line: `<p>`, `</p>`, or a line of the text, copied. */
  datatype Para = ParaOpen | ParaClose | Copy(line: string)

  function Render(p: Para): string {
    match p
    case ParaOpen => "<p>"
    case ParaClose => "</p>"
    case Copy(l) => l
  }

  /** The block test of the pass as written: the trimmed line is empty or starts with
      `<h`, `<ul>`, `<ol>`, `<li>`, `<table>`, `<blockquote>`, `<hr` or `<pre>`. */
  predicate IsBlock(line: string) {
    var t := Trim(line);
    StartsWith(t, "<h") || StartsWith(t, "<ul>") || StartsWith(t, "<ol>") || StartsWith(t, "<li>") ||
    StartsWith(t, "<table>") || StartsWith(t, "<blockquote>") || StartsWith(t, "<hr") ||
    StartsWith(t, "<pre>") || t == ""
  }

  /** The block test with the closing tags the list pass emits on lines of their own,
      `</ul>`, `</ol>` and `</li>`, counted as block lines too. */
  predicate IsBlockFixed(line: string) {
    var t := Trim(line);
    IsBlock(line) || StartsWith(t, "</ul>") || StartsWith(t, "</ol>") || StartsWith(t, "</li>")
  }

  /** The `inParagraph` flag and the `processedLines` buffer. */
  datatype ParaState = ParaState(inParagraph: bool, out: seq<Para>)

  /** The marker a line needs before it: `</p>` before a block line inside a
      paragraph, `<p>` before another line outside one. */
  function Marker(inParagraph: bool, line: string, block: string -> bool): seq<Para> {
    if block(line) then (if inParagraph then [ParaClose] else [])
    else (if inParagraph then [] else [ParaOpen])
  }

  /** One iteration of the loop. */
  function ParaLine(s: ParaState, line: string, block: string -> bool): ParaState {
    ParaState(!block(line), s.out + Marker(s.inParagraph, line, block) + [Copy(line)])
  }

  /** The state after the loop has seen the given lines. */
  function ParaRun(lines: seq<string>, block: string -> bool): ParaState
    decreases |lines|
  {
    if |lines| == 0 then ParaState(false, [])
    else ParaLine(ParaRun(lines[..|lines| - 1], block), lines[|lines| - 1], block)
  }

  /** The pass: the loop, then `</p>` if a paragraph is still open. */
  function ParagraphsSpec(lines: seq<string>, block: string -> bool): seq<Para> {
    var s := ParaRun(lines, block);
    s.out + (if s.inParagraph then [ParaClose] else [])
  }

  /** The body of the loop for one line. */
  method ParagraphLine(inParagraph: bool, out: seq<Para>, line: string) returns (inParagraph': bool, out': seq<Para>)
    ensures ParaState(inParagraph', out') == ParaLine(ParaState(inParagraph, out), line, IsBlock)
  {
    inParagraph', out' := inParagraph, out;
    var isBlock := IsBlock(line);
    if isBlock {
      if inParagraph' {
        out' := out' + [ParaClose];
        inParagraph' := false;
      }
      out' := out' + [Copy(line)];
    } else {
      if !inParagraph' {
        out' := out' + [ParaOpen];
        inParagraph' := true;
      }
      out' := out' + [Copy(line)];
    }
  }

  /** The loop of the pass with its `inParagraph` flag. */
  method Paragraphs(lines: seq<string>) returns (out: seq<Para>)
    ensures out == ParagraphsSpec(lines, IsBlock)
  {
    out := [];
    var inParagraph := false;
    for i := 0 to |lines|
      invariant ParaState(inParagraph, out) == ParaRun(lines[..i], IsBlock)
    {
      assert lines[..i + 1][..i] == lines[..i];
      inParagraph, out := ParagraphLine(inParagraph, out, lines[i]);
    }
    assert lines[..|lines|] == lines;
    if inParagraph {
      out := out + [ParaClose];
    }
  }

  // ---------------------------------------------------------------------------
  // What the pass guarantees

  /** The copied lines, in order: the tokens with `<p>` and `</p>` deleted. */
  function Copies(ps: seq<Para>): seq<string>
    decreases |ps|
  {
    if |ps| == 0 then []
    else Copies(ps[..|ps| - 1]) + (if ps[|ps| - 1].Copy? then [ps[|ps| - 1].line] else [])
  }

  /** Reading one more token with the paragraph flag, or None when the token is out of
      place: `<p>` only outside a paragraph, `</p>` only inside one, a block line only
      outside, any other line only inside. */
  function ParaStep(inParagraph: bool, p: Para, block: string -> bool): Option<bool> {
    match p
    case ParaOpen => if inParagraph then None else Some(true)
    case ParaClose => if inParagraph then Some(false) else None
    case Copy(l) => if inParagraph == !block(l) then Some(inParagraph) else None
  }

  /** The flag after a token sequence, or None when a token is out of place. */
  function ParaScan(ps: seq<Para>, block: string -> bool): Option<bool>
    decreases |ps|
  {
    if |ps| == 0 then Some(false)
    else
      match ParaScan(ps[..|ps| - 1], block)
      case None => None
      case Some(b) => ParaStep(b, ps[|ps| - 1], block)
  }

  /** No paragraph is empty, and none is closed just to be reopened: `<p>` is always
      followed by a line, and `</p>` by a line or the end. */
  predicate Tight(ps: seq<Para>) {
    forall j :: 0 <= j < |ps| && !ps[j].Copy? ==> (j + 1 < |ps| && ps[j + 1].Copy?) || (j + 1 == |ps| && ps[j] == ParaClose)
  }

  /** `<p>` and `</p>` alternate, starting with `<p>` and ending with `</p>`; every
      block line stands outside a paragraph and every other line inside one. */
  predicate Wrapped(ps: seq<Para>, block: string -> bool) {
    ParaScan(ps, block) == Some(false)
  }

  lemma {:induction false} SnocFacts(ps: seq<Para>, p: Para, block: string -> bool)
    ensures Copies(ps + [p]) == Copies(ps) + (if p.Copy? then [p.line] else [])
    ensures ParaScan(ps + [p], block) == if ParaScan(ps, block).Some? then ParaStep(ParaScan(ps, block).value, p, block) else None
  {
    assert (ps + [p])[..|ps|] == ps;
  }

  /** The loop's invariant: the flag is the scan's state, the copies are the lines
      seen, every marker is followed by a line, and the buffer is empty or ends with a
      line. */
  predicate RunGood(s: ParaState, lines: seq<string>, block: string -> bool) {
    ParaScan(s.out, block) == Some(s.inParagraph) && Copies(s.out) == lines && Tight(s.out) &&
    (|s.out| > 0 ==> s.out[|s.out| - 1].Copy?)
  }

  lemma {:induction false} TightSnoc(ps: seq<Para>, extra: seq<Para>, line: string)
    requires Tight(ps) && (|ps| > 0 ==> ps[|ps| - 1].Copy?)
    requires |extra| <= 1
    ensures Tight(ps + extra + [Copy(line)])
  {
    var r := ps + extra + [Copy(line)];
    forall j | 0 <= j < |r| && !r[j].Copy?
      ensures (j + 1 < |r| && r[j + 1].Copy?) || (j + 1 == |r| && r[j] == ParaClose)
    {
      if j < |ps| {
        assert r[j] == ps[j];
        if j + 1 < |ps| {
          assert r[j + 1] == ps[j + 1];
        }
      } else {
        assert j == |ps| && |extra| == 1;
      }
    }
  }

  /** The marker and the line are read in place, and the line is copied. */
  lemma {:induction false} MarkerThenLine(s: ParaState, line: string, block: string -> bool)
    requires ParaScan(s.out, block) == Some(s.inParagraph)
    ensures ParaScan(s.out + Marker(s.inParagraph, line, block) + [Copy(line)], block) == Some(!block(line))
    ensures Copies(s.out + Marker(s.inParagraph, line, block) + [Copy(line)]) == Copies(s.out) + [line]
  {
    var m := Marker(s.inParagraph, line, block);
    var mid := s.out + m;
    if |m| == 1 {
      SnocFacts(s.out, m[0], block);
      assert s.out + [m[0]] == mid;
    } else {
      assert mid == s.out;
    }
    SnocFacts(mid, Copy(line), block);
  }

  lemma {:induction false} ParaLineGood(s: ParaState, lines: seq<string>, line: string, block: string -> bool)
    requires RunGood(s, lines, block)
    ensures RunGood(ParaLine(s, line, block), lines + [line], block)
  {
    MarkerThenLine(s, line, block);
    TightSnoc(s.out, Marker(s.inParagraph, line, block), line);
  }

  lemma {:induction false} ParaRunGood(lines: seq<string>, block: string -> bool)
    ensures RunGood(ParaRun(lines, block), lines, block)
    decreases |lines|
  {
    if |lines| > 0 {
      var init := lines[..|lines| - 1];
      ParaRunGood(init, block);
      assert init + [lines[|lines| - 1]] == lines;
      ParaLineGood(ParaRun(init, block), init, lines[|lines| - 1], block);
    }
  }

  /** The paragraph pass wraps exactly the runs of lines that are not block lines:
      deleting `<p>` and `</p>` gives back the lines, the markers alternate and are
      balanced, block lines are outside every paragraph and other lines inside one,
      and no paragraph is empty. */
  lemma {:induction false} ParagraphsWrap(lines: seq<string>, block: string -> bool)
    ensures Copies(ParagraphsSpec(lines, block)) == lines
    ensures Wrapped(ParagraphsSpec(lines, block), block)
    ensures Tight(ParagraphsSpec(lines, block))
  {
    ParaRunGood(lines, block);
    var out := ParaRun(lines, block).out;
    if ParaRun(lines, block).inParagraph {
      SnocFacts(out, ParaClose, block);
      var r := out + [ParaClose];
      forall j | 0 <= j < |r| && !r[j].Copy?
        ensures (j + 1 < |r| && r[j + 1].Copy?) || (j + 1 == |r| && r[j] == ParaClose)
      {
        if j < |out| {
          assert r[j] == out[j];
          if j + 1 < |out| {
            assert r[j + 1] == out[j + 1];
          }
        }
      }
    } else {
      assert out + [] == out;
    }
  }

  /** The lines as copied tokens, with no marker. */
  function AllCopied(lines: seq<string>): (r: seq<Para>)
    ensures |r| == |lines| && forall i :: 0 <= i < |lines| ==> r[i] == Copy(lines[i])
  {
    seq(|lines|, i requires 0 <= i < |lines| => Copy(lines[i]))
  }

  /** Text made only of block lines passes through without a paragraph. */
  lemma {:induction false} BlocksUnwrapped(lines: seq<string>, block: string -> bool)
    requires forall i :: 0 <= i < |lines| ==> block(lines[i])
    ensures ParaRun(lines, block) == ParaState(false, AllCopied(lines))
    ensures ParagraphsSpec(lines, block) == AllCopied(lines)
    decreases |lines|
  {
    if |lines| > 0 {
      var init := lines[..|lines| - 1];
      BlocksUnwrapped(init, block);
      assert AllCopied(init) + [] + [Copy(lines[|lines| - 1])] == AllCopied(lines);
    }
  }

  lemma {:induction false} RunSnoc(lines: seq<string>, line: string, block: string -> bool)
    ensures ParaRun(lines + [line], block) == ParaLine(ParaRun(lines, block), line, block)
  {
    assert (lines + [line])[..|lines|] == lines;
  }

  /** Two block lines then two other lines: the paragraph opens before the third line
      and closes at the end. */
  lemma {:induction false} TwoBlocksTwoLines(l0: string, l1: string, l2: string, l3: string, block: string -> bool)
    requires block(l0) && block(l1) && !block(l2) && !block(l3)
    ensures ParagraphsSpec([l0, l1, l2, l3], block) == [Copy(l0), Copy(l1), ParaOpen, Copy(l2), Copy(l3), ParaClose]
  {
    RunSnoc([], l0, block);
    assert [] + [l0] == [l0];
    RunSnoc([l0], l1, block);
    assert [l0] + [l1] == [l0, l1];
    RunSnoc([l0, l1], l2, block);
    assert [l0, l1] + [l2] == [l0, l1, l2];
    RunSnoc([l0, l1, l2], l3, block);
    assert [l0, l1, l2] + [l3] == [l0, l1, l2, l3];
    assert ParaRun([l0], block) == ParaState(false, [Copy(l0)]);
    assert ParaRun([l0, l1], block) == ParaState(false, [Copy(l0), Copy(l1)]);
    assert ParaRun([l0, l1, l2], block) == ParaState(true, [Copy(l0), Copy(l1), ParaOpen, Copy(l2)]);
    assert ParaRun([l0, l1, l2, l3], block) == ParaState(true, [Copy(l0), Copy(l1), ParaOpen, Copy(l2), Copy(l3)]);
  }
}
