/** The nested-list pass of the Markdown renderer: each line of the text is either a
    list item (indentation, a marker `-`, `*`, `+` or `digits.`, white space, content)
    or not; a stack of open containers decides which `<ul>`, `<ol>`, `<li>` and
    `</li>` tags are emitted around it. The emitted lines are modelled as tokens so
    that their nesting can be stated. */
module MdLists {
  import opened Wrappers
  import opened Text

  datatype ListType = Ul | Ol

  /** One emitted line: `<ul>`/`<ol>`, `</ul>`/`</ol>`, `<li>` with the item's
      content, `</li>`, or a line that is not part of a list, copied. */
  datatype Token = Open(kind: ListType) | Close(kind: ListType) | Li(content: string) | LiClose | Line(text: string)

  function TagName(t: ListType): string {
    match t
    case Ul => "ul"
    case Ol => "ol"
  }

  function Render(t: Token): string {
    match t
    case Open(k) => "<" + TagName(k) + ">"
    case Close(k) => "</" + TagName(k) + ">"
    case Li(c) => "<li>" + c
    case LiClose => "</li>"
    case Line(l) => l
  }

  /** `result[result.length - 1] === s`: the comparison is on the emitted text, and an
      empty buffer compares unequal to every string. */
  predicate LastIs(result: seq<Token>, s: string) {
    |result| > 0 && Render(result[|result| - 1]) == s
  }

  predicate IsNotJsSpace(c: char) { !IsJsSpace(c) }

  datatype Item = Item(depth: nat, kind: ListType, content: string)

  /** `line.match(/^(\s*)([-*+]|\d+\.)\s+(.*)$/)`: the indentation is all leading white
      space, the marker one of `-*+` or a run of digits and a dot, then at least one
      white-space character; the content is what follows the white space and must hold
      no line terminator, which `.` does not match. The depth is half the indentation,
      rounded down. */
  function MatchItem(line: string): (r: Option<Item>)
    ensures r.Some? ==> forall i :: 0 <= i < |r.value.content| ==> !IsLineTerminator(r.value.content[i])
  {
    var ind := RunEnd(line, 0, IsNotJsSpace);
    if ind == |line| then None
    else
      var marker: Option<(nat, ListType)> :=
        if line[ind] == '-' || line[ind] == '*' || line[ind] == '+' then Some((ind + 1, Ul))
        else if IsAsciiDigit(line[ind]) then
          var e := RunEnd(line, ind, IsNotDigit);
          if e < |line| && line[e] == '.' then Some((e + 1, Ol)) else None
        else None;
      match marker
      case None => None
      case Some(m) =>
        var ws := RunEnd(line, m.0, IsNotJsSpace);
        if ws == m.0 || RunEnd(line, ws, IsLineTerminator) < |line| then None
        else
          assert forall i :: 0 <= i < |line| - ws ==> line[ws..][i] == line[ws + i];
          Some(Item(ind / 2, m.1, line[ws..]))
  }

  predicate IsNotDigit(c: char) { !IsAsciiDigit(c) }

  /** An entry of `listStack`. */
  datatype Frame = Frame(kind: ListType, depth: nat)

  /** `listStack` and `result` between two lines. */
  datatype ListState = ListState(stack: seq<Frame>, result: seq<Token>)

  predicate Structural(t: Token) { t.Open? || t.Close? || t.LiClose? }

  /** r extends s's buffer by container and `</li>` tags only. */
  predicate ExtendsStructurally(s: seq<Token>, r: seq<Token>) {
    |s| <= |r| && r[..|s|] == s && forall j :: |s| <= j < |r| ==> Structural(r[j])
  }

  /** "Close deeper lists": while the stack is deeper than depth + 1, pop a container,
      emit its closing tag and, if a container is still open, a `</li>`. */
  function CloseDeeper(s: ListState, depth: nat): (r: ListState)
    ensures |r.stack| == if |s.stack| > depth + 1 then depth + 1 else |s.stack|
    ensures r.stack == s.stack[..|r.stack|]
    ensures ExtendsStructurally(s.result, r.result)
    decreases |s.stack|
  {
    if |s.stack| > depth + 1 then
      var top := s.stack[|s.stack| - 1];
      var rest := s.stack[..|s.stack| - 1];
      var out := s.result + [Close(top.kind)] + (if |rest| > 0 then [LiClose] else []);
      var r := CloseDeeper(ListState(rest, out), depth);
      ExtendsStep(s.result, out, r.result);
      assert rest[..|r.stack|] == s.stack[..|r.stack|];
      r
    else s
  }

  /** Appending container and `</li>` tags, then more of them, appends them. */
  lemma {:induction false} ExtendsStep(a: seq<Token>, b: seq<Token>, c: seq<Token>)
    requires |a| <= |b| && b[..|a|] == a && forall j :: |a| <= j < |b| ==> Structural(b[j])
    requires ExtendsStructurally(b, c)
    ensures ExtendsStructurally(a, c)
  {
    assert c[..|a|] == b[..|b|][..|a|];
  }

  /** "Close all open lists": pop every container, emitting `</li>` unless the buffer
      ends with that container's closing tag, then the closing tag. */
  function CloseAll(s: ListState): (r: ListState)
    ensures r.stack == []
    ensures ExtendsStructurally(s.result, r.result)
    decreases |s.stack|
  {
    if |s.stack| > 0 then
      var top := s.stack[|s.stack| - 1];
      var rest := s.stack[..|s.stack| - 1];
      var li := if LastIs(s.result, Render(Close(top.kind))) then [] else [LiClose];
      var out := s.result + li + [Close(top.kind)];
      var r := CloseAll(ListState(rest, out));
      ExtendsStep(s.result, out, r.result);
      r
    else s
  }

  /** The open-or-continue decision for an item once deeper lists are closed. */
  function Place(s: ListState, it: Item): (r: ListState)
    ensures ExtendsStructurally(s.result, r.result)
  {
    var open := Render(Open(it.kind));
    if |s.stack| == it.depth then
      var li := if |s.stack| > 0 && !LastIs(s.result, open) then [LiClose] else [];
      ListState(s.stack + [Frame(it.kind, it.depth)], s.result + li + [Open(it.kind)])
    else if |s.stack| == it.depth + 1 then
      var current := s.stack[|s.stack| - 1];
      if current.kind != it.kind then
        ListState(s.stack[..|s.stack| - 1] + [Frame(it.kind, it.depth)], s.result + [Close(current.kind), Open(it.kind)])
      else if !LastIs(s.result, open) then
        ListState(s.stack, s.result + [LiClose])
      else s
    else s
  }

  /** One iteration of the loop over lines. */
  function ListLine(s: ListState, line: string): ListState {
    match MatchItem(line)
    case Some(it) =>
      var p := Place(CloseDeeper(s, it.depth), it);
      ListState(p.stack, p.result + [Li(it.content)])
    case None =>
      var c := CloseAll(s);
      ListState(c.stack, c.result + [Line(line)])
  }

  /** The state after the loop has seen the given lines. */
  function Run(lines: seq<string>): ListState
    decreases |lines|
  {
    if |lines| == 0 then ListState([], [])
    else ListLine(Run(lines[..|lines| - 1]), lines[|lines| - 1])
  }

  /** processLists on the lines of the text, before they are joined with newlines. */
  function ProcessListsSpec(lines: seq<string>): seq<Token> {
    CloseAll(Run(lines)).result
  }

  /** The "close deeper lists" loop. */
  method CloseDeeperLoop(stack: seq<Frame>, result: seq<Token>, depth: nat) returns (stack': seq<Frame>, result': seq<Token>)
    ensures ListState(stack', result') == CloseDeeper(ListState(stack, result), depth)
  {
    stack', result' := stack, result;
    while |stack'| > depth + 1
      invariant CloseDeeper(ListState(stack', result'), depth) == CloseDeeper(ListState(stack, result), depth)
      decreases |stack'|
    {
      var popped := stack'[|stack'| - 1];
      stack' := stack'[..|stack'| - 1];
      result' := result' + [Close(popped.kind)];
      if |stack'| > 0 {
        result' := result' + [LiClose];
      }
    }
  }

  /** The state after closing the innermost open container. */
  function CloseTop(s: ListState): ListState
    requires |s.stack| > 0
  {
    var top := s.stack[|s.stack| - 1];
    var li := if LastIs(s.result, Render(Close(top.kind))) then [] else [LiClose];
    ListState(s.stack[..|s.stack| - 1], s.result + li + [Close(top.kind)])
  }

  lemma {:induction false} CloseAllStep(s: ListState)
    requires |s.stack| > 0
    ensures CloseAll(s) == CloseAll(CloseTop(s))
  {
  }

  /** The "close all open lists" loop, both inside the line loop and after it. */
  method CloseAllLoop(stack: seq<Frame>, result: seq<Token>) returns (stack': seq<Frame>, result': seq<Token>)
    ensures ListState(stack', result') == CloseAll(ListState(stack, result))
  {
    stack', result' := stack, result;
    while |stack'| > 0
      invariant CloseAll(ListState(stack', result')) == CloseAll(ListState(stack, result))
      decreases |stack'|
    {
      ghost var before := ListState(stack', result');
      var popped := stack'[|stack'| - 1];
      var closing := Render(Close(popped.kind));
      var li: seq<Token> := if LastIs(result', closing) then [] else [LiClose];
      stack', result' := stack'[..|stack'| - 1], result' + li + [Close(popped.kind)];
      CloseAllStep(before);
      assert ListState(stack', result') == CloseTop(before);
    }
  }

  /** The open-or-continue statements for a list item. */
  method PlaceItem(stack: seq<Frame>, result: seq<Token>, it: Item) returns (stack': seq<Frame>, result': seq<Token>)
    ensures ListState(stack', result') == Place(ListState(stack, result), it)
  {
    stack', result' := stack, result;
    var open := Render(Open(it.kind));
    if |stack'| == it.depth {
      if |stack'| > 0 && !LastIs(result', open) {
        result' := result' + [LiClose];
      }
      result' := result' + [Open(it.kind)];
      stack' := stack' + [Frame(it.kind, it.depth)];
    } else if |stack'| == it.depth + 1 {
      var current := stack'[|stack'| - 1];
      if current.kind != it.kind {
        result' := result' + [Close(current.kind)];
        stack' := stack'[..|stack'| - 1];
        result' := result' + [Open(it.kind)];
        stack' := stack' + [Frame(it.kind, it.depth)];
      } else if !LastIs(result', open) {
        result' := result' + [LiClose];
      }
    }
  }

  /** processLists before the final join: the loop over lines, then closing what is
      still open. */
  method ProcessLists(lines: seq<string>) returns (result: seq<Token>)
    ensures result == ProcessListsSpec(lines)
  {
    var stack: seq<Frame> := [];
    result := [];
    for i := 0 to |lines|
      invariant ListState(stack, result) == Run(lines[..i])
    {
      assert lines[..i + 1][..i] == lines[..i];
      var line := lines[i];
      var m := MatchItem(line);
      if m.Some? {
        stack, result := CloseDeeperLoop(stack, result, m.value.depth);
        stack, result := PlaceItem(stack, result, m.value);
        result := result + [Li(m.value.content)];
      } else {
        stack, result := CloseAllLoop(stack, result);
        result := result + [Line(line)];
      }
    }
    assert lines[..|lines|] == lines;
    stack, result := CloseAllLoop(stack, result);
  }

  // ---------------------------------------------------------------------------
  // Containers: the emitted `<ul>`/`<ol>` tags nest properly

  /** The kinds of the open containers, outermost first. */
  function Kinds(stack: seq<Frame>): (r: seq<ListType>)
    ensures |r| == |stack|
    ensures forall k :: 0 <= k < |stack| ==> r[k] == stack[k].kind
  {
    seq(|stack|, k requires 0 <= k < |stack| => stack[k].kind)
  }

  /** The containers left open by reading one more token, or None when it closes a
      container that is not the innermost open one. `<li>`, `</li>` and other lines
      do not affect containers. */
  function ContainerStep(open: seq<ListType>, t: Token): Option<seq<ListType>> {
    match t
    case Open(k) => Some(open + [k])
    case Close(k) => if |open| > 0 && open[|open| - 1] == k then Some(open[..|open| - 1]) else None
    case _ => Some(open)
  }

  /** The containers a token sequence leaves open, or None when it closes one out of
      order. */
  function Containers(ts: seq<Token>): Option<seq<ListType>>
    decreases |ts|
  {
    if |ts| == 0 then Some([])
    else
      match Containers(ts[..|ts| - 1])
      case None => None
      case Some(open) => ContainerStep(open, ts[|ts| - 1])
  }

  lemma {:induction false} ContainersSnoc(ts: seq<Token>, t: Token)
    ensures Containers(ts + [t]) == if Containers(ts).Some? then ContainerStep(Containers(ts).value, t) else None
  {
    assert (ts + [t])[..|ts|] == ts;
  }

  /** listStack[k].depth == k for every entry. */
  predicate DepthsAreIndices(stack: seq<Frame>) {
    forall k :: 0 <= k < |stack| ==> stack[k].depth == k
  }

  /** The state invariant of the loop: the stack's depths are its indices, and the
      containers left open by the buffer are exactly those on the stack. */
  predicate Good(s: ListState) {
    DepthsAreIndices(s.stack) && Containers(s.result) == Some(Kinds(s.stack))
  }

  lemma {:induction false} GoodPop(s: ListState, extra: seq<Token>)
    requires Good(s) && |s.stack| > 0
    requires forall j :: 0 <= j < |extra| ==> extra[j].LiClose?
    ensures Good(ListState(s.stack[..|s.stack| - 1], s.result + extra + [Close(s.stack[|s.stack| - 1].kind)]))
    ensures Good(ListState(s.stack[..|s.stack| - 1], s.result + [Close(s.stack[|s.stack| - 1].kind)] + extra))
  {
    var top := s.stack[|s.stack| - 1];
    var rest := s.stack[..|s.stack| - 1];
    assert Kinds(s.stack)[..|rest|] == Kinds(rest);
    LiClosesKeep(s.result, extra);
    ContainersSnoc(s.result + extra, Close(top.kind));
    ContainersSnoc(s.result, Close(top.kind));
    LiClosesKeep(s.result + [Close(top.kind)], extra);
  }

  lemma {:induction false} LiClosesKeep(ts: seq<Token>, extra: seq<Token>)
    requires forall j :: 0 <= j < |extra| ==> extra[j].LiClose?
    ensures Containers(ts + extra) == Containers(ts)
    decreases |extra|
  {
    if |extra| > 0 {
      var init := extra[..|extra| - 1];
      LiClosesKeep(ts, init);
      assert ts + extra == (ts + init) + [extra[|extra| - 1]];
      ContainersSnoc(ts + init, extra[|extra| - 1]);
    } else {
      assert ts + extra == ts;
    }
  }

  lemma {:induction false} CloseDeeperGood(s: ListState, depth: nat)
    requires Good(s)
    ensures Good(CloseDeeper(s, depth))
    decreases |s.stack|
  {
    if |s.stack| > depth + 1 {
      var top := s.stack[|s.stack| - 1];
      var rest := s.stack[..|s.stack| - 1];
      var extra := if |rest| > 0 then [LiClose] else [];
      GoodPop(s, extra);
      CloseDeeperGood(ListState(rest, s.result + [Close(top.kind)] + extra), depth);
    }
  }

  lemma {:induction false} CloseAllGood(s: ListState)
    requires Good(s)
    ensures Good(CloseAll(s))
    ensures Containers(CloseAll(s).result) == Some([])
    decreases |s.stack|
  {
    if |s.stack| > 0 {
      var top := s.stack[|s.stack| - 1];
      var extra := if LastIs(s.result, Render(Close(top.kind))) then [] else [LiClose];
      GoodPop(s, extra);
      CloseAllGood(CloseTop(s));
    }
  }

  /** Opening a container at the next depth keeps the invariant. */
  lemma {:induction false} OpenGood(s: ListState, li: seq<Token>, k: ListType)
    requires Good(s)
    requires forall j :: 0 <= j < |li| ==> li[j].LiClose?
    ensures Good(ListState(s.stack + [Frame(k, |s.stack|)], s.result + li + [Open(k)]))
  {
    LiClosesKeep(s.result, li);
    ContainersSnoc(s.result + li, Open(k));
    assert Kinds(s.stack) + [k] == Kinds(s.stack + [Frame(k, |s.stack|)]);
  }

  lemma {:induction false} PlaceGood(s: ListState, it: Item)
    requires Good(s)
    ensures Good(Place(s, it))
  {
    var open := Render(Open(it.kind));
    var n := |s.stack|;
    if n == it.depth {
      var li := if n > 0 && !LastIs(s.result, open) then [LiClose] else [];
      assert Place(s, it) == ListState(s.stack + [Frame(it.kind, n)], s.result + li + [Open(it.kind)]);
      OpenGood(s, li, it.kind);
    } else if n == it.depth + 1 && s.stack[n - 1].kind != it.kind {
      var closed := ListState(s.stack[..n - 1], s.result + [Close(s.stack[n - 1].kind)]);
      assert Good(closed) by {
        GoodPop(s, []);
        assert s.result + [] == s.result;
      }
      assert Good(ListState(closed.stack + [Frame(it.kind, it.depth)], closed.result + [] + [Open(it.kind)])) by {
        OpenGood(closed, [], it.kind);
      }
      assert Place(s, it) == ListState(closed.stack + [Frame(it.kind, it.depth)], closed.result + [] + [Open(it.kind)]);
    } else if n == it.depth + 1 && !LastIs(s.result, open) {
      assert Place(s, it) == ListState(s.stack, s.result + [LiClose]);
      LiClosesKeep(s.result, [LiClose]);
    } else {
      assert Place(s, it) == s;
    }
  }

  lemma {:induction false} ListLineGood(s: ListState, line: string)
    requires Good(s)
    ensures Good(ListLine(s, line))
  {
    match MatchItem(line)
    case Some(it) =>
      var c := CloseDeeper(s, it.depth);
      CloseDeeperGood(s, it.depth);
      PlaceGood(c, it);
      ContainersSnoc(Place(c, it).result, Li(it.content));
    case None =>
      CloseAllGood(s);
      ContainersSnoc(CloseAll(s).result, Line(line));
  }

  lemma {:induction false} RunGood(lines: seq<string>)
    ensures Good(Run(lines))
    decreases |lines|
  {
    if |lines| > 0 {
      RunGood(lines[..|lines| - 1]);
      ListLineGood(Run(lines[..|lines| - 1]), lines[|lines| - 1]);
    }
  }

  /** Every `<ul>`/`<ol>` the pass emits is closed by the matching tag, innermost
      first, and the stack's depths are its indices after every line. */
  lemma {:induction false} ContainersBalanced(lines: seq<string>)
    ensures DepthsAreIndices(Run(lines).stack)
    ensures Containers(ProcessListsSpec(lines)) == Some([])
  {
    RunGood(lines);
    CloseAllGood(Run(lines));
  }

  /** An item at a depth no deeper than one past the open containers lands in a
      container of its own kind at its own depth, with the containers outside it kept:
      a marker of the other type at an existing depth closes that container and opens
      one of the new type in its place. */
  lemma {:induction false} ItemLands(s: ListState, it: Item)
    requires Good(s) && it.depth <= |s.stack|
    ensures var r := Place(CloseDeeper(s, it.depth), it);
      |r.stack| == it.depth + 1 && r.stack[..it.depth] == s.stack[..it.depth] &&
      r.stack[it.depth] == Frame(it.kind, it.depth)
  {
    var c := CloseDeeper(s, it.depth);
    CloseDeeperGood(s, it.depth);
    var r := Place(c, it);
    assert c.stack[..it.depth] == s.stack[..it.depth];
    if |c.stack| == it.depth {
      assert r.stack == c.stack + [Frame(it.kind, it.depth)];
    } else if c.stack[it.depth].kind != it.kind {
      assert r.stack == c.stack[..it.depth] + [Frame(it.kind, it.depth)];
    } else {
      assert r.stack == c.stack;
    }
  }

  /** An item more than one level deeper than the open containers changes no
      container: its `<li>` is appended to the buffer as it is, outside any list when
      none is open. */
  lemma {:induction false} ItemBeyondDepth(s: ListState, line: string)
    requires MatchItem(line).Some? && MatchItem(line).value.depth > |s.stack|
    ensures ListLine(s, line) == ListState(s.stack, s.result + [Li(MatchItem(line).value.content)])
  {
  }

  // ---------------------------------------------------------------------------
  // Contents: items and other lines come out in order, unchanged

  /** The contents of the `<li>` tokens, in order. */
  function Items(ts: seq<Token>): seq<string>
    decreases |ts|
  {
    if |ts| == 0 then []
    else Items(ts[..|ts| - 1]) + (if ts[|ts| - 1].Li? then [ts[|ts| - 1].content] else [])
  }

  /** The lines copied through, in order. */
  function Texts(ts: seq<Token>): seq<string>
    decreases |ts|
  {
    if |ts| == 0 then []
    else Texts(ts[..|ts| - 1]) + (if ts[|ts| - 1].Line? then [ts[|ts| - 1].text] else [])
  }

  /** The contents of the lines that are list items, in order. */
  function MatchedContents(lines: seq<string>): seq<string>
    decreases |lines|
  {
    if |lines| == 0 then []
    else
      var m := MatchItem(lines[|lines| - 1]);
      MatchedContents(lines[..|lines| - 1]) + (if m.Some? then [m.value.content] else [])
  }

  /** The lines that are not list items, in order. */
  function UnmatchedLines(lines: seq<string>): seq<string>
    decreases |lines|
  {
    if |lines| == 0 then []
    else
      var m := MatchItem(lines[|lines| - 1]);
      UnmatchedLines(lines[..|lines| - 1]) + (if m.None? then [lines[|lines| - 1]] else [])
  }

  /** Every copied line is emitted where no container is open. */
  predicate LinesAtTop(ts: seq<Token>) {
    forall j :: 0 <= j < |ts| && ts[j].Line? ==> Containers(ts[..j]) == Some([])
  }

  lemma {:induction false} ExtendsTrans(a: seq<Token>, b: seq<Token>, c: seq<Token>)
    requires ExtendsStructurally(a, b) && ExtendsStructurally(b, c)
    ensures ExtendsStructurally(a, c)
  {
    ExtendsStep(a, b, c);
  }

  /** Structural tokens change neither the items, nor the copied lines, nor where
      those lines stand. */
  lemma {:induction false} ExtendsKeeps(s: seq<Token>, r: seq<Token>)
    requires ExtendsStructurally(s, r)
    ensures Items(r) == Items(s) && Texts(r) == Texts(s)
    ensures LinesAtTop(s) ==> LinesAtTop(r)
    decreases |r|
  {
    if |r| == |s| {
      assert r == r[..|s|];
    } else {
      var init := r[..|r| - 1];
      assert init[..|s|] == r[..|s|];
      ExtendsKeeps(s, init);
      if LinesAtTop(s) {
        forall j | 0 <= j < |r| && r[j].Line?
          ensures Containers(r[..j]) == Some([])
        {
          assert r[..j] == init[..j];
        }
      }
    }
  }

  lemma {:induction false} SnocItems(ts: seq<Token>, t: Token)
    ensures Items(ts + [t]) == Items(ts) + (if t.Li? then [t.content] else [])
    ensures Texts(ts + [t]) == Texts(ts) + (if t.Line? then [t.text] else [])
  {
    assert (ts + [t])[..|ts|] == ts;
  }

  lemma {:induction false} SnocKeeps(ts: seq<Token>, t: Token)
    requires LinesAtTop(ts)
    requires t.Line? ==> Containers(ts) == Some([])
    ensures Items(ts + [t]) == Items(ts) + (if t.Li? then [t.content] else [])
    ensures Texts(ts + [t]) == Texts(ts) + (if t.Line? then [t.text] else [])
    ensures LinesAtTop(ts + [t])
  {
    var r := ts + [t];
    SnocItems(ts, t);
    forall j | 0 <= j < |r| && r[j].Line?
      ensures Containers(r[..j]) == Some([])
    {
      assert r[..j] == ts[..j] || j == |ts|;
    }
  }

  predicate Tracks(s: ListState, lines: seq<string>) {
    Good(s) && LinesAtTop(s.result) &&
    Items(s.result) == MatchedContents(lines) && Texts(s.result) == UnmatchedLines(lines)
  }

  lemma {:induction false} ListLineTracks(s: ListState, lines: seq<string>, line: string)
    requires Tracks(s, lines)
    ensures Tracks(ListLine(s, line), lines + [line])
  {
    assert (lines + [line])[..|lines|] == lines;
    ListLineGood(s, line);
    match MatchItem(line)
    case Some(it) =>
      var c := CloseDeeper(s, it.depth);
      var p := Place(c, it);
      ExtendsTrans(s.result, c.result, p.result);
      ExtendsKeeps(s.result, p.result);
      SnocKeeps(p.result, Li(it.content));
    case None =>
      var c := CloseAll(s);
      ExtendsKeeps(s.result, c.result);
      CloseAllGood(s);
      SnocKeeps(c.result, Line(line));
  }

  lemma {:induction false} RunTracks(lines: seq<string>)
    ensures Tracks(Run(lines), lines)
    decreases |lines|
  {
    if |lines| > 0 {
      var init := lines[..|lines| - 1];
      RunTracks(init);
      assert init + [lines[|lines| - 1]] == lines;
      ListLineTracks(Run(init), init, lines[|lines| - 1]);
    }
  }

  /** Each list line yields exactly one `<li>` carrying its content, in input order;
      each other line is emitted unchanged, in order, where every container is
      closed. */
  lemma {:induction false} ListContents(lines: seq<string>)
    ensures Items(ProcessListsSpec(lines)) == MatchedContents(lines)
    ensures Texts(ProcessListsSpec(lines)) == UnmatchedLines(lines)
    ensures LinesAtTop(ProcessListsSpec(lines))
  {
    RunTracks(lines);
    ExtendsKeeps(Run(lines).result, ProcessListsSpec(lines));
  }

  // ---------------------------------------------------------------------------
  // Items: where `<li>` and `</li>` stand

  /** An open element: a list container or a list item. */
  datatype Tag = InList(kind: ListType) | InItem

  /** Reading one more token against the open elements, or None when the token is out
      of place: a container opens only at the top level or inside an item, an item only
      directly inside a container, a closing tag must close the innermost open element,
      and a copied line stands only at the top level. */
  function NestStep(open: seq<Tag>, t: Token): Option<seq<Tag>> {
    match t
    case Open(k) => if |open| == 0 || open[|open| - 1] == InItem then Some(open + [InList(k)]) else None
    case Close(k) => if |open| > 0 && open[|open| - 1] == InList(k) then Some(open[..|open| - 1]) else None
    case Li(_) => if |open| > 0 && open[|open| - 1].InList? then Some(open + [InItem]) else None
    case LiClose => if |open| > 0 && open[|open| - 1] == InItem then Some(open[..|open| - 1]) else None
    case Line(_) => if |open| == 0 then Some(open) else None
  }

  /** The elements a token sequence leaves open, or None when a token is out of place. */
  function Nesting(ts: seq<Token>): Option<seq<Tag>>
    decreases |ts|
  {
    if |ts| == 0 then Some([])
    else
      match Nesting(ts[..|ts| - 1])
      case None => None
      case Some(open) => NestStep(open, ts[|ts| - 1])
  }

  /** Lists and items are properly nested and all closed: a `<ul>` or `<ol>` holds only
      `<li>` elements, as the content model of those elements in the WHATWG HTML Living
      Standard requires, and nested lists sit inside an item. */
  predicate WellNested(ts: seq<Token>) {
    Nesting(ts) == Some([])
  }

  lemma {:induction false} NestingSnoc(ts: seq<Token>, t: Token)
    ensures Nesting(ts + [t]) == if Nesting(ts).Some? then NestStep(Nesting(ts).value, t) else None
  {
    assert (ts + [t])[..|ts|] == ts;
  }

  /** Once a token is out of place, no continuation repairs it. */
  lemma {:induction false} NestingStaysBroken(ts: seq<Token>, more: seq<Token>)
    requires Nesting(ts) == None
    ensures Nesting(ts + more) == None
    decreases |more|
  {
    if |more| == 0 {
      assert ts + more == ts;
    } else {
      var init := more[..|more| - 1];
      NestingStaysBroken(ts, init);
      assert ts + more == (ts + init) + [more[|more| - 1]];
      NestingSnoc(ts + init, more[|more| - 1]);
    }
  }

  /** An item placed more than one level deeper than the open containers: on its own,
      the pass emits a bare `<li>` outside any list. */
  lemma {:induction false} OrphanItem(line: string)
    requires MatchItem(line).Some? && MatchItem(line).value.depth > 0
    ensures ProcessListsSpec([line]) == [Li(MatchItem(line).value.content)]
    ensures !WellNested(ProcessListsSpec([line]))
  {
    var it := MatchItem(line).value;
    var s0 := ListState([], []);
    assert [line][..0] == [];
    assert Run([line]) == ListLine(s0, line);
    assert CloseDeeper(s0, it.depth) == s0;
    assert Place(s0, it) == s0;
    var t := [Li(it.content)];
    assert ListLine(s0, line) == ListState([], t);
    assert CloseAll(ListState([], t)) == ListState([], t);
    NestingSnoc([], t[0]);
    assert [] + [t[0]] == t;
  }

  /** "- " followed by content, after an indentation of white space, is an item whose
      depth is half the indentation. */
  lemma {:induction false} MatchBullet(ind: string, c: string)
    requires forall i :: 0 <= i < |ind| ==> IsJsSpace(ind[i])
    requires forall i :: 0 <= i < |c| ==> !IsLineTerminator(c[i])
    requires |c| > 0 ==> !IsJsSpace(c[0])
    ensures MatchItem(ind + "- " + c) == Some(Item(|ind| / 2, Ul, c))
  {
    var line := ind + "- " + c;
    var n := |ind|;
    assert line[n] == '-' && line[n + 1] == ' ';
    assert forall j :: 0 <= j < n ==> line[j] == ind[j];
    assert forall j :: n + 2 <= j < |line| ==> line[j] == c[j - n - 2];
    RunEndAt(line, 0, IsNotJsSpace, n);
    RunEndAt(line, n + 1, IsNotJsSpace, n + 2);
    RunEndAt(line, n + 2, IsLineTerminator, |line|);
    assert line[n + 2..] == c;
  }

  lemma {:induction false} FirstItemOpens(line: string, it: Item)
    requires MatchItem(line) == Some(it) && it.depth == 0
    ensures Run([line]) == ListState([Frame(it.kind, 0)], [Open(it.kind), Li(it.content)])
  {
    var s0 := ListState([], []);
    assert [line][..0] == [];
    assert Run([line]) == ListLine(s0, line);
    assert CloseDeeper(s0, 0) == s0;
  }

  lemma {:induction false} SecondItemNests(l1: string, l2: string, i1: Item, i2: Item)
    requires Run([l1]) == ListState([Frame(i1.kind, 0)], [Open(i1.kind), Li(i1.content)])
    requires MatchItem(l2) == Some(i2) && i2.depth == 1
    ensures Run([l1, l2])
         == ListState([Frame(i1.kind, 0), Frame(i2.kind, 1)], [Open(i1.kind), Li(i1.content), LiClose, Open(i2.kind), Li(i2.content)])
  {
    var s1 := Run([l1]);
    assert [l1, l2][..1] == [l1];
    assert Run([l1, l2]) == ListLine(s1, l2);
    assert CloseDeeper(s1, 1) == s1;
    assert Render(Li(i1.content))[1] == 'l';
    assert !LastIs(s1.result, Render(Open(i2.kind)));
    assert Place(s1, i2).result == s1.result + [LiClose] + [Open(i2.kind)];
  }

  /** The nested list of "- a" followed by "  - b" stands directly inside the outer
      `<ul>`, so the output is not well nested, whatever lines follow. */
  lemma {:induction false} NestedListOutsideItem(a: string, b: string, more: seq<string>)
    requires forall i :: 0 <= i < |a| ==> !IsLineTerminator(a[i])
    requires forall i :: 0 <= i < |b| ==> !IsLineTerminator(b[i])
    requires |a| > 0 ==> !IsJsSpace(a[0])
    requires |b| > 0 ==> !IsJsSpace(b[0])
    ensures !WellNested(ProcessListsSpec(["- " + a, "  - " + b] + more))
  {
    var l1, l2 := "- " + a, "  - " + b;
    assert MatchItem(l1) == Some(Item(0, Ul, a)) by {
      MatchBullet("", a);
      assert "" + "- " + a == l1;
    }
    assert MatchItem(l2) == Some(Item(1, Ul, b)) by {
      MatchBullet("  ", b);
      assert "  " + "- " + b == l2;
    }
    NestedListBroken("- " + a, "  - " + b, Item(0, Ul, a), Item(1, Ul, b), more);
  }

  /** "- a" followed by "  - b": the first item is closed before the nested list
      opens, so the buffer reads `<ul>`, `<li>a`, `</li>`, `<ul>`, `<li>b`. */
  lemma {:induction false} NestedListBroken(l1: string, l2: string, i1: Item, i2: Item, more: seq<string>)
    requires MatchItem(l1) == Some(i1) && i1.depth == 0
    requires MatchItem(l2) == Some(i2) && i2.depth == 1
    ensures !WellNested(ProcessListsSpec([l1, l2] + more))
  {
    FirstItemOpens(l1, i1);
    SecondItemNests(l1, l2, i1, i2);
    var bad := [Open(i1.kind), Li(i1.content), LiClose, Open(i2.kind)];
    BadPrefix(i1.kind, i1.content, i2.kind);
    NestingStaysBroken(bad, [Li(i2.content)]);
    assert bad + [Li(i2.content)] == Run([l1, l2]).result;
    StaysBroken([l1, l2], more);
  }

  /** Once the buffer is not well nested, no later line and no closing repairs it. */
  lemma {:induction false} StaysBroken(lines: seq<string>, more: seq<string>)
    requires Nesting(Run(lines).result) == None
    ensures !WellNested(ProcessListsSpec(lines + more))
  {
    var all := lines + more;
    var out := ProcessListsSpec(all);
    assert all[..|lines|] == lines;
    RunPrefix(all, |lines|);
    var pre := Run(lines).result;
    assert out[..|pre|] == pre;
    NestingStaysBroken(pre, out[|pre|..]);
    assert pre + out[|pre|..] == out;
  }

  /** A container opened right after an item is closed stands directly inside a
      container. */
  lemma {:induction false} BadPrefix(k1: ListType, c: string, k2: ListType)
    ensures Nesting([Open(k1), Li(c), LiClose, Open(k2)]) == None
  {
    NestingSnoc([], Open(k1));
    assert [] + [Open(k1)] == [Open(k1)];
    NestingSnoc([Open(k1)], Li(c));
    assert [Open(k1)] + [Li(c)] == [Open(k1), Li(c)];
    NestingSnoc([Open(k1), Li(c)], LiClose);
    assert [Open(k1), Li(c)] + [LiClose] == [Open(k1), Li(c), LiClose];
    NestingSnoc([Open(k1), Li(c), LiClose], Open(k2));
    assert [Open(k1), Li(c), LiClose] + [Open(k2)] == [Open(k1), Li(c), LiClose, Open(k2)];
  }

  /** Later lines only append to the buffer. */
  lemma {:induction false} RunPrefix(lines: seq<string>, n: nat)
    requires n <= |lines|
    ensures ExtendsBuffer(Run(lines[..n]).result, Run(lines).result)
    decreases |lines|
  {
    if n < |lines| {
      var init := lines[..|lines| - 1];
      assert init[..n] == lines[..n];
      RunPrefix(init, n);
      ListLineExtends(Run(init), lines[|lines| - 1]);
    } else {
      assert lines[..n] == lines;
    }
  }

  /** t starts with s. */
  predicate ExtendsBuffer(s: seq<Token>, t: seq<Token>) {
    |s| <= |t| && t[..|s|] == s
  }

  lemma {:induction false} ListLineExtends(s: ListState, line: string)
    ensures ExtendsBuffer(s.result, ListLine(s, line).result)
  {
    match MatchItem(line)
    case Some(it) =>
      var c := CloseDeeper(s, it.depth);
      ExtendsTrans(s.result, c.result, Place(c, it).result);
    case None =>
  }

  // ---------------------------------------------------------------------------
  // The pass with each nested list inside the item before it

  /** Closing the innermost container closes its open item first; the item of the
      container outside it stays open. */
  function FixedCloseDeeper(s: ListState, depth: nat): (r: ListState)
    ensures |r.stack| == if |s.stack| > depth + 1 then depth + 1 else |s.stack|
    ensures r.stack == s.stack[..|r.stack|]
    ensures ExtendsStructurally(s.result, r.result)
    decreases |s.stack|
  {
    if |s.stack| > depth + 1 then
      var top := s.stack[|s.stack| - 1];
      var rest := s.stack[..|s.stack| - 1];
      var out := s.result + [LiClose, Close(top.kind)];
      var r := FixedCloseDeeper(ListState(rest, out), depth);
      ExtendsStep(s.result, out, r.result);
      assert rest[..|r.stack|] == s.stack[..|r.stack|];
      r
    else s
  }

  function FixedCloseAll(s: ListState): (r: ListState)
    ensures r.stack == []
    ensures ExtendsStructurally(s.result, r.result)
    decreases |s.stack|
  {
    if |s.stack| > 0 then
      var top := s.stack[|s.stack| - 1];
      var out := s.result + [LiClose, Close(top.kind)];
      var r := FixedCloseAll(ListState(s.stack[..|s.stack| - 1], out));
      ExtendsStep(s.result, out, r.result);
      r
    else s
  }

  /** A deeper item opens a container one level in, inside the open item; an item at
      the innermost level closes the previous item, and the container too when the
      marker type changes. */
  function FixedPlace(s: ListState, it: Item): (r: ListState)
    ensures ExtendsStructurally(s.result, r.result)
  {
    if |s.stack| <= it.depth then
      ListState(s.stack + [Frame(it.kind, |s.stack|)], s.result + [Open(it.kind)])
    else
      var top := s.stack[|s.stack| - 1];
      if top.kind != it.kind then
        ListState(s.stack[..|s.stack| - 1] + [Frame(it.kind, |s.stack| - 1)], s.result + [LiClose, Close(top.kind), Open(it.kind)])
      else ListState(s.stack, s.result + [LiClose])
  }

  function FixedLine(s: ListState, line: string): ListState {
    match MatchItem(line)
    case Some(it) =>
      var p := FixedPlace(FixedCloseDeeper(s, it.depth), it);
      ListState(p.stack, p.result + [Li(it.content)])
    case None =>
      var c := FixedCloseAll(s);
      ListState(c.stack, c.result + [Line(line)])
  }

  function FixedRun(lines: seq<string>): ListState
    decreases |lines|
  {
    if |lines| == 0 then ListState([], [])
    else FixedLine(FixedRun(lines[..|lines| - 1]), lines[|lines| - 1])
  }

  /** The list pass with nested lists placed inside items. */
  function FixedProcessLists(lines: seq<string>): seq<Token> {
    FixedCloseAll(FixedRun(lines)).result
  }

  /** The elements open between two lines: each container on the stack, and inside it
      its current item. */
  function Expected(stack: seq<Frame>): (r: seq<Tag>)
    ensures |r| == 2 * |stack|
    decreases |stack|
  {
    if |stack| == 0 then []
    else Expected(stack[..|stack| - 1]) + [InList(stack[|stack| - 1].kind), InItem]
  }

  predicate FixedGood(s: ListState) {
    DepthsAreIndices(s.stack) && Nesting(s.result) == Some(Expected(s.stack))
  }

  lemma {:induction false} FixedPop(s: ListState)
    requires FixedGood(s) && |s.stack| > 0
    ensures FixedGood(ListState(s.stack[..|s.stack| - 1], s.result + [LiClose, Close(s.stack[|s.stack| - 1].kind)]))
  {
    var k := s.stack[|s.stack| - 1].kind;
    var e := Expected(s.stack[..|s.stack| - 1]);
    NestingSnoc(s.result, LiClose);
    assert (e + [InList(k), InItem])[..2 * |s.stack| - 1] == e + [InList(k)];
    NestingSnoc(s.result + [LiClose], Close(k));
    assert (e + [InList(k)])[..|e|] == e;
    assert s.result + [LiClose] + [Close(k)] == s.result + [LiClose, Close(k)];
  }

  lemma {:induction false} FixedOpen(s: ListState, k: ListType, c: string)
    requires FixedGood(s)
    ensures FixedGood(ListState(s.stack + [Frame(k, |s.stack|)], s.result + [Open(k)] + [Li(c)]))
  {
    var e := Expected(s.stack);
    NestingSnoc(s.result, Open(k));
    NestingSnoc(s.result + [Open(k)], Li(c));
    assert (s.stack + [Frame(k, |s.stack|)])[..|s.stack|] == s.stack;
    assert e + [InList(k)] + [InItem] == e + [InList(k), InItem];
  }

  lemma {:induction false} FixedContinue(s: ListState, c: string)
    requires FixedGood(s) && |s.stack| > 0
    ensures FixedGood(ListState(s.stack, s.result + [LiClose] + [Li(c)]))
  {
    var k := s.stack[|s.stack| - 1].kind;
    var e := Expected(s.stack[..|s.stack| - 1]);
    NestingSnoc(s.result, LiClose);
    assert (e + [InList(k), InItem])[..2 * |s.stack| - 1] == e + [InList(k)];
    NestingSnoc(s.result + [LiClose], Li(c));
    assert e + [InList(k)] + [InItem] == e + [InList(k), InItem];
  }

  lemma {:induction false} FixedPlaceGood(s: ListState, it: Item)
    requires FixedGood(s) && |s.stack| <= it.depth + 1
    ensures var p := FixedPlace(s, it); FixedGood(ListState(p.stack, p.result + [Li(it.content)]))
  {
    if |s.stack| <= it.depth {
      FixedOpen(s, it.kind, it.content);
    } else if s.stack[|s.stack| - 1].kind != it.kind {
      var top := s.stack[|s.stack| - 1];
      var closed := ListState(s.stack[..|s.stack| - 1], s.result + [LiClose, Close(top.kind)]);
      FixedPop(s);
      FixedOpen(closed, it.kind, it.content);
      assert closed.result + [Open(it.kind)] == s.result + [LiClose, Close(top.kind), Open(it.kind)];
    } else {
      FixedContinue(s, it.content);
    }
  }

  lemma {:induction false} FixedCloseDeeperGood(s: ListState, depth: nat)
    requires FixedGood(s)
    ensures FixedGood(FixedCloseDeeper(s, depth))
    decreases |s.stack|
  {
    if |s.stack| > depth + 1 {
      var top := s.stack[|s.stack| - 1];
      FixedPop(s);
      FixedCloseDeeperGood(ListState(s.stack[..|s.stack| - 1], s.result + [LiClose, Close(top.kind)]), depth);
    }
  }

  lemma {:induction false} FixedCloseAllGood(s: ListState)
    requires FixedGood(s)
    ensures FixedGood(FixedCloseAll(s))
    decreases |s.stack|
  {
    if |s.stack| > 0 {
      var top := s.stack[|s.stack| - 1];
      FixedPop(s);
      FixedCloseAllGood(ListState(s.stack[..|s.stack| - 1], s.result + [LiClose, Close(top.kind)]));
    }
  }

  predicate FixedTracks(s: ListState, lines: seq<string>) {
    FixedGood(s) && Items(s.result) == MatchedContents(lines) && Texts(s.result) == UnmatchedLines(lines)
  }

  lemma {:induction false} FixedLineTracks(s: ListState, lines: seq<string>, line: string)
    requires FixedTracks(s, lines)
    ensures FixedTracks(FixedLine(s, line), lines + [line])
  {
    assert (lines + [line])[..|lines|] == lines;
    match MatchItem(line)
    case Some(it) =>
      var c := FixedCloseDeeper(s, it.depth);
      FixedCloseDeeperGood(s, it.depth);
      var p := FixedPlace(c, it);
      FixedPlaceGood(c, it);
      ExtendsTrans(s.result, c.result, p.result);
      ExtendsKeeps(s.result, p.result);
      SnocItems(p.result, Li(it.content));
    case None =>
      var c := FixedCloseAll(s);
      FixedCloseAllGood(s);
      ExtendsKeeps(s.result, c.result);
      SnocItems(c.result, Line(line));
      NestingSnoc(c.result, Line(line));
  }

  lemma {:induction false} FixedRunTracks(lines: seq<string>)
    ensures FixedTracks(FixedRun(lines), lines)
    decreases |lines|
  {
    if |lines| > 0 {
      var init := lines[..|lines| - 1];
      FixedRunTracks(init);
      assert init + [lines[|lines| - 1]] == lines;
      FixedLineTracks(FixedRun(init), init, lines[|lines| - 1]);
    }
  }

  /** With nested lists inside items, every input yields well-nested output, with the
      same items and the same copied lines, in the same order, as the pass as written. */
  lemma {:induction false} FixedListsWellNested(lines: seq<string>)
    ensures WellNested(FixedProcessLists(lines))
    ensures Items(FixedProcessLists(lines)) == Items(ProcessListsSpec(lines))
    ensures Texts(FixedProcessLists(lines)) == Texts(ProcessListsSpec(lines))
  {
    FixedRunTracks(lines);
    FixedCloseAllGood(FixedRun(lines));
    ExtendsKeeps(FixedRun(lines).result, FixedProcessLists(lines));
    ListContents(lines);
  }

  /** Without copied lines, every token is a tag. */
  lemma {:induction false} NoTextsNoLines(ts: seq<Token>)
    requires Texts(ts) == []
    ensures forall j :: 0 <= j < |ts| ==> !ts[j].Line?
    decreases |ts|
  {
    if |ts| > 0 {
      var init := ts[..|ts| - 1];
      NoTextsNoLines(init);
      forall j | 0 <= j < |ts|
        ensures !ts[j].Line?
      {
        if j < |init| {
          assert ts[j] == init[j];
        }
      }
    }
  }

  lemma {:induction false} AllItemsNoUnmatched(lines: seq<string>)
    requires forall i :: 0 <= i < |lines| ==> MatchItem(lines[i]).Some?
    ensures UnmatchedLines(lines) == []
    decreases |lines|
  {
    if |lines| > 0 {
      AllItemsNoUnmatched(lines[..|lines| - 1]);
    }
  }
}
