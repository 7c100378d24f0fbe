/** The pipe-table rule of the Markdown renderer: how a header row, a separator row
    and one or more body rows are recognised, and how the recognised text is turned
    into a `<table>` with per-column alignment. */
module MdTable {
  import opened Wrappers
  import opened Text

  datatype Align = Left | Right | Center

  function AlignName(a: Align): string {
    match a
    case Left => "left"
    case Right => "right"
    case Center => "center"
  }

  /** The alignment a separator cell asks for. */
  function AlignOf(cell: string): Align {
    var t := Trim(cell);
    if StartsWith(t, ":") && EndsWith(t, ":") then Center
    else if EndsWith(t, ":") then Right
    else Left
  }

  /** Center exactly for `:…:`, right exactly for `…:` without a leading colon,
      left for everything else (a lone `:` counts as both ends). */
  lemma {:induction false} AlignOfCases(cell: string)
    ensures AlignOf(cell) == Center <==> StartsWith(Trim(cell), ":") && EndsWith(Trim(cell), ":")
    ensures AlignOf(cell) == Right <==> !StartsWith(Trim(cell), ":") && EndsWith(Trim(cell), ":")
    ensures AlignOf(cell) == Left <==> !EndsWith(Trim(cell), ":")
  {
  }

  /** `parts.filter(cell => cell.trim())`: the pieces that are not blank, in order
      (a piece trims to "" exactly when it is blank, `Text.TrimEmptyIff`). */
  function NonBlank(parts: seq<string>): (r: seq<string>)
    ensures |r| <= |parts|
    ensures forall i :: 0 <= i < |r| ==> !Blank(r[i])
    ensures (forall i :: 0 <= i < |parts| ==> !Blank(parts[i])) ==> r == parts
  {
    if |parts| == 0 then []
    else if !Blank(parts[0]) then [parts[0]] + NonBlank(parts[1..])
    else NonBlank(parts[1..])
  }

  /** Every non-blank piece survives the filter, so only blank cells are dropped. */
  lemma {:induction false} NonBlankKeeps(parts: seq<string>, k: nat)
    requires k < |parts| && !Blank(parts[k])
    ensures parts[k] in NonBlank(parts)
  {
    if k > 0 {
      NonBlankKeeps(parts[1..], k - 1);
    }
  }

  function HeaderCells(header: string): seq<string> {
    NonBlank(SplitOn(Trim(header), '|'))
  }

  function Alignments(separator: string): (r: seq<Align>)
    ensures |r| == |NonBlank(SplitOn(Trim(separator), '|'))|
  {
    var cells := NonBlank(SplitOn(Trim(separator), '|'));
    seq(|cells|, i requires 0 <= i < |cells| => AlignOf(cells[i]))
  }

  /** `alignments[i] || 'left'`. */
  function AlignAt(aligns: seq<Align>, i: nat): Align {
    if i < |aligns| then aligns[i] else Left
  }

  datatype BodyCell = BodyCell(align: Align, text: string)

  /** The cells of one body row, each with the alignment of its column. */
  function RowCells(row: string, aligns: seq<Align>): (r: seq<BodyCell>)
    ensures |r| == |NonBlank(SplitOn(row, '|'))|
  {
    var cells := NonBlank(SplitOn(row, '|'));
    seq(|cells|, i requires 0 <= i < |cells| => BodyCell(AlignAt(aligns, i), Trim(cells[i])))
  }

  /** The i-th cell of a row takes the i-th column's alignment, and `left` past the
      last column; its text is the trimmed non-blank piece. */
  lemma {:induction false} RowCellsAlign(row: string, aligns: seq<Align>, i: nat)
    requires i < |RowCells(row, aligns)|
    ensures RowCells(row, aligns)[i].align == (if i < |aligns| then aligns[i] else Left)
    ensures RowCells(row, aligns)[i].text == Trim(NonBlank(SplitOn(row, '|'))[i])
    ensures RowCells(row, aligns)[i].text != ""
  {
    var cells := NonBlank(SplitOn(row, '|'));
    TrimEmptyIff(cells[i]);
  }

  function ConcatAll(parts: seq<string>): string {
    if |parts| == 0 then "" else parts[0] + ConcatAll(parts[1..])
  }

  function HeaderRow(header: string): string {
    var cells := HeaderCells(header);
    "<tr>" + ConcatAll(seq(|cells|, i requires 0 <= i < |cells| => "<th>" + Trim(cells[i]) + "</th>")) + "</tr>"
  }

  function CellHtml(c: BodyCell): string {
    "<td style=\"text-align: " + AlignName(c.align) + "\">" + c.text + "</td>"
  }

  function RowHtml(row: string, aligns: seq<Align>): string {
    var cells := RowCells(row, aligns);
    "<tr>" + ConcatAll(seq(|cells|, i requires 0 <= i < |cells| => CellHtml(cells[i]))) + "</tr>"
  }

  function RenderTable(header: string, separator: string, body: string): string {
    var aligns := Alignments(separator);
    var rows := SplitOn(Trim(body), '\n');
    "<table><thead>" + HeaderRow(header) + "</thead><tbody>"
      + ConcatAll(seq(|rows|, i requires 0 <= i < |rows| => RowHtml(rows[i], aligns)))
      + "</tbody></table>"
  }

  /** `[\s:|-]`, the class of the separator row. */
  predicate IsSeparatorChar(c: char) {
    IsJsSpace(c) || c == ':' || c == '|' || c == '-'
  }

  /** The position of the first newline at or after k, or |t| when there is none. */
  function NextNewline(t: string, k: nat): (n: nat)
    requires k <= |t|
    ensures k <= n <= |t|
    ensures n < |t| ==> t[n] == '\n'
    ensures forall j :: k <= j < n ==> t[j] != '\n'
    decreases |t| - k
  {
    if k == |t| || t[k] == '\n' then k else NextNewline(t, k + 1)
  }

  /** One row `\|[^\n]+\|\n` at q: a bar, at least one character, a bar, and the
      first newline after q. Returns the position after that newline. */
  function Row(t: string, q: nat): (r: Option<nat>)
    ensures r.Some? ==> q + 4 <= r.value <= |t| && t[q] == '|' && t[r.value - 2] == '|'
    ensures r.Some? ==> r.value - 1 == NextNewline(t, q) < |t|
  {
    if q < |t| && t[q] == '|' then
      var n := NextNewline(t, q);
      if n < |t| && n >= q + 3 && t[n - 1] == '|' then Some(n + 1) else None
    else None
  }

  /** `(?:\|[^\n]+\|\n)+` is greedy and nothing follows it: as many rows as match. */
  function RowsEnd(t: string, q: nat): (r: nat)
    requires q <= |t|
    ensures q <= r <= |t|
    decreases |t| - q
  {
    match Row(t, q)
    case Some(q2) => RowsEnd(t, q2)
    case None => q
  }

  /** The end of the run of separator-class characters starting at k. */
  function ClassRunEnd(t: string, k: nat): (r: nat)
    requires k <= |t|
    ensures k <= r <= |t|
    ensures forall j :: k <= j < r ==> IsSeparatorChar(t[j])
    ensures r < |t| ==> !IsSeparatorChar(t[r])
    decreases |t| - k
  {
    if k < |t| && IsSeparatorChar(t[k]) then ClassRunEnd(t, k + 1) else k
  }

  /** Backtracking over the greedy separator class: the largest e, counting down,
      at which a bar, a newline and a first body row follow. */
  function SeparatorEnd(t: string, p: nat, e: nat): (r: Option<nat>)
    requires p < |t| && e <= |t|
    ensures r.Some? ==>
      p + 2 <= r.value <= e && r.value + 1 < |t| && t[r.value] == '|'
      && t[r.value + 1] == '\n'
    ensures r.Some? ==> Row(t, r.value + 2).Some?
    decreases e
  {
    if e < p + 2 then None
    else if e + 1 < |t| && t[e] == '|' && t[e + 1] == '\n' && Row(t, e + 2).Some? then Some(e)
    else SeparatorEnd(t, p, e - 1)
  }

  datatype TableMatch = TableMatch(header: string, separator: string, body: string)

  /** The table regular expression tried at the start of t. */
  function MatchTable(t: string): (r: Option<TableMatch>)
    ensures r.Some? ==> |r.value.header| >= 4 && |r.value.separator| >= 4 && |r.value.body| >= 4
    ensures r.Some? ==>
      var m := r.value;
      |m.header| + |m.separator| + |m.body| <= |t| && m.header + m.separator + m.body == t[..|m.header| + |m.separator| + |m.body|]
  {
    match Row(t, 0)
    case None => None
    case Some(p) =>
      if p < |t| && t[p] == '|' then
        match SeparatorEnd(t, p, ClassRunEnd(t, p + 1))
        case None => None
        case Some(e) =>
          var q := e + 2;
          var rowEnd := Row(t, q).value;
          var end := RowsEnd(t, rowEnd);
          assert t[..end] == t[..p] + t[p..q] + t[q..end];
          Some(TableMatch(t[..p], t[p..q], t[q..end]))
      else None
  }
}
