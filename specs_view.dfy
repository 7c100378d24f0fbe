/** The specs table: the search and the phase and status filters, the column sort with
    its remembered direction, and the stored filtered list they share. */
module SpecsView {
  import opened Wrappers
  import opened Text
  import opened SpecData
  import opened Sorting

  // ---------------------------------------------------------------------------
  // Filtering

  /** The three filter inputs; the search is already lower-cased, and an empty value
      switches its filter off. */
  datatype Filters = Filters(search: string, phase: string, status: string)

  function TaskNames(ts: seq<TaskInfo>): (r: seq<string>)
    ensures |r| == |ts| && forall i :: 0 <= i < |ts| ==> r[i] == Lower(ts[i].name)
  {
    seq(|ts|, i requires 0 <= i < |ts| => Lower(ts[i].name))
  }

  function TaskDescriptions(ts: seq<TaskInfo>): (r: seq<string>)
    ensures |r| == |ts| && forall i :: 0 <= i < |ts| ==> r[i] == Lower(ts[i].description)
  {
    seq(|ts|, i requires 0 <= i < |ts| => Lower(ts[i].description))
  }

  /** The lower-cased fields the search looks in, in the order they are joined. */
  function SearchFields(spec: SpecMetadata): seq<string> {
    [Lower(spec.feature), Lower(spec.phase), Lower(spec.status)] +
    TaskNames(spec.tasks) + TaskDescriptions(spec.tasks)
  }

  /** The text the search looks in: the fields joined with single spaces. */
  function SearchText(spec: SpecMetadata): string {
    Join(SearchFields(spec), " ")
  }

  /** The predicate handed to `filter`. */
  predicate Keep(spec: SpecMetadata, f: Filters) {
    (f.search == "" || Contains(SearchText(spec), f.search)) &&
    (f.phase == "" || spec.phase == f.phase) &&
    (f.status == "" || spec.status == f.status)
  }

  /** `specs.filter(Keep)`. */
  function Filter(specs: seq<SpecMetadata>, f: Filters): seq<SpecMetadata>
    decreases |specs|
  {
    if |specs| == 0 then []
    else (if Keep(specs[0], f) then [specs[0]] else []) + Filter(specs[1..], f)
  }

  /** Every kept spec passes every filter, every spec that passes them is kept, and the
      kept specs keep their order. */
  lemma {:induction false} FilterKeepsExactly(specs: seq<SpecMetadata>, f: Filters)
    ensures forall i :: 0 <= i < |Filter(specs, f)| ==> Keep(Filter(specs, f)[i], f)
    ensures forall s :: s in specs && Keep(s, f) ==> s in Filter(specs, f)
    ensures SubsequenceOf(Filter(specs, f), specs)
    decreases |specs|
  {
    if |specs| > 0 {
      var rest := Filter(specs[1..], f);
      FilterKeepsExactly(specs[1..], f);
      var r := Filter(specs, f);
      if Keep(specs[0], f) {
        assert r == [specs[0]] + rest;
        assert r[1..] == rest;
      } else {
        assert r == rest;
        if |r| > 0 {
          assert SubsequenceOf(r, specs[1..]);
        }
      }
      forall s | s in specs && Keep(s, f)
        ensures s in r
      {
        if s != specs[0] {
          assert s in specs[1..] by {
            var k :| 0 <= k < |specs| && specs[k] == s;
            assert specs[1..][k - 1] == s;
          }
        }
      }
    }
  }

  /** With the search, phase and status all empty the list is kept whole. */
  lemma {:induction false} EmptyFiltersKeepAll(specs: seq<SpecMetadata>)
    ensures Filter(specs, Filters("", "", "")) == specs
    decreases |specs|
  {
    if |specs| > 0 {
      EmptyFiltersKeepAll(specs[1..]);
      assert specs == [specs[0]] + specs[1..];
    }
  }

  /** Filtering the result again with the same values changes nothing. */
  lemma {:induction false} FilterIdempotent(specs: seq<SpecMetadata>, f: Filters)
    ensures Filter(Filter(specs, f), f) == Filter(specs, f)
    decreases |specs|
  {
    if |specs| > 0 {
      FilterIdempotent(specs[1..], f);
      var rest := Filter(specs[1..], f);
      if Keep(specs[0], f) {
        var r := [specs[0]] + rest;
        assert Filter(specs, f) == r;
        assert r[0] == specs[0] && r[1..] == rest;
        assert Filter(r, f) == [specs[0]] + Filter(rest, f);
      } else {
        assert Filter(specs, f) == [] + rest == rest;
      }
    }
  }

  /** A kept spec has the selected phase and status. */
  lemma {:induction false} KeptMatchesSelection(specs: seq<SpecMetadata>, f: Filters, i: nat)
    requires i < |Filter(specs, f)|
    ensures f.phase != "" ==> Filter(specs, f)[i].phase == f.phase
    ensures f.status != "" ==> Filter(specs, f)[i].status == f.status
    ensures f.search != "" ==> Contains(SearchText(Filter(specs, f)[i]), f.search)
  {
    FilterKeepsExactly(specs, f);
    assert Keep(Filter(specs, f)[i], f);
  }

  lemma {:induction false} ContainsInPrefix(a: string, b: string, t: string)
    requires Contains(a, t)
    ensures Contains(a + b, t)
  {
    var i :| 0 <= i <= |a| && OccursAt(a, t, i);
    assert (a + b)[i..i + |t|] == a[i..i + |t|];
    assert OccursAt(a + b, t, i);
  }

  lemma {:induction false} ContainsInSuffix(a: string, b: string, t: string)
    requires Contains(b, t)
    ensures Contains(a + b, t)
  {
    var i :| 0 <= i <= |b| && OccursAt(b, t, i);
    assert (a + b)[|a| + i..|a| + i + |t|] == b[i..i + |t|];
    assert OccursAt(a + b, t, |a| + i);
  }

  /** A query found in one of the joined fields is found in the joined text. */
  lemma {:induction false} JoinContainsField(parts: seq<string>, i: nat, t: string)
    requires i < |parts| && Contains(parts[i], t)
    ensures Contains(Join(parts, " "), t)
    decreases |parts|
  {
    if |parts| > 1 {
      JoinCons(parts[0], parts[1..], " ");
      assert parts == [parts[0]] + parts[1..];
      if i == 0 {
        ContainsInPrefix(parts[0], " " + Join(parts[1..], " "), t);
        AppendAssoc(parts[0], " ", Join(parts[1..], " "));
      } else {
        JoinContainsField(parts[1..], i - 1, t);
        ContainsInSuffix(parts[0] + " ", Join(parts[1..], " "), t);
      }
    }
  }

  /** Where each field sits in the joined list. */
  lemma {:induction false} SearchFieldsAt(spec: SpecMetadata, k: nat)
    requires k < |spec.tasks|
    ensures var fields := SearchFields(spec);
      |fields| == 3 + 2 * |spec.tasks| &&
      fields[3 + k] == Lower(spec.tasks[k].name) &&
      fields[3 + |spec.tasks| + k] == Lower(spec.tasks[k].description)
  {
  }

  /** A spec whose lower-cased feature, phase, status or any task's name or description
      contains the query passes the search. */
  lemma {:induction false} SearchFindsField(spec: SpecMetadata, query: string)
    requires query != ""
    requires Contains(Lower(spec.feature), query) || Contains(Lower(spec.phase), query) ||
             Contains(Lower(spec.status), query) ||
             (exists k :: 0 <= k < |spec.tasks| && Contains(Lower(spec.tasks[k].name), query)) ||
             (exists k :: 0 <= k < |spec.tasks| && Contains(Lower(spec.tasks[k].description), query))
    ensures Keep(spec, Filters(query, "", ""))
  {
    var fields := SearchFields(spec);
    var n := |spec.tasks|;
    if Contains(Lower(spec.feature), query) {
      JoinContainsField(fields, 0, query);
    } else if Contains(Lower(spec.phase), query) {
      JoinContainsField(fields, 1, query);
    } else if Contains(Lower(spec.status), query) {
      JoinContainsField(fields, 2, query);
    } else if exists k :: 0 <= k < n && Contains(Lower(spec.tasks[k].name), query) {
      var k :| 0 <= k < n && Contains(Lower(spec.tasks[k].name), query);
      SearchFieldsAt(spec, k);
      JoinContainsField(fields, 3 + k, query);
    } else {
      var k :| 0 <= k < n && Contains(Lower(spec.tasks[k].description), query);
      SearchFieldsAt(spec, k);
      JoinContainsField(fields, 3 + n + k, query);
    }
  }

  // ---------------------------------------------------------------------------
  // Sorting

  /** A sort key: a string, or a non-negative ratio num/den with den > 0 (numbers are
      ratios over 1). */
  datatype Key = Text(s: string) | Ratio(num: nat, den: nat)

  /** The columns the comparator knows. */
  predicate KnownColumn(column: string) {
    column in ["status", "feature", "phase", "date", "progress", "effort", "modified"]
  }

  /** The key the comparator reads for a column, or None for a column it does not know. */
  function KeyOf(column: string, spec: SpecMetadata): (k: Option<Key>)
    ensures k.Some? <==> KnownColumn(column)
    ensures k.Some? && k.value.Ratio? ==> k.value.den > 0
  {
    match column
    case "status" => Some(Text(spec.status))
    case "feature" => Some(Text(spec.feature))
    case "phase" => Some(Text(spec.phase))
    case "date" => Some(Text(spec.created))
    case "progress" =>
      Some(if spec.taskCount > 0 then Ratio(spec.completedTasks, spec.taskCount) else Ratio(0, 1))
    case "effort" => Some(Ratio(spec.sizeBytes, 1))
    case "modified" => Some(Ratio(spec.lastModified.GetOr(0), 1))
    case _ => None
  }

  /** JavaScript's `<` on two keys of one column. */
  predicate KeyLess(a: Key, b: Key) {
    match (a, b)
    case (Text(x), Text(y)) => LexLess(x, y)
    case (Ratio(p, q), Ratio(r, t)) => p * t < r * q
    case _ => false
  }

  lemma {:induction false} KeyLessAsymmetric(a: Key, b: Key)
    ensures KeyLess(a, b) ==> !KeyLess(b, a)
  {
    if a.Text? && b.Text? {
      LexLessAsymmetric(a.s, b.s);
    }
  }

  /** The comparator handed to `sort`. */
  function Compare(column: string, ascending: bool, a: SpecMetadata, b: SpecMetadata): int {
    match (KeyOf(column, a), KeyOf(column, b))
    case (Some(x), Some(y)) =>
      if KeyLess(x, y) then (if ascending then -1 else 1)
      else if KeyLess(y, x) then (if ascending then 1 else -1)
      else 0
    case _ => 0
  }

  lemma {:induction false} CompareAntisymmetric(column: string, ascending: bool, a: SpecMetadata, b: SpecMetadata)
    ensures Compare(column, ascending, a, b) == -Compare(column, ascending, b, a)
  {
    if KeyOf(column, a).Some? && KeyOf(column, b).Some? {
      KeyLessAsymmetric(KeyOf(column, a).value, KeyOf(column, b).value);
    }
  }

  /** The comparator as a function value. */
  function Comparator(column: string, ascending: bool): (SpecMetadata, SpecMetadata) -> int {
    (a, b) => Compare(column, ascending, a, b)
  }

  lemma {:induction false} ComparatorAntisymmetric(column: string, ascending: bool)
    ensures Antisymmetric(Comparator(column, ascending))
  {
    forall a, b ensures Compare(column, ascending, a, b) == -Compare(column, ascending, b, a) {
      CompareAntisymmetric(column, ascending, a, b);
    }
  }

  /** `Array.prototype.sort` with the comparator: section 23.1.3.30 of ECMA-262 makes
      the sort stable, and a stable sort by a consistent comparator has exactly one
      result, the one this insertion sort builds. */
  function SortBy(column: string, ascending: bool, specs: seq<SpecMetadata>): seq<SpecMetadata> {
    SortWith(Comparator(column, ascending), specs)
  }

  /** The sorted list is a permutation of the input, and neighbours are in comparator
      order. */
  lemma {:induction false} SortFacts(column: string, ascending: bool, specs: seq<SpecMetadata>)
    ensures multiset(SortBy(column, ascending, specs)) == multiset(specs)
    ensures forall i :: 0 <= i < |specs| - 1 ==>
      Compare(column, ascending, SortBy(column, ascending, specs)[i], SortBy(column, ascending, specs)[i + 1]) <= 0
  {
    ComparatorAntisymmetric(column, ascending);
    SortWithFacts(Comparator(column, ascending), specs);
  }

  /** Ascending, every key is at most the next one; descending, at least. */
  lemma {:induction false} SortedByKey(column: string, ascending: bool, specs: seq<SpecMetadata>, i: nat)
    requires KnownColumn(column)
    requires i + 1 < |SortBy(column, ascending, specs)|
    ensures var r := SortBy(column, ascending, specs);
      KeyOf(column, r[i]).Some? && KeyOf(column, r[i + 1]).Some? &&
      (ascending ==> !KeyLess(KeyOf(column, r[i + 1]).value, KeyOf(column, r[i]).value)) &&
      (!ascending ==> !KeyLess(KeyOf(column, r[i]).value, KeyOf(column, r[i + 1]).value))
  {
    SortFacts(column, ascending, specs);
    var r := SortBy(column, ascending, specs);
    assert Compare(column, ascending, r[i], r[i + 1]) <= 0;
    KeyLessAsymmetric(KeyOf(column, r[i]).value, KeyOf(column, r[i + 1]).value);
  }

  /** Under a column the comparator does not know every pair compares equal, and the
      stable sort leaves the order as it was. */
  lemma {:induction false} UnknownColumnKeepsOrder(column: string, ascending: bool, specs: seq<SpecMetadata>)
    requires !KnownColumn(column)
    ensures SortBy(column, ascending, specs) == specs
  {
    var cmp := Comparator(column, ascending);
    assert forall a, b :: cmp(a, b) == 0;
    SortWithEqual(cmp, specs);
  }

  /** The progress fraction completed/task_count, 0 without tasks. */
  function Progress(spec: SpecMetadata): real {
    if spec.taskCount > 0 then spec.completedTasks as real / spec.taskCount as real else 0.0
  }

  /** The progress key orders specs as their progress fractions do. */
  lemma {:induction false} ProgressKeyOrdersFractions(a: SpecMetadata, b: SpecMetadata)
    ensures KeyLess(KeyOf("progress", a).value, KeyOf("progress", b).value) <==> Progress(a) < Progress(b)
  {
    var ka := KeyOf("progress", a).value;
    var kb := KeyOf("progress", b).value;
    RatioLess(ka.num, ka.den, kb.num, kb.den);
  }

  lemma {:induction false} RatioLess(p: nat, q: nat, r: nat, t: nat)
    requires q > 0 && t > 0
    ensures p * t < r * q <==> (p as real / q as real) < (r as real / t as real)
  {
    var x := p as real / q as real;
    var y := r as real / t as real;
    assert x * q as real == p as real;
    assert y * t as real == r as real;
    assert (p * t) as real == x * (q as real * t as real);
    assert (r * q) as real == y * (q as real * t as real);
  }

  // ---------------------------------------------------------------------------
  // The stored lists and the sort state

  /** The service's two lists and the table's remembered sort. The lists are None
      where the source's value would be falsy (null). */
  class SpecsStore {
    var specsData: Option<seq<SpecMetadata>>
    var filteredSpecsData: Option<seq<SpecMetadata>>
    var sortColumn: Option<string>
    var sortAscending: bool

    constructor(specs: seq<SpecMetadata>)
      ensures specsData == Some(specs) && filteredSpecsData == Some(specs)
      ensures sortColumn == None
    {
      specsData := Some(specs);
      filteredSpecsData := Some(specs);
      sortColumn := None;
      sortAscending := false;
    }

    /** Filters the loaded specs with the inputs' values (the search is lower-cased
        first), stores the result and returns it for rendering; nothing happens when
        no specs are loaded. */
    method ApplySpecsFilters(searchInput: string, phaseValue: string, statusValue: string)
      returns (rendered: Option<seq<SpecMetadata>>)
      modifies this
      ensures old(specsData).None? ==> rendered.None? && unchanged(this)
      ensures old(specsData).Some? ==>
        rendered == Some(Filter(old(specsData).value, Filters(Lower(searchInput), phaseValue, statusValue)))
      ensures old(specsData).Some? ==> filteredSpecsData == rendered
      ensures specsData == old(specsData)
      ensures sortColumn == old(sortColumn) && sortAscending == old(sortAscending)
    {
      rendered := None;
      if specsData.None? {
        return;
      }
      var filtered := Filter(specsData.value, Filters(Lower(searchInput), phaseValue, statusValue));
      filteredSpecsData := Some(filtered);
      rendered := Some(filtered);
    }

    /** Sorts a copy of the stored filtered list by the column; the direction flips
        when the column is the one sorted last and is ascending otherwise. */
    method SortSpecsTable(column: string) returns (rendered: Option<seq<SpecMetadata>>)
      modifies this
      ensures old(filteredSpecsData).None? ==> rendered.None? && unchanged(this)
      ensures old(filteredSpecsData).Some? ==>
        sortColumn == Some(column) &&
        sortAscending == (if old(sortColumn) == Some(column) then !old(sortAscending) else true)
      ensures old(filteredSpecsData).Some? ==>
        rendered == Some(SortBy(column, sortAscending, old(filteredSpecsData).value))
      ensures specsData == old(specsData) && filteredSpecsData == old(filteredSpecsData)
    {
      rendered := None;
      if filteredSpecsData.None? {
        return;
      }
      var isAscending := if sortColumn == Some(column) then !sortAscending else true;
      sortColumn, sortAscending := Some(column), isAscending;
      rendered := Some(SortBy(column, isAscending, filteredSpecsData.value));
    }
  }
}
