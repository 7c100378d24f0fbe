/** The dashboard's shared page code: human-readable sizes and ages, the section list
    with its file rows, and the page state the buttons and the toggle update. */
module SharedUi {
  import opened Wrappers
  import opened Text
  import opened ProjectScan

  // ---------------------------------------------------------------------------
  // Sizes

  const Units: seq<string> := ["B", "KB", "MB", "GB", "TB"]

  function Pow1024(k: nat): (r: nat)
    ensures r >= 1
  {
    if k == 0 then 1 else 1024 * Pow1024(k - 1)
  }

  /** The largest k with 1024^k <= n. */
  function Log1024(n: nat): nat
    requires n >= 1
  {
    if n < 1024 then 0 else 1 + Log1024(n / 1024)
  }

  lemma {:induction false} Log1024Bounds(n: nat)
    requires n >= 1
    ensures Pow1024(Log1024(n)) <= n < Pow1024(Log1024(n) + 1)
  {
    if n >= 1024 {
      Log1024Bounds(n / 1024);
      var k := Log1024(n / 1024);
      assert Pow1024(k + 1) == 1024 * Pow1024(k);
      assert Pow1024(k + 2) == 1024 * Pow1024(k + 1);
    }
  }

  lemma {:induction false} Pow1024Monotone(j: nat, k: nat)
    requires j <= k
    ensures Pow1024(j) <= Pow1024(k)
    decreases k
  {
    if j < k {
      Pow1024Monotone(j, k - 1);
    }
  }

  /** The unit index: the largest power of 1024 not above n, capped at terabytes. */
  function UnitIndex(n: nat): (i: nat)
    requires n >= 1
    ensures i < |Units|
  {
    var l := Log1024(n);
    if l < 4 then l else 4
  }

  /** With scaled * 1024^i == n, scaled >= 1024 exactly when 1024^(i+1) <= n. */
  lemma {:induction false} ScaledAtLeast1024(n: nat, i: nat, scaled: real)
    requires scaled * Pow1024(i) as real == n as real
    ensures scaled >= 1024.0 <==> Pow1024(i + 1) <= n
  {
    var p := Pow1024(i) as real;
    var q := Pow1024(i + 1) as real;
    assert q == 1024.0 * p by {
      assert Pow1024(i + 1) == 1024 * Pow1024(i);
    }
    ScaleOrder(scaled, p, n as real, q);
  }

  lemma {:induction false} ScaleOrder(s: real, p: real, m: real, q: real)
    requires p > 0.0 && m == s * p && q == 1024.0 * p
    ensures s >= 1024.0 <==> q <= m
  {
    if s >= 1024.0 {
      assert (s - 1024.0) * p >= 0.0;
    } else {
      assert (1024.0 - s) * p > 0.0;
    }
  }

  /** Dividing the value by 1024 keeps it equal to n over the next power. */
  lemma {:induction false} ScaleDown(n: nat, i: nat, scaled: real)
    requires scaled * Pow1024(i) as real == n as real
    ensures (scaled / 1024.0) * Pow1024(i + 1) as real == n as real
  {
    var p := Pow1024(i) as real;
    assert Pow1024(i + 1) as real == 1024.0 * p;
    assert (scaled / 1024.0) * (1024.0 * p) == scaled * p;
  }

  /** One turn of the loop: another unit is available and the value stays n over it. */
  lemma {:induction false} ScaleStep(n: nat, i: nat, scaled: real)
    requires n >= 1 && i <= UnitIndex(n) && i < 4
    requires scaled * Pow1024(i) as real == n as real && scaled >= 1024.0
    ensures i + 1 <= UnitIndex(n)
    ensures (scaled / 1024.0) * Pow1024(i + 1) as real == n as real
  {
    Log1024Bounds(n);
    ScaledAtLeast1024(n, i, scaled);
    if Log1024(n) < i + 1 {
      Pow1024Monotone(Log1024(n) + 1, i + 1);
    }
    ScaleDown(n, i, scaled);
  }

  /** Leaving the loop: the unit reached is the one the size calls for. */
  lemma {:induction false} ScaleExit(n: nat, i: nat, scaled: real)
    requires n >= 1 && i <= UnitIndex(n)
    requires scaled * Pow1024(i) as real == n as real
    requires scaled < 1024.0 || i >= 4
    ensures i == UnitIndex(n)
  {
    if i < 4 {
      Log1024Bounds(n);
      ScaledAtLeast1024(n, i, scaled);
      if i < Log1024(n) {
        Pow1024Monotone(i + 1, Log1024(n));
      }
    }
  }

  /** `bytesToHuman` before its `toFixed(1)`: zero bytes, or the size divided by the
      unit's power of 1024 with the unit's name. */
  datatype HumanSize = ZeroBytes | Scaled(value: real, unit: string)

  /** The loop dividing by 1024 while the value is at least 1024 and a larger unit is
      left: the value times the unit's power of 1024 is the size. */
  method BytesToHuman(n: nat) returns (r: HumanSize)
    ensures n == 0 ==> r == ZeroBytes
    ensures n > 0 ==>
      r.Scaled? && r.unit == Units[UnitIndex(n)] && r.value * Pow1024(UnitIndex(n)) as real == n as real
  {
    if n == 0 {
      return ZeroBytes;
    }
    var scaled: real := n as real;
    var i := 0;
    while scaled >= 1024.0 && i < |Units| - 1
      invariant 0 <= i <= UnitIndex(n)
      invariant scaled * Pow1024(i) as real == n as real
      decreases |Units| - i
    {
      ScaleStep(n, i, scaled);
      scaled := scaled / 1024.0;
      i := i + 1;
    }
    ScaleExit(n, i, scaled);
    return Scaled(scaled, Units[i]);
  }

  /** The unit chosen is the largest power of 1024 not above the size, capped at TB:
      the scaled value is at least 1, and below 1024 unless the unit is TB. */
  lemma {:induction false} UnitIsLargestFitting(n: nat)
    requires n >= 1
    ensures Pow1024(UnitIndex(n)) <= n
    ensures UnitIndex(n) < 4 ==> n < Pow1024(UnitIndex(n) + 1)
    ensures UnitIndex(n) == 4 <==> n >= Pow1024(4)
  {
    Log1024Bounds(n);
    var l := Log1024(n);
    if l >= 4 {
      Pow1024Monotone(4, l);
    } else {
      Pow1024Monotone(l + 1, 4);
    }
  }

  // ---------------------------------------------------------------------------
  // Ages

  /** `timeAgo(ms)` with the clock reading `now` in milliseconds: nothing for a
      missing or zero time, otherwise whole minutes, hours or days, rounded down. */
  function TimeAgo(ms: Option<nat>, now: int): string {
    if ms.None? || ms.value == 0 then "—"
    else
      var m := (now - ms.value) / 60000;
      if m < 1 then "just now"
      else if m < 60 then NatToString(m) + "m ago"
      else
        var h := m / 60;
        if h < 24 then NatToString(h) + "h ago"
        else NatToString(h / 24) + "d ago"
  }

  /** The age text by elapsed time: under a minute (or in the future) "just now", then
      whole minutes below an hour, whole hours below a day, and whole days. */
  lemma {:induction false} TimeAgoBuckets(ms: Option<nat>, now: int)
    ensures TimeAgo(ms, now) == "—" <==> ms.None? || ms.value == 0
    ensures ms.Some? && ms.value > 0 && now - ms.value < 60000 ==> TimeAgo(ms, now) == "just now"
    ensures ms.Some? && ms.value > 0 && 60000 <= now - ms.value < 3600000 ==>
      TimeAgo(ms, now) == NatToString((now - ms.value) / 60000) + "m ago"
    ensures ms.Some? && ms.value > 0 && 3600000 <= now - ms.value < 86400000 ==>
      TimeAgo(ms, now) == NatToString((now - ms.value) / 3600000) + "h ago"
    ensures ms.Some? && ms.value > 0 && 86400000 <= now - ms.value ==>
      TimeAgo(ms, now) == NatToString((now - ms.value) / 86400000) + "d ago"
  {
    if ms.Some? && ms.value > 0 {
      var d := now - ms.value;
      var m := d / 60000;
      assert m / 60 == d / 3600000;
      assert (m / 60) / 24 == d / 86400000;
      assert |TimeAgo(ms, now)| > 1;
    }
  }

  // ---------------------------------------------------------------------------
  // The section list

  /** A file row links to the preview for Markdown, JSON and text files. */
  predicate IsViewable(relPath: string) {
    EndsWith(relPath, ".md") || EndsWith(relPath, ".json") || EndsWith(relPath, ".txt")
  }

  datatype FileCell = Link(fullPath: string, relPath: string) | Plain(relPath: string)

  /** One file row: the name cell, and the size and time shown through `bytesToHuman`
      and `timeAgo`. */
  datatype Row = Row(cell: FileCell, size: nat, mtime: Option<nat>)

  datatype Body = Hidden | Rows(rows: seq<Row>)

  datatype SectionView = SectionView(key: string, dirExists: bool, summary: SectionSummary, body: Body)

  const SectionOrder: seq<string> := ["standards", "product", "specs", "instructions", "agents"]

  function FileRow(f: FileInfo): Row {
    Row(if IsViewable(f.relPath) then Link(f.fullPath, f.relPath) else Plain(f.relPath), f.size, f.mtime)
  }

  function FileRows(fs: seq<FileInfo>): (r: seq<Row>)
    ensures |r| == |fs| && forall k :: 0 <= k < |fs| ==> r[k] == FileRow(fs[k])
  {
    seq(|fs|, k requires 0 <= k < |fs| => FileRow(fs[k]))
  }

  /** One section's block: hidden only for `specs` with the toggle on, otherwise one
      row per file in order, a link exactly for the viewable ones. */
  function SectionBlock(key: string, sec: SectionInfo, hideSpecs: bool): (v: SectionView)
    ensures v.key == key && v.dirExists == sec.dirExists && v.summary == sec.summary
    ensures v.body.Hidden? <==> hideSpecs && key == "specs"
    ensures v.body.Rows? ==>
      |v.body.rows| == |sec.files| &&
      forall k :: 0 <= k < |sec.files| ==>
        (v.body.rows[k].cell.Link? <==> IsViewable(sec.files[k].relPath)) &&
        v.body.rows[k].cell.relPath == sec.files[k].relPath &&
        v.body.rows[k].size == sec.files[k].size
  {
    SectionView(key, sec.dirExists, sec.summary,
      if hideSpecs && key == "specs" then Hidden else Rows(FileRows(sec.files)))
  }

  /** `renderSections`: the keys in the fixed order, skipping those the report lacks. */
  function RenderSections(sections: map<string, SectionInfo>, hideSpecs: bool, order: seq<string>): seq<SectionView>
    decreases |order|
  {
    if |order| == 0 then []
    else
      var key := order[0];
      (if key in sections then [SectionBlock(key, sections[key], hideSpecs)] else []) +
      RenderSections(sections, hideSpecs, order[1..])
  }

  function Keys(vs: seq<SectionView>): (ks: seq<string>)
    ensures |ks| == |vs| && forall i :: 0 <= i < |vs| ==> ks[i] == vs[i].key
  {
    seq(|vs|, i requires 0 <= i < |vs| => vs[i].key)
  }

  /** The blocks' keys are the order's keys the report has, in the order's order. */
  lemma {:induction false} RenderedKeys(sections: map<string, SectionInfo>, hideSpecs: bool, order: seq<string>)
    ensures SubsequenceOf(Keys(RenderSections(sections, hideSpecs, order)), order)
    ensures forall k :: k in Keys(RenderSections(sections, hideSpecs, order)) <==> k in order && k in sections
    decreases |order|
  {
    if |order| > 0 {
      var rest := order[1..];
      RenderedKeys(sections, hideSpecs, rest);
      var tail := Keys(RenderSections(sections, hideSpecs, rest));
      var ks := Keys(RenderSections(sections, hideSpecs, order));
      if order[0] in sections {
        assert ks == [order[0]] + tail;
        assert ks[1..] == tail;
      } else {
        assert ks == tail;
        if |ks| > 0 {
          assert SubsequenceOf(ks, rest);
        }
      }
      forall k | k in order ensures k == order[0] || k in rest {
        var j :| 0 <= j < |order| && order[j] == k;
        if j > 0 {
          assert rest[j - 1] == k;
        }
      }
    }
  }

  /** Every block is its key's section block, for a key the report has. */
  lemma {:induction false} RenderedBlocks(sections: map<string, SectionInfo>, hideSpecs: bool, order: seq<string>)
    ensures forall v :: v in RenderSections(sections, hideSpecs, order) ==>
      v.key in sections && v == SectionBlock(v.key, sections[v.key], hideSpecs)
    decreases |order|
  {
    if |order| > 0 {
      RenderedBlocks(sections, hideSpecs, order[1..]);
    }
  }

  /** A project with `.agent-sdd` shows all five sections, in the fixed order. */
  lemma {:induction false} AgentSddProjectShowsFiveSections(project: Option<Node>, projectPath: string, hideSpecs: bool)
    requires IsDir(Child(project, ".agent-sdd"))
    ensures var agent := Child(project, ".agent-sdd");
      var sections := SectionsOf(agent, JoinPath(projectPath, ".agent-sdd"), SectionNames);
      |RenderSections(sections, hideSpecs, SectionOrder)| == 5
  {
    var agent := Child(project, ".agent-sdd");
    var sections := SectionsOf(agent, JoinPath(projectPath, ".agent-sdd"), SectionNames);
    ProjectSections(agent, JoinPath(projectPath, ".agent-sdd"));
    assert SectionOrder[1..][1..][1..][1..][1..] == [];
    assert RenderSections(sections, hideSpecs, SectionOrder[1..][1..][1..][1..][1..]) == [];
  }

  // ---------------------------------------------------------------------------
  // Page state

  datatype Selection = Selection(projectPath: string, name: string)

  /** The page's `state` object; the auto-refresh timer is not modelled. */
  class PageState {
    var baseDir: Option<string>
    var projects: seq<DirectoryInfo>
    var selected: Option<Selection>
    var report: Option<ProjectReport>
    var hideSpecs: bool
    var auto: bool

    constructor()
      ensures baseDir.None? && projects == [] && selected.None? && report.None?
      ensures hideSpecs && !auto
    {
      baseDir, projects, selected, report := None, [], None, None;
      hideSpecs, auto := true, false;
    }

    /** The hide-specs toggle: records the checkbox and re-renders the sections when a
        report is shown. */
    method ToggleHideSpecs(checked: bool) returns (rerendered: Option<seq<SectionView>>)
      modifies this
      ensures hideSpecs == checked
      ensures baseDir == old(baseDir) && projects == old(projects) && selected == old(selected)
      ensures report == old(report) && auto == old(auto)
      ensures rerendered == if report.Some? then Some(RenderSections(report.value.sections, checked, SectionOrder)) else None
    {
      hideSpecs := checked;
      rerendered := None;
      if report.Some? {
        rerendered := Some(RenderSections(report.value.sections, hideSpecs, SectionOrder));
      }
    }

    /** `selectProject` once the scan has answered: records the selection and the
        report, and renders its sections. */
    method SelectProject(projectPath: string, name: string, scanned: ProjectReport) returns (shown: seq<SectionView>)
      modifies this
      ensures selected == Some(Selection(projectPath, name)) && report == Some(scanned)
      ensures baseDir == old(baseDir) && projects == old(projects)
      ensures hideSpecs == old(hideSpecs) && auto == old(auto)
      ensures shown == RenderSections(scanned.sections, hideSpecs, SectionOrder)
    {
      selected := Some(Selection(projectPath, name));
      report := Some(scanned);
      shown := RenderSections(scanned.sections, hideSpecs, SectionOrder);
    }

    /** The refresh button's target: nothing without a selected project path. */
    function RefreshTarget(): (r: Option<Selection>)
      reads this
      ensures r.Some? <==> selected.Some? && selected.value.projectPath != ""
      ensures r.Some? ==> r == selected
    {
      if selected.Some? && selected.value.projectPath != "" then selected else None
    }

    /** `chooseBaseDir` given the dialog's answer and the listing's: a failed or
        cancelled dialog changes nothing; otherwise the base is recorded at once, and
        the projects only when the listing succeeds. */
    method ChooseBaseDir(picked: Result<Option<string>>, listing: Result<seq<DirectoryInfo>>)
      modifies this
      ensures picked.Err? || picked.value.None? || picked.value.value == "" ==> unchanged(this)
      ensures picked.Ok? && picked.value.Some? && picked.value.value != "" ==>
        baseDir == picked.value &&
        projects == (if listing.Ok? then listing.value else old(projects))
      ensures selected == old(selected) && report == old(report)
      ensures hideSpecs == old(hideSpecs) && auto == old(auto)
    {
      if picked.Err? || picked.value.None? || picked.value.value == "" {
        return;
      }
      baseDir := picked.value;
      if listing.Ok? {
        projects := listing.value;
      }
    }
  }
}
