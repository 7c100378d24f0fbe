/** The spec side of the desktop backend: naming a new spec directory, the command
    whitelist, reading a spec directory's `tasks.json`, the directory statistics, the
    `.agent-sdd` skeleton the installer creates, and the counts of the spec analysis.
    The filesystem is the tree of ProjectScan; JSON documents are values. */
module SpecBackend {
  import opened Wrappers
  import opened Text
  import opened Sorting
  import opened SpecData
  import opened ProjectScan

  // ---------------------------------------------------------------------------
  // Command whitelist

  const AllowedCommands: seq<string> :=
    ["sdd-execute-task", "sdd-fix", "sdd-tweak", "sdd-check-task", "sdd-queue-fix", "sdd-queue-tweak"]

  /** The refusals `execute_agent_sdd_command` can give before running anything. */
  datatype RequestError = NotAllowed(command: string) | ProjectMissing | AgentSddMissing | SpecPathMissing {
    function Message(): string {
      match this
      case NotAllowed(c) => "Command '" + c + "' is not allowed"
      case ProjectMissing => "Project path does not exist or is not a directory"
      case AgentSddMissing => "Project does not contain .agent-sdd directory"
      case SpecPathMissing => "Spec path does not exist or is not a directory"
    }
  }

  /** The checks before execution, in their order: the whitelist, then the project
      directory, its `.agent-sdd`, and the spec directory. None means the request goes
      on to execution. The whitelist is checked first: a command off the list is
      refused as such whatever the paths, and a listed one never is. */
  function ValidateCommandRequest(command: string, projectIsDir: bool, agentSddIsDir: bool, specIsDir: bool): (r: Option<RequestError>)
    ensures r == Some(NotAllowed(command)) <==> command !in AllowedCommands
    ensures command in AllowedCommands ==> (r.None? <==> projectIsDir && agentSddIsDir && specIsDir)
  {
    if command !in AllowedCommands then Some(NotAllowed(command))
    else if !projectIsDir then Some(ProjectMissing)
    else if !agentSddIsDir then Some(AgentSddMissing)
    else if !specIsDir then Some(SpecPathMissing)
    else None
  }

  // ---------------------------------------------------------------------------
  // Naming a new spec

  /** Unicode's White_Space property, which `split_whitespace` splits on. */
  predicate IsRustWhitespace(c: char) {
    ('\t' <= c <= '\r') || c == ' ' || c == '\U{0085}' || c == '\U{00A0}' || c == '\U{1680}' ||
    ('\U{2000}' <= c <= '\U{200A}') || c == '\U{2028}' || c == '\U{2029}' || c == '\U{202F}' ||
    c == '\U{205F}' || c == '\U{3000}'
  }

  /** `split_whitespace`: the maximal runs of non-whitespace characters. */
  function Words(s: string): (ws: seq<string>)
    ensures forall i :: 0 <= i < |ws| ==> |ws[i]| > 0 && forall j :: 0 <= j < |ws[i]| ==> !IsRustWhitespace(ws[i][j])
    decreases |s|
  {
    if |s| == 0 then []
    else if IsRustWhitespace(s[0]) then Words(s[1..])
    else
      var e := RunEnd(s, 0, IsRustWhitespace);
      [s[..e]] + Words(s[e..])
  }

  /** The characters the name keeps: `is_alphanumeric` (restricted to ASCII) or `-`. */
  predicate IsKebabChar(c: char) {
    IsAsciiAlphanumeric(c) || c == '-'
  }

  function KeepKebab(s: string): (r: string)
    ensures forall i :: 0 <= i < |r| ==> IsKebabChar(r[i]) && r[i] in s
    decreases |s|
  {
    if |s| == 0 then ""
    else (if IsKebabChar(s[0]) then [s[0]] else []) + KeepKebab(s[1..])
  }

  function FirstWords(ws: seq<string>, n: nat): seq<string> {
    if |ws| <= n then ws else ws[..n]
  }

  /** The kebab name `create_spec` derives from a spec's title. */
  function KebabName(name: string): string {
    KeepKebab(Join(FirstWords(Words(Lower(name)), 5), "-"))
  }

  predicate IsLowerKebabChar(c: char) {
    ('0' <= c <= '9') || ('a' <= c <= 'z') || c == '-'
  }

  /** Every character of a word is a character of the text. */
  lemma {:induction false} WordsChars(s: string)
    ensures forall i, j :: 0 <= i < |Words(s)| && 0 <= j < |Words(s)[i]| ==> Words(s)[i][j] in s
    decreases |s|
  {
    if |s| > 0 {
      if IsRustWhitespace(s[0]) {
        WordsChars(s[1..]);
        forall c | c in s[1..] ensures c in s { }
      } else {
        var e := RunEnd(s, 0, IsRustWhitespace);
        WordsChars(s[e..]);
        forall c | c in s[e..] ensures c in s { }
        forall c | c in s[..e] ensures c in s { }
      }
    }
  }

  /** Every character of a join is the separator's or a part's. */
  lemma {:induction false} JoinChars(ws: seq<string>, sep: char, c: char)
    requires c in Join(ws, [sep])
    ensures c == sep || exists i :: 0 <= i < |ws| && c in ws[i]
    decreases |ws|
  {
    if |ws| > 1 {
      assert Join(ws, [sep]) == ws[0] + [sep] + Join(ws[1..], [sep]);
      if c !in ws[0] && c != sep {
        JoinChars(ws[1..], sep, c);
        var i :| 0 <= i < |ws[1..]| && c in ws[1..][i];
        assert c in ws[i + 1];
      }
    }
  }

  lemma {:induction false} LowerHasNoCapitals(name: string, c: char)
    requires c in Lower(name)
    ensures !('A' <= c <= 'Z')
  {
    var m :| 0 <= m < |Lower(name)| && Lower(name)[m] == c;
    assert c == AsciiLower(name[m]);
  }

  /** A character of the joined first words is a dash or a character of the text. */
  lemma {:induction false} JoinedWordsChars(low: string, c: char)
    requires c in Join(FirstWords(Words(low), 5), "-")
    ensures c == '-' || c in low
  {
    var ws := FirstWords(Words(low), 5);
    WordsChars(low);
    JoinChars(ws, '-', c);
    if c != '-' {
      var k :| 0 <= k < |ws| && c in ws[k];
      assert ws[k] == Words(low)[k];
      var j :| 0 <= j < |ws[k]| && ws[k][j] == c;
    }
  }

  /** A kebab name is made of lower-case ASCII letters, digits and `-`; in particular it
      holds no whitespace. */
  lemma {:induction false} KebabNameChars(name: string)
    ensures forall i :: 0 <= i < |KebabName(name)| ==> IsLowerKebabChar(KebabName(name)[i])
  {
    forall i | 0 <= i < |KebabName(name)| ensures IsLowerKebabChar(KebabName(name)[i]) {
      var c := KebabName(name)[i];
      JoinedWordsChars(Lower(name), c);
      if c != '-' {
        LowerHasNoCapitals(name, c);
      }
    }
  }

  /** A nonempty run without whitespace is one word. */
  lemma {:induction false} WordsOfWord(w: string)
    requires |w| > 0 && forall j :: 0 <= j < |w| ==> !IsRustWhitespace(w[j])
    ensures Words(w) == [w]
  {
    RunEndAt(w, 0, IsRustWhitespace, |w|);
    assert w[..|w|] == w;
    assert w[|w|..] == [];
  }

  lemma {:induction false} KeepKebabFixes(s: string)
    requires forall i :: 0 <= i < |s| ==> IsKebabChar(s[i])
    ensures KeepKebab(s) == s
    decreases |s|
  {
    if |s| > 0 {
      KeepKebabFixes(s[1..]);
      assert s == [s[0]] + s[1..];
    }
  }

  /** Naming is idempotent: a kebab name is its own kebab name. */
  lemma {:induction false} KebabNameIdempotent(name: string)
    ensures KebabName(KebabName(name)) == KebabName(name)
  {
    var r := KebabName(name);
    KebabNameChars(name);
    assert Lower(r) == r;
    if |r| == 0 {
      assert Words(r) == [];
    } else {
      WordsOfWord(r);
      assert FirstWords([r], 5) == [r];
      KeepKebabFixes(r);
    }
  }

  /** Runs of a text end at the first whitespace character, wherever it sits. */
  lemma {:induction false} RunEndBeforeSpace(a: string, w: char, b: string)
    requires IsRustWhitespace(w)
    ensures RunEnd(a + [w] + b, 0, IsRustWhitespace) == RunEnd(a, 0, IsRustWhitespace)
  {
    var t := a + [w] + b;
    var e := RunEnd(a, 0, IsRustWhitespace);
    forall j | 0 <= j < e ensures !IsRustWhitespace(t[j]) {
      assert t[j] == a[j];
    }
    if e < |a| {
      assert t[e] == a[e];
    } else {
      assert t[e] == w;
    }
    RunEndAt(t, 0, IsRustWhitespace, e);
  }

  /** The words of two texts joined by a whitespace character are the words of each. */
  lemma {:induction false} WordsAppend(a: string, w: char, b: string)
    requires IsRustWhitespace(w)
    ensures Words(a + [w] + b) == Words(a) + Words(b)
    decreases |a|
  {
    var t := a + [w] + b;
    if |a| == 0 {
      assert t == [w] + b;
      assert t[1..] == b;
    } else if IsRustWhitespace(a[0]) {
      WordsAppend(a[1..], w, b);
      assert t[1..] == a[1..] + [w] + b;
    } else {
      var e := RunEnd(a, 0, IsRustWhitespace);
      WordsAppend(a[e..], w, b);
      WordsAppendRun(a, w, b);
    }
  }

  /** The step of WordsAppend over a's first word, given the rest. */
  lemma {:induction false} WordsAppendRun(a: string, w: char, b: string)
    requires IsRustWhitespace(w) && |a| > 0 && !IsRustWhitespace(a[0])
    requires var e := RunEnd(a, 0, IsRustWhitespace);
      Words(a[e..] + [w] + b) == Words(a[e..]) + Words(b)
    ensures Words(a + [w] + b) == Words(a) + Words(b)
  {
    var t := a + [w] + b;
    var e := RunEnd(a, 0, IsRustWhitespace);
    RunEndBeforeSpace(a, w, b);
    assert t[..e] == a[..e];
    assert t[e..] == a[e..] + [w] + b;
    AppendAssoc([a[..e]], Words(a[e..]), Words(b));
  }

  lemma {:induction false} LowerAppend(a: string, b: string)
    ensures Lower(a + b) == Lower(a) + Lower(b)
  {
    var l := Lower(a + b);
    forall i | 0 <= i < |l| ensures l[i] == (Lower(a) + Lower(b))[i] {
      if i < |a| {
        assert (a + b)[i] == a[i];
      } else {
        assert (a + b)[i] == b[i - |a|];
      }
    }
  }

  lemma {:induction false} FirstWordsAppend(ws: seq<string>, more: seq<string>)
    requires |ws| >= 5
    ensures FirstWords(ws + more, 5) == FirstWords(ws, 5)
  {
    assert (ws + more)[..5] == ws[..5];
    if |ws| == 5 {
      assert ws[..5] == ws;
    }
  }

  /** Only the first five words count: words after them do not change the name. */
  lemma {:induction false} KebabNameFirstFiveWords(name: string, more: string)
    requires |Words(Lower(name))| >= 5
    ensures KebabName(name + " " + more) == KebabName(name)
  {
    LowerAppend(name + " ", more);
    LowerAppend(name, " ");
    assert Lower(" ") == [' '];
    WordsAppend(Lower(name), ' ', Lower(more));
    FirstWordsAppend(Words(Lower(name)), Words(Lower(more)));
  }

  /** `create_spec`'s directory: the date, a dash and the kebab name. */
  function SpecDirName(date: string, specName: string): string {
    date + "-" + KebabName(specName)
  }

  const SpecExists: string := "A spec with this name already exists for today"

  /** The check before anything is written: the directory must not exist yet. On
      success, the directory to create. */
  function CreateSpecDir(existing: set<string>, date: string, specName: string): (r: Result<string>)
    ensures r.Err? <==> SpecDirName(date, specName) in existing
    ensures r.Ok? ==> r.value == SpecDirName(date, specName)
    ensures r.Err? ==> r.error == SpecExists
  {
    var dir := SpecDirName(date, specName);
    if dir in existing then Err(SpecExists) else Ok(dir)
  }

  /** Two titles that differ only past their fifth word clash on the same day. */
  lemma {:induction false} SameDayTitlesClash(date: string, name: string, more: string)
    requires |Words(Lower(name))| >= 5
    ensures CreateSpecDir({SpecDirName(date, name)}, date, name + " " + more).Err?
  {
    KebabNameFirstFiveWords(name, more);
  }

  // ---------------------------------------------------------------------------
  // JSON documents and `tasks.json`

  /** A parsed JSON value (numbers are integers here; they are never read as such). */
  datatype Json =
    | JNull
    | JBool(b: bool)
    | JNumber(n: int)
    | JString(s: string)
    | JArray(items: seq<Json>)
    | JObject(fields: map<string, Json>)

  /** serde_json's `v[key]`: the member, or null when v is not an object or lacks it. */
  function Get(v: Json, key: string): Json {
    if v.JObject? && key in v.fields then v.fields[key] else JNull
  }

  function AsStr(v: Json): Option<string> {
    if v.JString? then Some(v.s) else None
  }

  function AsBool(v: Json): Option<bool> {
    if v.JBool? then Some(v.b) else None
  }

  function AsArray(v: Json): Option<seq<Json>> {
    if v.JArray? then Some(v.items) else None
  }

  /** `v[key].as_str().unwrap_or(default)`. */
  function StrOr(v: Json, key: string, default: string): string {
    AsStr(Get(v, key)).GetOr(default)
  }

  /** `filter_map(|d| d.as_str())`: the strings of an array, in order, others dropped. */
  function StringItems(items: seq<Json>): (r: seq<string>)
    ensures |r| <= |items|
    ensures forall x :: x in r <==> JString(x) in items
    decreases |items|
  {
    if |items| == 0 then []
    else
      var rest := StringItems(items[..|items| - 1]);
      var last := items[|items| - 1];
      assert forall y :: y in items <==> y in items[..|items| - 1] || y == last;
      if last.JString? then rest + [last.s] else rest
  }

  /** One task of `tasks.json`, with the defaults for missing or mistyped fields. */
  function TaskFromJson(t: Json): (ti: TaskInfo)
    ensures ti.status == "completed" <==> AsStr(Get(t, "status")) == Some("completed")
  {
    TaskInfo(
      StrOr(t, "id", ""),
      StrOr(t, "name", ""),
      StrOr(t, "description", ""),
      StrOr(t, "status", "pending"),
      AsStr(Get(t, "completed")),
      match AsArray(Get(t, "dependencies")) case Some(ds) => StringItems(ds) case None => [],
      StrOr(t, "effort", ""),
      AsBool(Get(t, "ux_ui_reviewed")))
  }

  predicate HasStatus(t: Json, status: string) {
    AsStr(Get(t, "status")) == Some(status)
  }

  /** `iter().filter(|task| task["status"].as_str() == Some(status)).count()`. */
  function CountStatus(items: seq<Json>, status: string): (n: nat)
    ensures n <= |items|
    decreases |items|
  {
    if |items| == 0 then 0
    else CountStatus(items[..|items| - 1], status) + (if HasStatus(items[|items| - 1], status) then 1 else 0)
  }

  /** Those tasks whose status field reads `status`. */
  function CountTaskStatus(tasks: seq<TaskInfo>, status: string): nat
    decreases |tasks|
  {
    if |tasks| == 0 then 0
    else CountTaskStatus(tasks[..|tasks| - 1], status) + (if tasks[|tasks| - 1].status == status then 1 else 0)
  }

  function TasksFromJson(items: seq<Json>): (ts: seq<TaskInfo>)
    ensures |ts| == |items| && forall i :: 0 <= i < |items| ==> ts[i] == TaskFromJson(items[i])
  {
    seq(|items|, i requires 0 <= i < |items| => TaskFromJson(items[i]))
  }

  /** Counting completed entries of the raw array agrees with counting completed tasks:
      a missing status defaults to "pending", never to "completed". */
  lemma {:induction false} CompletedCountAgrees(items: seq<Json>)
    ensures CountStatus(items, "completed") == CountTaskStatus(TasksFromJson(items), "completed")
    decreases |items|
  {
    if |items| > 0 {
      var init := items[..|items| - 1];
      CompletedCountAgrees(init);
      assert TasksFromJson(items)[..|items| - 1] == TasksFromJson(init);
    }
  }

  // ---------------------------------------------------------------------------
  // Directory statistics

  datatype Stats = Stats(bytes: nat, latest: Option<nat>)

  /** `Some(latest.map_or(m, |l| l.max(m)))`, extended to a missing second time. */
  function Merge(a: Option<nat>, b: Option<nat>): (r: Option<nat>)
    ensures r.Some? <==> a.Some? || b.Some?
    ensures r.Some? ==> (a.Some? ==> a.value <= r.value) && (b.Some? ==> b.value <= r.value)
    ensures r.Some? ==> r == a || r == b
  {
    match b
    case None => a
    case Some(m) => Some(match a case None => m case Some(l) => if l >= m then l else m)
  }

  /** `calculate_directory_stats` of a directory: nothing when it cannot be listed. */
  function DirStatsSpec(d: Node): Stats
    requires d.Dir?
    decreases Size(d)
  {
    if !d.readable then Stats(0, None) else EntriesStats(d.children)
  }

  /** The entries in order: a file whose metadata reads adds its size and time (the
      metadata is read before `is_file()`, so a file lost after that check still
      counts), a subdirectory adds its own statistics, anything else is skipped. */
  function EntriesStats(es: seq<Node>): Stats
    decreases SizeSeq(es) + 1
  {
    if |es| == 0 then Stats(0, None)
    else
      var prev := EntriesStats(es[..|es| - 1]);
      var e := es[|es| - 1];
      match e
      case File(_, size, mtime, meta, _) =>
        if meta != NoMetadata then Stats(prev.bytes + size, Merge(prev.latest, mtime)) else prev
      case Dir(_, _, _) =>
        var sub := DirStatsSpec(e);
        Stats(prev.bytes + sub.bytes, Merge(prev.latest, sub.latest))
      case _ => prev
  }

  /** `calculate_directory_stats`: the accumulating loop over the entries, recursing
      into subdirectories. */
  method CalculateDirectoryStats(d: Node) returns (r: Stats)
    requires d.Dir?
    ensures r == DirStatsSpec(d)
    decreases Size(d)
  {
    if !d.readable {
      return Stats(0, None);
    }
    var es := d.children;
    var totalSize: nat := 0;
    var latestMtime: Option<nat> := None;
    for i := 0 to |es|
      invariant EntriesStats(es[..i]) == Stats(totalSize, latestMtime)
    {
      var e := es[i];
      assert es[..i + 1][..i] == es[..i];
      match e {
        case File(_, size, mtime, meta, _) =>
          if meta != NoMetadata {
            totalSize := totalSize + size;
            latestMtime := Merge(latestMtime, mtime);
          }
        case Dir(_, _, _) =>
          SizeSeqElem(es, i);
          var sub := CalculateDirectoryStats(e);
          totalSize := totalSize + sub.bytes;
          latestMtime := Merge(latestMtime, sub.latest);
        case Other(_) =>
        case BadEntry =>
      }
    }
    assert es[..|es|] == es;
    return Stats(totalSize, latestMtime);
  }

  /** The latest time of two lists together is the later of their latest times. */
  lemma {:induction false} LatestConcat(a: seq<FileInfo>, b: seq<FileInfo>)
    ensures LatestMtime(a + b) == Merge(LatestMtime(a), LatestMtime(b))
    decreases |b|
  {
    if |b| == 0 {
      assert a + b == a;
    } else {
      var init := b[..|b| - 1];
      LatestConcat(a, init);
      assert (a + b)[..|a + b| - 1] == a + init;
      assert (a + b)[|a + b| - 1] == b[|b| - 1];
    }
  }

  /** Over a tree without errors the statistics are the total size and the latest time
      of every file of the subtree. */
  lemma {:induction false} StatsOfCleanTree(es: seq<Node>, path: string, rel: string)
    requires CleanSeq(es)
    ensures EntriesStats(es) == Stats(SumSizes(AllFilesSeq(es, path, rel)), LatestMtime(AllFilesSeq(es, path, rel)))
    decreases SizeSeq(es) + 1
  {
    if |es| > 0 {
      var init := es[..|es| - 1];
      var e := es[|es| - 1];
      var fs := AllFilesSeq(init, path, rel);
      StatsOfCleanTree(init, path, rel);
      var more := AllFiles(e, path, rel);
      assert AllFilesSeq(es, path, rel) == fs + more;
      SumSizesConcat(fs, more);
      LatestConcat(fs, more);
      assert Clean(e);
      if e.Dir? {
        SizeSeqElem(es, |es| - 1);
        StatsOfCleanTree(e.children, JoinPath(path, e.name), RelJoin(rel, e.name));
      } else if e.File? {
        assert more == [FileInfo(RelJoin(rel, e.name), JoinPath(path, e.name), e.size, e.mtime)];
        assert SumSizes(more) == e.size;
        assert LatestMtime(more) == Merge(None, e.mtime);
      } else {
        assert more == [];
      }
    }
  }

  // ---------------------------------------------------------------------------
  // Reading spec directories

  /** The metadata of a spec directory whose `tasks.json` parsed to `doc`: the
      defaults for missing or mistyped fields, the directory name as the id, the feature
      as the name, and its task counts. */
  function SpecFromJson(doc: Json, id: string, path: string, stats: Stats): (m: SpecMetadata)
    ensures m.taskCount == |m.tasks| && m.completedTasks <= m.taskCount
    ensures m.completedTasks == CountTaskStatus(m.tasks, "completed")
    ensures m.name == m.feature
  {
    var items := AsArray(Get(doc, "tasks")).GetOr([]);
    CompletedCountAgrees(items);
    SpecMetadata(
      id,
      StrOr(doc, "feature", "Unknown"),
      StrOr(doc, "feature", "Unknown"),
      StrOr(doc, "phase", "Unknown"),
      StrOr(doc, "status", "pending"),
      StrOr(doc, "created", "Unknown"),
      path,
      |items|,
      CountStatus(items, "completed"),
      stats.bytes,
      stats.latest,
      TasksFromJson(items))
  }

  /** The parsed `tasks.json` of a directory: none when `exists()` says no (it is
      missing, or its metadata cannot be read), when it is not a readable UTF-8 file,
      or when it does not parse. `parse` stands for `serde_json::from_str`. */
  function TasksDocument(d: Node, parse: string -> Option<Json>): Option<Json>
    requires d.Dir?
  {
    match Child(Some(d), "tasks.json")
    case Some(File(_, _, _, meta, Some(text))) => if meta == NoMetadata then None else parse(text)
    case _ => None
  }

  /** A directory is a spec exactly when its `tasks.json` is a file that `exists()`
      sees, that reads as text, and that parses. */
  lemma {:induction false} SpecDirNeedsTasks(d: Node, path: string, parse: string -> Option<Json>)
    requires d.Dir?
    ensures SpecDirSpec(d, path, parse).Some? <==>
      var c := Child(Some(d), "tasks.json");
      c.Some? && c.value.File? && c.value.meta != NoMetadata && c.value.text.Some? && parse(c.value.text.value).Some?
  {
  }

  /** `scan_spec_directory`. */
  function SpecDirSpec(d: Node, path: string, parse: string -> Option<Json>): Option<SpecMetadata>
    requires d.Dir?
  {
    match TasksDocument(d, parse)
    case None => None
    case Some(doc) => Some(SpecFromJson(doc, d.name, path, DirStatsSpec(d)))
  }

  /** `scan_spec_directory`: the field extraction, the loop collecting its tasks, and
      the statistics of the directory. */
  method ScanSpecDirectory(d: Node, path: string, parse: string -> Option<Json>) returns (r: Option<SpecMetadata>)
    requires d.Dir?
    ensures r == SpecDirSpec(d, path, parse)
  {
    var doc := TasksDocument(d, parse);
    if doc.None? {
      return None;
    }
    var items := AsArray(Get(doc.value, "tasks")).GetOr([]);
    var tasks: seq<TaskInfo> := [];
    for i := 0 to |items|
      invariant tasks == TasksFromJson(items[..i])
    {
      assert items[..i + 1] == items[..i] + [items[i]];
      tasks := tasks + [TaskFromJson(items[i])];
    }
    assert items[..|items|] == items;
    var stats := CalculateDirectoryStats(d);
    var feature := StrOr(doc.value, "feature", "Unknown");
    r := Some(SpecMetadata(
      d.name, feature, feature,
      StrOr(doc.value, "phase", "Unknown"),
      StrOr(doc.value, "status", "pending"),
      StrOr(doc.value, "created", "Unknown"),
      path, |items|, CountStatus(items, "completed"),
      stats.bytes, stats.latest, tasks));
  }

  /** Each task list of a scanned spec carries exactly the dependency strings of each
      task, non-strings dropped, and a task without a status is pending. */
  lemma {:induction false} TaskFieldsFromJson(t: Json, x: string)
    ensures AsArray(Get(t, "dependencies")).Some? ==>
      (x in TaskFromJson(t).dependencies <==> JString(x) in AsArray(Get(t, "dependencies")).value)
    ensures AsArray(Get(t, "dependencies")).None? ==> TaskFromJson(t).dependencies == []
    ensures AsStr(Get(t, "status")).None? ==> TaskFromJson(t).status == "pending"
  {
  }

  /** `b.created.cmp(&a.created)`: newest first. */
  function NewestFirst(a: SpecMetadata, b: SpecMetadata): int {
    CompareStrings(b.created, a.created)
  }

  lemma {:induction false} NewestFirstAntisymmetric()
    ensures Antisymmetric(NewestFirst)
  {
    forall a, b ensures NewestFirst(a, b) == -NewestFirst(b, a) {
      CompareStringsAntisymmetric();
      assert CompareStrings(b.created, a.created) == -CompareStrings(a.created, b.created);
    }
  }

  /** The specs of the entries in order: each subdirectory with a readable
      `tasks.json`. */
  function SpecEntries(es: seq<Node>, path: string, parse: string -> Option<Json>): seq<SpecMetadata>
    decreases |es|
  {
    if |es| == 0 then []
    else
      var prev := SpecEntries(es[..|es| - 1], path, parse);
      var e := es[|es| - 1];
      if e.Dir? then
        match SpecDirSpec(e, JoinPath(path, e.name), parse)
        case Some(m) => prev + [m]
        case None => prev
      else prev
  }

  lemma {:induction false} SpecEntriesStep(es: seq<Node>, i: nat, path: string, parse: string -> Option<Json>)
    requires i < |es|
    ensures SpecEntries(es[..i + 1], path, parse) ==
      if es[i].Dir? && SpecDirSpec(es[i], JoinPath(path, es[i].name), parse).Some?
      then SpecEntries(es[..i], path, parse) + [SpecDirSpec(es[i], JoinPath(path, es[i].name), parse).value]
      else SpecEntries(es[..i], path, parse)
  {
    assert es[..i + 1][..i] == es[..i];
  }

  const SpecsUnreadable: string := "Failed to read specs directory"

  /** `scan_specs`: no specs directory gives an empty list, an unlistable one an error;
      otherwise its specs, newest first. */
  function ScanSpecsSpec(project: Option<Node>, projectPath: string, parse: string -> Option<Json>): Result<seq<SpecMetadata>> {
    var specs := Child(Child(project, ".agent-sdd"), "specs");
    if !IsDir(specs) then Ok([])
    else if !specs.value.readable then Err(SpecsUnreadable)
    else Ok(SortWith(NewestFirst, SpecEntries(specs.value.children, JoinPath(JoinPath(projectPath, ".agent-sdd"), "specs"), parse)))
  }

  method ScanSpecs(project: Option<Node>, projectPath: string, parse: string -> Option<Json>) returns (r: Result<seq<SpecMetadata>>)
    ensures r == ScanSpecsSpec(project, projectPath, parse)
  {
    var specsNode := Child(Child(project, ".agent-sdd"), "specs");
    if !IsDir(specsNode) {
      return Ok([]);
    }
    var dir := specsNode.value;
    if !dir.readable {
      return Err(SpecsUnreadable);
    }
    var path := JoinPath(JoinPath(projectPath, ".agent-sdd"), "specs");
    var es := dir.children;
    var specs: seq<SpecMetadata> := [];
    for i := 0 to |es|
      invariant specs == SpecEntries(es[..i], path, parse)
    {
      var e := es[i];
      SpecEntriesStep(es, i, path, parse);
      if e.Dir? {
        var m := ScanSpecDirectory(e, JoinPath(path, e.name), parse);
        if m.Some? {
          specs := specs + [m.value];
        }
      }
    }
    assert es[..|es|] == es;
    return Ok(SortWith(NewestFirst, specs));
  }

  /** In the list `scan_specs` returns, creation dates never increase from one spec to
      the next. */
  lemma {:induction false} ScannedSpecsNewestFirst(project: Option<Node>, projectPath: string, parse: string -> Option<Json>)
    requires ScanSpecsSpec(project, projectPath, parse).Ok?
    ensures var specs := ScanSpecsSpec(project, projectPath, parse).value;
      forall i :: 0 <= i < |specs| - 1 ==> !LexLess(specs[i].created, specs[i + 1].created)
  {
    var specsNode := Child(Child(project, ".agent-sdd"), "specs");
    if IsDir(specsNode) {
      var found := SpecEntries(specsNode.value.children, JoinPath(JoinPath(projectPath, ".agent-sdd"), "specs"), parse);
      NewestFirstAntisymmetric();
      SortWithFacts(NewestFirst, found);
      var specs := SortWith(NewestFirst, found);
      forall i | 0 <= i < |specs| - 1 ensures !LexLess(specs[i].created, specs[i + 1].created) {
        assert NewestFirst(specs[i], specs[i + 1]) <= 0;
      }
    }
  }

  /** Every spec the scan returns has the counts of its own tasks. */
  lemma {:induction false} SpecEntriesConsistent(es: seq<Node>, path: string, parse: string -> Option<Json>)
    ensures forall m :: m in SpecEntries(es, path, parse) ==>
      m.completedTasks <= m.taskCount == |m.tasks| && m.completedTasks == CountTaskStatus(m.tasks, "completed")
    decreases |es|
  {
    if |es| > 0 {
      SpecEntriesConsistent(es[..|es| - 1], path, parse);
    }
  }

  // ---------------------------------------------------------------------------
  // The `.agent-sdd` skeleton

  datatype ProjectConfig = ProjectConfig(
    name: string, description: string, createStandards: bool, createSpecs: bool, createAgents: bool)

  /** What the installer creates under `.agent-sdd`, in order. */
  datatype Entry = DirEntry(dir: string) | FileEntry(dir: string, file: string)

  function Optional(flag: bool, dir: string): seq<Entry> {
    if flag then [DirEntry(dir), FileEntry(dir, "README.md")] else []
  }

  /** The core directories, the flagged ones with their READMEs, then the product
      overview and roadmap and the development instructions. */
  function CreatedEntries(config: ProjectConfig): seq<Entry> {
    [DirEntry("product"), DirEntry("instructions")] +
    Optional(config.createStandards, "standards") +
    Optional(config.createSpecs, "specs") +
    Optional(config.createAgents, "agents") +
    [FileEntry("product", "overview.md"), FileEntry("product", "roadmap.md"), FileEntry("instructions", "development.md")]
  }

  datatype StructureError = ProjectNotDir | AlreadyExists {
    function Message(): string {
      match this
      case ProjectNotDir => "Project path does not exist or is not a directory"
      case AlreadyExists => "Agent-SDD structure already exists in this directory"
    }
  }

  /** `create_agent_sdd_structure`: refuses a missing project and an existing
      `.agent-sdd`; otherwise creates `.agent-sdd` and its entries. */
  function CreateAgentSddStructure(projectIsDir: bool, agentSddExists: bool, config: ProjectConfig): (r: Result<seq<Entry>>)
    ensures r.Err? <==> !projectIsDir || agentSddExists
  {
    if !projectIsDir then Err(ProjectNotDir.Message())
    else if agentSddExists then Err(AlreadyExists.Message())
    else Ok(CreatedEntries(config))
  }

  /** The directories created: always `product` and `instructions`, and each optional
      one exactly when its flag is set. */
  lemma {:induction false} CreatedDirectories(config: ProjectConfig, d: string)
    ensures DirEntry(d) in CreatedEntries(config) <==>
      d == "product" || d == "instructions" ||
      (d == "standards" && config.createStandards) ||
      (d == "specs" && config.createSpecs) ||
      (d == "agents" && config.createAgents)
  {
    var a := [DirEntry("product"), DirEntry("instructions")];
    var b := Optional(config.createStandards, "standards");
    var c := Optional(config.createSpecs, "specs");
    var e := Optional(config.createAgents, "agents");
    var f := [FileEntry("product", "overview.md"), FileEntry("product", "roadmap.md"), FileEntry("instructions", "development.md")];
    assert CreatedEntries(config) == a + b + c + e + f;
    assert DirEntry(d) !in f;
  }

  /** Each file is written into a directory created before it. */
  lemma {:induction false} FilesAfterTheirDirectories(config: ProjectConfig)
    ensures var es := CreatedEntries(config);
      forall i :: 0 <= i < |es| && es[i].FileEntry? ==> DirEntry(es[i].dir) in es[..i]
  {
    var es := CreatedEntries(config);
    var a := [DirEntry("product"), DirEntry("instructions")];
    var b := Optional(config.createStandards, "standards");
    var c := Optional(config.createSpecs, "specs");
    var e := Optional(config.createAgents, "agents");
    var f := [FileEntry("product", "overview.md"), FileEntry("product", "roadmap.md"), FileEntry("instructions", "development.md")];
    assert es == a + b + c + e + f;
    forall i | 0 <= i < |es| && es[i].FileEntry? ensures DirEntry(es[i].dir) in es[..i] {
      var k := i;
      if k < |a| + |b| {
        assert es[k] == b[k - |a|];
        assert es[k - 1] == b[0];
      } else if k < |a| + |b| + |c| {
        assert es[k] == c[k - |a| - |b|];
        assert es[k - 1] == c[0];
      } else if k < |a| + |b| + |c| + |e| {
        assert es[k] == e[k - |a| - |b| - |c|];
        assert es[k - 1] == e[0];
      } else {
        assert es[k] == f[k - |a| - |b| - |c| - |e|];
        assert es[0] == a[0] && es[1] == a[1];
      }
    }
  }

  // ---------------------------------------------------------------------------
  // Analysing a spec

  datatype TaskProgress = TaskProgress(total: nat, completed: nat, inProgress: nat, pending: nat)

  /** The next task's fields, "N/A" when missing. */
  datatype NextTask = NextTask(id: string, name: string, description: string, effort: string)

  predicate IsOpen(t: Json) {
    HasStatus(t, "pending") || HasStatus(t, "in_progress")
  }

  /** `iter().find(...)`: the first pending or in-progress task. */
  function FirstOpen(items: seq<Json>): (r: Option<nat>)
    ensures r.Some? ==>
      r.value < |items| && IsOpen(items[r.value]) && forall j :: 0 <= j < r.value ==> !IsOpen(items[j])
    ensures r.None? ==> forall j :: 0 <= j < |items| ==> !IsOpen(items[j])
    decreases |items|
  {
    if |items| == 0 then None
    else if IsOpen(items[0]) then Some(0)
    else
      match FirstOpen(items[1..])
      case Some(k) => Some(k + 1)
      case None => None
  }

  function Progress(items: seq<Json>): TaskProgress {
    TaskProgress(|items|, CountStatus(items, "completed"), CountStatus(items, "in_progress"), CountStatus(items, "pending"))
  }

  /** A status is counted at most once: the three counts never exceed the total. */
  lemma {:induction false} ProgressBounded(items: seq<Json>)
    ensures var p := Progress(items); p.completed + p.inProgress + p.pending <= p.total
    decreases |items|
  {
    if |items| > 0 {
      ProgressBounded(items[..|items| - 1]);
    }
  }

  /** There is a next task exactly when some task is pending or in progress. */
  lemma {:induction false} NextTaskIffOpenCounts(items: seq<Json>)
    ensures FirstOpen(items).Some? <==> CountStatus(items, "pending") + CountStatus(items, "in_progress") > 0
    decreases |items|
  {
    if |items| > 0 {
      var init := items[..|items| - 1];
      NextTaskIffOpenCounts(init);
      if FirstOpen(init).Some? {
        var k := FirstOpen(init).value;
        assert IsOpen(items[k]);
      }
      if FirstOpen(items).Some? {
        var k := FirstOpen(items).value;
        if k < |init| {
          assert IsOpen(init[k]);
        }
      }
    }
  }

  /** Where a tasks file stands: what the reads and the parse give. */
  datatype TasksFile = NotFound | Unreadable | Unparsable | Parsed(doc: Json)

  datatype Recommendation = MarkInProgress | ReviewLessons | FocusInProgress | UpdateStatuses

  /** The sections of the analysis report, before they are written out as Markdown. */
  datatype Analysis = Analysis(
    feature: string, phase: string, status: string,
    progress: Option<TaskProgress>, next: Option<NextTask>,
    roadmapTracked: bool, recommendations: seq<Recommendation>)

  function Recommendations(status: string): (rs: seq<Recommendation>)
    ensures (ReviewLessons in rs) <==> status == "completed"
    ensures (MarkInProgress in rs) <==> status == "pending"
  {
    (if status == "pending" then [MarkInProgress] else []) +
    (if status == "completed" then [ReviewLessons] else [FocusInProgress, UpdateStatuses])
  }

  /** `analyze_spec`, given whether the path has a parent, whether an ancestor holds
      `.agent-sdd`, its tasks file, and whether the roadmap exists. */
  function AnalyzeSpec(hasParent: bool, rootFound: bool, tasks: TasksFile, roadmapExists: bool): Result<Analysis> {
    if !hasParent then Err("Invalid spec path")
    else if !rootFound then Err("Could not find project root with .agent-sdd")
    else
      match tasks
      case NotFound => Err("tasks.json not found")
      case Unreadable => Err("Failed to read tasks.json")
      case Unparsable => Err("Failed to parse tasks.json")
      case Parsed(doc) =>
        var status := StrOr(doc, "status", "Unknown");
        var items := AsArray(Get(doc, "tasks"));
        Ok(Analysis(
          StrOr(doc, "feature", "Unknown"), StrOr(doc, "phase", "Unknown"), status,
          if items.Some? then Some(Progress(items.value)) else None,
          if items.Some? && FirstOpen(items.value).Some? then
            var t := items.value[FirstOpen(items.value).value];
            Some(NextTask(StrOr(t, "id", "N/A"), StrOr(t, "name", "N/A"), StrOr(t, "description", "N/A"), StrOr(t, "effort", "N/A")))
          else None,
          roadmapExists,
          Recommendations(status)))
  }

  /** The analysis fails exactly when the path has no parent, no ancestor holds
      `.agent-sdd`, or the tasks file is missing, unreadable or unparsable; the path
      checks come first, so their errors win. A successful analysis reports the status
      read from the file and whether the roadmap exists. */
  lemma {:induction false} AnalyzeSpecFailsIff(hasParent: bool, rootFound: bool, tasks: TasksFile, roadmapExists: bool)
    ensures AnalyzeSpec(hasParent, rootFound, tasks, roadmapExists).Err? <==> !hasParent || !rootFound || !tasks.Parsed?
    ensures !hasParent ==> AnalyzeSpec(hasParent, rootFound, tasks, roadmapExists) == Err("Invalid spec path")
    ensures hasParent && !rootFound ==>
      AnalyzeSpec(hasParent, rootFound, tasks, roadmapExists) == Err("Could not find project root with .agent-sdd")
    ensures AnalyzeSpec(hasParent, rootFound, tasks, roadmapExists).Ok? ==>
      AnalyzeSpec(hasParent, rootFound, tasks, roadmapExists).value.roadmapTracked == roadmapExists &&
      AnalyzeSpec(hasParent, rootFound, tasks, roadmapExists).value.status == StrOr(tasks.doc, "status", "Unknown")
  {
  }

  /** A parsed tasks file always gives an analysis; its counts stay within the total, and
      it names a next task exactly when some task is pending or in progress. */
  lemma {:induction false} AnalysisConsistent(doc: Json, roadmapExists: bool)
    ensures var r := AnalyzeSpec(true, true, Parsed(doc), roadmapExists);
      r.Ok? &&
      (r.value.progress.Some? ==>
        r.value.progress.value.completed + r.value.progress.value.inProgress + r.value.progress.value.pending <= r.value.progress.value.total &&
        (r.value.next.Some? <==> r.value.progress.value.pending + r.value.progress.value.inProgress > 0)) &&
      (r.value.progress.None? ==> r.value.next.None?)
  {
    var items := AsArray(Get(doc, "tasks"));
    if items.Some? {
      ProgressBounded(items.value);
      NextTaskIffOpenCounts(items.value);
    }
  }
}
