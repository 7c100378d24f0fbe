/** The project scanner of the desktop backend: listing a base directory's projects,
    scanning a project's `.agent-sdd` sections into file lists with totals, walking a
    directory tree, and reading one file under a size limit. The filesystem is a tree of
    nodes; each directory's children are listed in the order `read_dir` yields them. */
module ProjectScan {
  import opened Wrappers
  import opened Text
  import opened Sorting

  // ---------------------------------------------------------------------------
  // The filesystem and the records sent to the frontend

  /** What the metadata calls give for a regular file. `NoMetadata`: they fail from
      the start, so `is_file()`, `is_dir()` and `exists()`, which read the same
      metadata, all say no. `LostAfterCheck`: they succeed until `is_file()` has
      accepted the file and fail from then on, because the file changed in between. */
  datatype Metadata = Readable | NoMetadata | LostAfterCheck

  /** One directory entry. A file carries its size in bytes, its modification time in
      milliseconds (None when the platform gives none), what its metadata calls give,
      and its text (None when it is not valid UTF-8 or cannot be read). A directory
      says whether it can be listed. `Other` is an entry that is neither a regular file
      nor a directory; `BadEntry` is an entry `read_dir` reports as an error. */
  datatype Node =
    | File(name: string, size: nat, mtime: Option<nat>, meta: Metadata, text: Option<string>)
    | Dir(name: string, readable: bool, children: seq<Node>)
    | Other(name: string)
    | BadEntry

  datatype DirectoryInfo = DirectoryInfo(name: string, fullPath: string)

  datatype FileInfo = FileInfo(relPath: string, fullPath: string, size: nat, mtime: Option<nat>)

  datatype SectionSummary = SectionSummary(total: nat, bytes: nat, latest: Option<nat>)

  datatype SectionInfo = SectionInfo(dirExists: bool, summary: SectionSummary, files: seq<FileInfo>)

  datatype ProjectReport = ProjectReport(hasAgentSdd: bool, sections: map<string, SectionInfo>, warnings: seq<string>)

  /** `Path::join` of a path without a trailing separator and one name. */
  function JoinPath(path: string, name: string): string {
    path + "/" + name
  }

  /** The path of an entry relative to the scanned base, given its directory's relative
      path ("" for the base itself). */
  function RelJoin(rel: string, name: string): string {
    if rel == "" then name else rel + "/" + name
  }

  /** A measure that shrinks from a directory to its children. */
  function Size(n: Node): (r: nat)
    ensures r >= 1
    decreases n
  {
    match n
    case Dir(_, _, cs) => 2 + SizeSeq(cs)
    case _ => 1
  }

  function SizeSeq(cs: seq<Node>): nat
    decreases cs
  {
    if |cs| == 0 then 0 else SizeSeq(cs[..|cs| - 1]) + Size(cs[|cs| - 1])
  }

  lemma {:induction false} SizeSeqElem(cs: seq<Node>, i: nat)
    requires i < |cs|
    ensures Size(cs[i]) <= SizeSeq(cs)
    decreases |cs|
  {
    if i < |cs| - 1 {
      SizeSeqElem(cs[..|cs| - 1], i);
    }
  }

  // ---------------------------------------------------------------------------
  // Walking a directory tree

  /** The walk of a directory: an unreadable directory is an error; otherwise its
      entries in order. */
  function ScanDirSpec(d: Node, path: string, rel: string): Result<seq<FileInfo>>
    requires d.Dir?
    decreases Size(d)
  {
    if !d.readable then Err("Failed to read directory")
    else ScanEntriesSpec(d.children, path, rel)
  }

  /** The entries of one directory: a file is listed (one whose metadata fails from the
      start is not a file to `is_file()` and is skipped; one whose metadata fails after
      the check aborts the directory), a subdirectory's files are appended or, when its
      walk fails, skipped, and anything else is skipped. */
  function ScanEntriesSpec(es: seq<Node>, path: string, rel: string): Result<seq<FileInfo>>
    decreases SizeSeq(es) + 1
  {
    if |es| == 0 then Ok([])
    else
      match ScanEntriesSpec(es[..|es| - 1], path, rel)
      case Err(m) => Err(m)
      case Ok(fs) =>
        var e := es[|es| - 1];
        match e
        case File(name, size, mtime, meta, _) =>
          (match meta
           case Readable => Ok(fs + [FileInfo(RelJoin(rel, name), JoinPath(path, name), size, mtime)])
           case NoMetadata => Ok(fs)
           case LostAfterCheck => Err("Failed to get file metadata"))
        case Dir(name, _, _) =>
          (match ScanDirSpec(e, JoinPath(path, name), RelJoin(rel, name))
           case Ok(sub) => Ok(fs + sub)
           case Err(_) => Ok(fs))
        case _ => Ok(fs)
  }

  lemma {:induction false} ScanEntriesSnoc(es: seq<Node>, e: Node, path: string, rel: string)
    ensures ScanEntriesSpec(es + [e], path, rel) ==
      match ScanEntriesSpec(es, path, rel)
      case Err(m) => Err(m)
      case Ok(fs) =>
        match e
        case File(name, size, mtime, meta, _) =>
          (match meta
           case Readable => Ok(fs + [FileInfo(RelJoin(rel, name), JoinPath(path, name), size, mtime)])
           case NoMetadata => Ok(fs)
           case LostAfterCheck => Err("Failed to get file metadata"))
        case Dir(name, _, _) =>
          (match ScanDirSpec(e, JoinPath(path, name), RelJoin(rel, name))
           case Ok(sub) => Ok(fs + sub)
           case Err(_) => Ok(fs))
        case _ => Ok(fs)
  {
    assert (es + [e])[..|es|] == es;
  }

  /** Once a directory's walk has failed, later entries do not change the error. */
  lemma {:induction false} ScanErrorSticks(es: seq<Node>, more: seq<Node>, path: string, rel: string)
    requires ScanEntriesSpec(es, path, rel).Err?
    ensures ScanEntriesSpec(es + more, path, rel) == ScanEntriesSpec(es, path, rel)
    decreases |more|
  {
    if |more| == 0 {
      assert es + more == es;
    } else {
      var init := more[..|more| - 1];
      ScanErrorSticks(es, init, path, rel);
      ScanEntriesSnoc(es + init, more[|more| - 1], path, rel);
      assert es + init + [more[|more| - 1]] == es + more;
    }
  }

  /** `scan_directory_recursive`: the loop over the entries, recursing into
      subdirectories and appending their files. */
  method ScanDirectoryRecursive(d: Node, path: string, rel: string) returns (r: Result<seq<FileInfo>>)
    requires d.Dir?
    ensures r == ScanDirSpec(d, path, rel)
    decreases Size(d)
  {
    if !d.readable {
      return Err("Failed to read directory");
    }
    var es := d.children;
    var files: seq<FileInfo> := [];
    for i := 0 to |es|
      invariant ScanEntriesSpec(es[..i], path, rel) == Ok(files)
    {
      var e := es[i];
      ScanEntriesSnoc(es[..i], e, path, rel);
      assert es[..i] + [e] == es[..i + 1];
      match e {
        case File(name, size, mtime, meta, _) =>
          if meta == LostAfterCheck {
            ScanErrorSticks(es[..i + 1], es[i + 1..], path, rel);
            assert es[..i + 1] + es[i + 1..] == es;
            return Err("Failed to get file metadata");
          }
          if meta == Readable {
            files := files + [FileInfo(RelJoin(rel, name), JoinPath(path, name), size, mtime)];
          }
        case Dir(name, _, _) =>
          SizeSeqElem(es, i);
          var sub := ScanDirectoryRecursive(e, JoinPath(path, name), RelJoin(rel, name));
          if sub.Ok? {
            files := files + sub.value;
          }
        case Other(_) =>
        case BadEntry =>
      }
    }
    assert es[..|es|] == es;
    return Ok(files);
  }

  /** An entry the walk passes over: a subdirectory whose walk fails, a file whose
      metadata cannot be read at all, or anything that is neither file nor directory. */
  predicate Skipped(e: Node, path: string, rel: string) {
    match e
    case Dir(name, _, _) => ScanDirSpec(e, JoinPath(path, name), RelJoin(rel, name)).Err?
    case File(_, _, _, meta, _) => meta == NoMetadata
    case _ => true
  }

  /** A skipped entry changes nothing: its siblings' files are listed as if it were
      not there. */
  lemma {:induction false} SkippedEntry(pre: seq<Node>, bad: Node, post: seq<Node>, path: string, rel: string)
    requires Skipped(bad, path, rel)
    ensures ScanEntriesSpec(pre + [bad] + post, path, rel) == ScanEntriesSpec(pre + post, path, rel)
    decreases |post|
  {
    if |post| == 0 {
      ScanEntriesSnoc(pre, bad, path, rel);
      assert pre + [bad] + post == pre + [bad];
      assert pre + post == pre;
    } else {
      var init := post[..|post| - 1];
      var last := post[|post| - 1];
      SkippedEntry(pre, bad, init, path, rel);
      ScanEntriesSnoc(pre + [bad] + init, last, path, rel);
      ScanEntriesSnoc(pre + init, last, path, rel);
      assert pre + [bad] + init + [last] == pre + [bad] + post;
      assert pre + init + [last] == pre + post;
    }
  }

  /** A subdirectory whose walk fails is skipped: its siblings' files are listed as if
      it were not there. */
  lemma {:induction false} FailingSubdirectorySkipped(pre: seq<Node>, bad: Node, post: seq<Node>, path: string, rel: string)
    requires bad.Dir? && ScanDirSpec(bad, JoinPath(path, bad.name), RelJoin(rel, bad.name)).Err?
    ensures ScanEntriesSpec(pre + [bad] + post, path, rel) == ScanEntriesSpec(pre + post, path, rel)
  {
    SkippedEntry(pre, bad, post, path, rel);
  }

  /** A file whose metadata fails from the start is not a file to `is_file()` (nor a
      directory to `is_dir()`), so the walk skips it without an error. */
  lemma {:induction false} UnreadableMetadataSkipped(pre: seq<Node>, f: Node, post: seq<Node>, path: string, rel: string)
    requires f.File? && f.meta == NoMetadata
    ensures ScanEntriesSpec(pre + [f] + post, path, rel) == ScanEntriesSpec(pre + post, path, rel)
  {
    SkippedEntry(pre, f, post, path, rel);
  }

  /** A file whose metadata fails just after `is_file()` accepted it fails its
      directory's walk, whatever the entries around it. */
  lemma {:induction false} MetadataFailureAborts(pre: seq<Node>, f: Node, post: seq<Node>, path: string, rel: string)
    requires f.File? && f.meta == LostAfterCheck
    ensures ScanEntriesSpec(pre + [f] + post, path, rel).Err?
  {
    ScanEntriesSnoc(pre, f, path, rel);
    assert ScanEntriesSpec(pre + [f], path, rel).Err?;
    ScanErrorSticks(pre + [f], post, path, rel);
  }

  // ---------------------------------------------------------------------------
  // Trees without errors: every regular file exactly once

  /** Every directory can be listed and every file's metadata read. */
  predicate Clean(n: Node)
    decreases Size(n)
  {
    match n
    case File(_, _, _, meta, _) => meta == Readable
    case Dir(_, readable, cs) => readable && CleanSeq(cs)
    case _ => true
  }

  predicate CleanSeq(cs: seq<Node>)
    decreases SizeSeq(cs) + 1
  {
    |cs| == 0 || (CleanSeq(cs[..|cs| - 1]) && Clean(cs[|cs| - 1]))
  }

  /** The regular files of a tree, in pre-order: a plain flattening with no error
      handling. */
  function AllFiles(n: Node, path: string, rel: string): seq<FileInfo>
    decreases Size(n)
  {
    match n
    case File(name, size, mtime, _, _) => [FileInfo(RelJoin(rel, name), JoinPath(path, name), size, mtime)]
    case Dir(name, _, cs) => AllFilesSeq(cs, JoinPath(path, name), RelJoin(rel, name))
    case _ => []
  }

  function AllFilesSeq(cs: seq<Node>, path: string, rel: string): seq<FileInfo>
    decreases SizeSeq(cs) + 1
  {
    if |cs| == 0 then [] else AllFilesSeq(cs[..|cs| - 1], path, rel) + AllFiles(cs[|cs| - 1], path, rel)
  }

  /** In a tree without errors the walk lists exactly the flattening. */
  lemma {:induction false} CleanScanListsAll(es: seq<Node>, path: string, rel: string)
    requires CleanSeq(es)
    ensures ScanEntriesSpec(es, path, rel) == Ok(AllFilesSeq(es, path, rel))
    decreases SizeSeq(es) + 1
  {
    if |es| > 0 {
      var e := es[|es| - 1];
      var fs := AllFilesSeq(es[..|es| - 1], path, rel);
      CleanScanListsAll(es[..|es| - 1], path, rel);
      assert Clean(e);
      if e.Dir? {
        SizeSeqElem(es, |es| - 1);
        CleanScanListsAll(e.children, JoinPath(path, e.name), RelJoin(rel, e.name));
        assert ScanDirSpec(e, JoinPath(path, e.name), RelJoin(rel, e.name)) == Ok(AllFiles(e, path, rel));
        assert ScanEntriesSpec(es, path, rel) == Ok(fs + AllFiles(e, path, rel));
      } else if e.File? {
        assert ScanEntriesSpec(es, path, rel) == Ok(fs + AllFiles(e, path, rel));
      } else {
        assert AllFiles(e, path, rel) == [];
        assert fs + [] == fs;
        assert ScanEntriesSpec(es, path, rel) == Ok(fs + AllFiles(e, path, rel));
      }
      assert AllFilesSeq(es, path, rel) == fs + AllFiles(e, path, rel);
    }
  }

  /** No name is empty or holds a separator, and the names in each directory differ. */
  predicate WellNamed(n: Node)
    decreases Size(n)
  {
    match n
    case File(name, _, _, _, _) => name != "" && '/' !in name
    case Dir(name, _, cs) => name != "" && '/' !in name && WellNamedSeq(cs) && DistinctNames(cs)
    case Other(name) => name != "" && '/' !in name
    case BadEntry => true
  }

  predicate WellNamedSeq(cs: seq<Node>)
    decreases SizeSeq(cs) + 1
  {
    |cs| == 0 || (WellNamedSeq(cs[..|cs| - 1]) && WellNamed(cs[|cs| - 1]))
  }

  predicate DistinctNames(cs: seq<Node>) {
    forall i, j :: 0 <= i < j < |cs| && !cs[i].BadEntry? && !cs[j].BadEntry? ==> cs[i].name != cs[j].name
  }

  /** The relative paths of a list of files. */
  function RelPaths(fs: seq<FileInfo>): (r: seq<string>)
    ensures |r| == |fs| && forall i :: 0 <= i < |fs| ==> r[i] == fs[i].relPath
  {
    seq(|fs|, i requires 0 <= i < |fs| => fs[i].relPath)
  }

  predicate Distinct(ps: seq<string>) {
    forall i, j :: 0 <= i < j < |ps| ==> ps[i] != ps[j]
  }

  /** Every file under an entry has the entry's relative path, or that path followed
      by a separator, at its head. */
  predicate Under(p: string, top: string) {
    p == top || StartsWith(p, top + "/")
  }

  lemma {:induction false} UnderEntry(n: Node, path: string, rel: string)
    requires !n.BadEntry? && WellNamed(n)
    ensures forall k :: 0 <= k < |AllFiles(n, path, rel)| ==> Under(AllFiles(n, path, rel)[k].relPath, RelJoin(rel, n.name))
    decreases Size(n), 0
  {
    if n.Dir? {
      UnderSeq(n.children, JoinPath(path, n.name), RelJoin(rel, n.name));
    }
  }

  lemma {:induction false} UnderSeq(cs: seq<Node>, path: string, rel: string)
    requires WellNamedSeq(cs)
    ensures forall k :: 0 <= k < |AllFilesSeq(cs, path, rel)| ==> StartsWith(AllFilesSeq(cs, path, rel)[k].relPath, rel + "/") || rel == ""
    decreases SizeSeq(cs) + 1
  {
    if |cs| > 0 && rel != "" {
      var init := cs[..|cs| - 1];
      var last := cs[|cs| - 1];
      UnderSeq(init, path, rel);
      var a := AllFilesSeq(init, path, rel);
      var b := AllFiles(last, path, rel);
      if !last.BadEntry? {
        SizeSeqElem(cs, |cs| - 1);
        UnderEntry(last, path, rel);
      }
      var ab: seq<FileInfo> := a + b;
      forall k | 0 <= k < |ab|
        ensures StartsWith(ab[k].relPath, rel + "/")
      {
        if k >= |a| {
          var p := b[k - |a|].relPath;
          var top := rel + "/" + last.name;
          assert Under(p, top);
          assert p[..|rel + "/"|] == top[..|rel + "/"|];
        }
      }
    }
  }

  /** Paths under two different names of one directory differ. */
  lemma {:induction false} DifferentNamesDiffer(rel: string, n1: string, n2: string, p1: string, p2: string)
    requires n1 != n2 && '/' !in n1 && '/' !in n2
    requires Under(p1, RelJoin(rel, n1)) && Under(p2, RelJoin(rel, n2))
    ensures p1 != p2
  {
    var pre := if rel == "" then "" else rel + "/";
    assert RelJoin(rel, n1) == pre + n1 && RelJoin(rel, n2) == pre + n2;
    assert p1[..|pre| + |n1|] == pre + n1;
    assert p2[..|pre| + |n2|] == pre + n2;
    if |n1| == |n2| {
      assert p1[|pre|..|pre| + |n1|] == n1;
      assert p2[|pre|..|pre| + |n2|] == n2;
    } else if |n1| < |n2| {
      ShorterNameDiffers(pre, n1, n2, p1, p2);
    } else {
      ShorterNameDiffers(pre, n2, n1, p2, p1);
    }
  }

  lemma {:induction false} ShorterNameDiffers(pre: string, n1: string, n2: string, p1: string, p2: string)
    requires |n1| < |n2| && '/' !in n2
    requires Under(p1, pre + n1) && StartsWith(p2, pre + n2)
    ensures p1 != p2
  {
    var k := |pre| + |n1|;
    assert p2[k] == (pre + n2)[k] == n2[|n1|];
    assert n2[|n1|] != '/';
    if p1 != pre + n1 {
      assert p1[k] == '/';
    } else {
      assert |p1| < |p2|;
    }
  }

  /** In a well-named tree the flattening lists every regular file once: no relative
      path repeats. */
  lemma {:induction false} EachFileOnce(n: Node, path: string, rel: string)
    requires WellNamed(n)
    ensures Distinct(RelPaths(AllFiles(n, path, rel)))
    decreases Size(n), 0
  {
    if n.Dir? {
      EachFileOnceSeq(n.children, JoinPath(path, n.name), RelJoin(rel, n.name));
    }
  }

  /** Every file in `fs` lies under one of the good entries of `cs`. */
  predicate FromEntries(fs: seq<FileInfo>, cs: seq<Node>, rel: string) {
    forall k :: 0 <= k < |fs| ==>
      exists i :: 0 <= i < |cs| && !cs[i].BadEntry? && Under(fs[k].relPath, RelJoin(rel, cs[i].name))
  }

  lemma {:induction false} EachFileOnceSeq(cs: seq<Node>, path: string, rel: string)
    requires WellNamedSeq(cs) && DistinctNames(cs)
    ensures Distinct(RelPaths(AllFilesSeq(cs, path, rel)))
    ensures FromEntries(AllFilesSeq(cs, path, rel), cs, rel)
    decreases SizeSeq(cs) + 1
  {
    if |cs| > 0 {
      var init := cs[..|cs| - 1];
      var last := cs[|cs| - 1];
      var a := AllFilesSeq(init, path, rel);
      var b := AllFiles(last, path, rel);
      assert AllFilesSeq(cs, path, rel) == a + b;
      assert Distinct(RelPaths(a)) && FromEntries(a, init, rel) by {
        assert DistinctNames(init);
        EachFileOnceSeq(init, path, rel);
      }
      assert Distinct(RelPaths(b)) by {
        SizeSeqElem(cs, |cs| - 1);
        WellNamedAt(cs, |cs| - 1);
        EachFileOnce(last, path, rel);
      }
      assert forall j :: 0 <= j < |b| ==> Under(b[j].relPath, RelJoin(rel, last.name)) by {
        if |b| > 0 {
          WellNamedAt(cs, |cs| - 1);
          UnderEntry(last, path, rel);
        }
      }
      forall i, j | 0 <= i < |a| && 0 <= j < |b|
        ensures a[i].relPath != b[j].relPath
      {
        var x := PickEntry(a, init, rel, i);
        assert init[x] == cs[x];
        assert !last.BadEntry?;
        assert cs[x].name != last.name;
        WellNamedAt(cs, x);
        WellNamedAt(cs, |cs| - 1);
        DifferentNamesDiffer(rel, init[x].name, last.name, a[i].relPath, b[j].relPath);
      }
      DistinctAppend(a, b);
      forall k | 0 <= k < |a + b|
        ensures exists i :: 0 <= i < |cs| && !cs[i].BadEntry? && Under((a + b)[k].relPath, RelJoin(rel, cs[i].name))
      {
        if k < |a| {
          var x := PickEntry(a, init, rel, k);
          assert init[x] == cs[x];
        } else {
          assert Under((a + b)[k].relPath, RelJoin(rel, cs[|cs| - 1].name));
        }
      }
    }
  }

  lemma {:induction false} PickEntry(fs: seq<FileInfo>, cs: seq<Node>, rel: string, k: nat) returns (x: nat)
    requires FromEntries(fs, cs, rel) && k < |fs|
    ensures x < |cs| && !cs[x].BadEntry? && Under(fs[k].relPath, RelJoin(rel, cs[x].name))
  {
    var f := fs[k];
    assert exists i :: 0 <= i < |cs| && !cs[i].BadEntry? && Under(f.relPath, RelJoin(rel, cs[i].name));
    x :| 0 <= x < |cs| && !cs[x].BadEntry? && Under(fs[k].relPath, RelJoin(rel, cs[x].name));
  }

  lemma {:induction false} DistinctAppend(a: seq<FileInfo>, b: seq<FileInfo>)
    requires Distinct(RelPaths(a)) && Distinct(RelPaths(b))
    requires forall i, j :: 0 <= i < |a| && 0 <= j < |b| ==> a[i].relPath != b[j].relPath
    ensures Distinct(RelPaths(a + b))
  {
    var r := a + b;
    forall i, j | 0 <= i < j < |r|
      ensures RelPaths(r)[i] != RelPaths(r)[j]
    {
      if j < |a| {
        assert r[i] == a[i] && r[j] == a[j];
        assert RelPaths(a)[i] != RelPaths(a)[j];
      } else if i >= |a| {
        assert r[i] == b[i - |a|] && r[j] == b[j - |a|];
        assert RelPaths(b)[i - |a|] != RelPaths(b)[j - |a|];
      } else {
        assert r[i] == a[i] && r[j] == b[j - |a|];
      }
    }
  }

  lemma {:induction false} WellNamedAt(cs: seq<Node>, i: nat)
    requires WellNamedSeq(cs) && i < |cs|
    ensures WellNamed(cs[i])
    ensures !cs[i].BadEntry? ==> '/' !in cs[i].name
    decreases |cs|
  {
    if i < |cs| - 1 {
      WellNamedAt(cs[..|cs| - 1], i);
    }
  }

  // ---------------------------------------------------------------------------
  // Sections

  /** The sum of the file sizes. */
  function SumSizes(fs: seq<FileInfo>): nat
    decreases |fs|
  {
    if |fs| == 0 then 0 else SumSizes(fs[..|fs| - 1]) + fs[|fs| - 1].size
  }

  /** The latest present modification time: `latest.max(mtime)` over the files that
      have one. */
  function LatestMtime(fs: seq<FileInfo>): Option<nat>
    decreases |fs|
  {
    if |fs| == 0 then None
    else
      var prev := LatestMtime(fs[..|fs| - 1]);
      match fs[|fs| - 1].mtime
      case None => prev
      case Some(m) => Some(match prev case None => m case Some(l) => if l >= m then l else m)
  }

  /** `a.rel_path.cmp(&b.rel_path)`. */
  function ByRelPath(a: FileInfo, b: FileInfo): int {
    CompareStrings(a.relPath, b.relPath)
  }

  lemma {:induction false} ByRelPathAntisymmetric()
    ensures Antisymmetric(ByRelPath)
  {
    forall a, b ensures ByRelPath(a, b) == -ByRelPath(b, a) {
      CompareStringsAntisymmetric();
      assert CompareStrings(a.relPath, b.relPath) == -CompareStrings(b.relPath, a.relPath);
    }
  }

  /** The section directory, when the path names a directory. */
  predicate IsDir(n: Option<Node>) {
    n.Some? && n.value.Dir?
  }

  /** `scan_section`: a missing section is empty; a present one lists the files of its
      walk (none when the walk fails) sorted by relative path, with their count, byte
      sum and latest time. */
  function SectionSpec(section: Option<Node>, path: string): SectionInfo {
    if !IsDir(section) then SectionInfo(false, SectionSummary(0, 0, None), [])
    else
      var scanned := match ScanDirSpec(section.value, path, "") case Ok(fs) => fs case Err(_) => [];
      var files := SortWith(ByRelPath, scanned);
      SectionInfo(true, SectionSummary(|files|, SumSizes(scanned), LatestMtime(scanned)), files)
  }

  /** `scan_section`: the walk, then the loop adding up sizes and times and pushing
      the files, then the sort. It always succeeds. */
  method ScanSection(section: Option<Node>, path: string) returns (r: Result<SectionInfo>)
    ensures r == Ok(SectionSpec(section, path))
  {
    if !IsDir(section) {
      return Ok(SectionInfo(false, SectionSummary(0, 0, None), []));
    }
    var files: seq<FileInfo> := [];
    var totalBytes := 0;
    var latestMtime: Option<nat> := None;
    var walked := ScanDirectoryRecursive(section.value, path, "");
    var scanned := if walked.Ok? then walked.value else [];
    for i := 0 to |scanned|
      invariant files == scanned[..i]
      invariant totalBytes == SumSizes(files) && latestMtime == LatestMtime(files)
    {
      var f := scanned[i];
      assert scanned[..i + 1] == files + [f];
      assert (files + [f])[..|files|] == files;
      totalBytes := totalBytes + f.size;
      if f.mtime.Some? {
        var m := f.mtime.value;
        latestMtime := Some(match latestMtime case None => m case Some(l) => if l >= m then l else m);
      }
      files := files + [f];
    }
    assert scanned[..|scanned|] == scanned;
    files := SortWith(ByRelPath, files);
    return Ok(SectionInfo(true, SectionSummary(|files|, totalBytes, latestMtime), files));
  }

  lemma {:induction false} SumSizesConcat(a: seq<FileInfo>, b: seq<FileInfo>)
    ensures SumSizes(a + b) == SumSizes(a) + SumSizes(b)
    decreases |b|
  {
    if |b| == 0 {
      assert a + b == a;
    } else {
      SumSizesConcat(a, b[..|b| - 1]);
      assert (a + b)[..|a + b| - 1] == a + b[..|b| - 1];
    }
  }

  /** Taking one file out of a list takes its size out of the sum. */
  lemma {:induction false} SumSizesRemove(b: seq<FileInfo>, j: nat)
    requires j < |b|
    ensures multiset(b) == multiset(b[..j] + b[j + 1..]) + multiset{b[j]}
    ensures SumSizes(b) == SumSizes(b[..j] + b[j + 1..]) + b[j].size
  {
    var x := b[j];
    assert b == b[..j] + [x] + b[j + 1..];
    SumSizesConcat(b[..j] + [x], b[j + 1..]);
    SumSizesConcat(b[..j], [x]);
    SumSizesConcat(b[..j], b[j + 1..]);
    assert SumSizes([x]) == x.size by { assert [x][..0] == []; }
  }

  /** The byte sum does not depend on the order of the files. */
  lemma {:induction false} SumSizesPermutation(a: seq<FileInfo>, b: seq<FileInfo>)
    requires multiset(a) == multiset(b)
    ensures SumSizes(a) == SumSizes(b)
    decreases |a|
  {
    if |a| > 0 {
      var x := a[|a| - 1];
      var init := a[..|a| - 1];
      assert a == init + [x];
      assert multiset(a) == multiset(init) + multiset{x};
      assert x in multiset(b);
      var j :| 0 <= j < |b| && b[j] == x;
      var rest := b[..j] + b[j + 1..];
      SumSizesRemove(b, j);
      assert multiset(init) == multiset(a) - multiset{x};
      assert multiset(rest) == multiset(b) - multiset{x};
      SumSizesPermutation(init, rest);
    }
  }

  /** The latest time is None exactly when no file has a time; otherwise it is some
      file's time and no file's time is later. */
  lemma {:induction false} LatestIsMax(fs: seq<FileInfo>)
    ensures LatestMtime(fs).None? <==> forall i :: 0 <= i < |fs| ==> fs[i].mtime.None?
    ensures LatestMtime(fs).Some? ==>
      (exists i :: 0 <= i < |fs| && fs[i].mtime == LatestMtime(fs)) &&
      (forall i :: 0 <= i < |fs| && fs[i].mtime.Some? ==> fs[i].mtime.value <= LatestMtime(fs).value)
    decreases |fs|
  {
    if |fs| > 0 {
      var init := fs[..|fs| - 1];
      LatestIsMax(init);
      forall i | 0 <= i < |init| ensures fs[i] == init[i] { }
      if LatestMtime(fs).Some? && fs[|fs| - 1].mtime.Some? && LatestMtime(fs) != fs[|fs| - 1].mtime {
        var k :| 0 <= k < |init| && init[k].mtime == LatestMtime(init);
        assert fs[k].mtime == LatestMtime(fs);
      }
    }
  }

  /** Every time in a is matched or beaten by the latest time of a list holding all
      of a's files. */
  lemma {:induction false} LatestDominated(a: seq<FileInfo>, b: seq<FileInfo>)
    requires forall i :: 0 <= i < |a| ==> a[i] in b
    ensures LatestMtime(a).Some? ==> LatestMtime(b).Some? && LatestMtime(a).value <= LatestMtime(b).value
  {
    LatestIsMax(a);
    LatestIsMax(b);
    if LatestMtime(a).Some? {
      var i :| 0 <= i < |a| && a[i].mtime == LatestMtime(a);
      var k :| 0 <= k < |b| && b[k] == a[i];
      assert b[k].mtime.Some?;
    }
  }

  lemma {:induction false} LatestPermutation(a: seq<FileInfo>, b: seq<FileInfo>)
    requires multiset(a) == multiset(b)
    ensures LatestMtime(a) == LatestMtime(b)
  {
    forall i | 0 <= i < |a| ensures a[i] in b { assert a[i] in multiset(a); }
    forall i | 0 <= i < |b| ensures b[i] in a { assert b[i] in multiset(b); }
    LatestDominated(a, b);
    LatestDominated(b, a);
  }

  /** A missing section is empty with zero totals; a present one has its files sorted by
      relative path, and its summary counts them, adds up their sizes and takes their
      latest time. */
  lemma {:induction false} SectionSummaryDescribesFiles(section: Option<Node>, path: string)
    ensures !IsDir(section) ==> SectionSpec(section, path) == SectionInfo(false, SectionSummary(0, 0, None), [])
    ensures var info := SectionSpec(section, path);
      IsDir(section) ==>
        info.dirExists && info.summary.total == |info.files| &&
        info.summary.bytes == SumSizes(info.files) && info.summary.latest == LatestMtime(info.files) &&
        Ordered(ByRelPath, info.files)
  {
    if IsDir(section) {
      var scanned := match ScanDirSpec(section.value, path, "") case Ok(fs) => fs case Err(_) => [];
      ByRelPathAntisymmetric();
      SortWithFacts(ByRelPath, scanned);
      SumSizesPermutation(scanned, SortWith(ByRelPath, scanned));
      LatestPermutation(scanned, SortWith(ByRelPath, scanned));
    }
  }

  // ---------------------------------------------------------------------------
  // Projects

  /** The first entry of a directory with the given name. */
  function Child(dir: Option<Node>, name: string): (r: Option<Node>)
    ensures r.Some? ==> !r.value.BadEntry? && r.value.name == name
  {
    if dir.Some? && dir.value.Dir? then FirstNamed(dir.value.children, name) else None
  }

  function FirstNamed(cs: seq<Node>, name: string): (r: Option<Node>)
    ensures r.Some? ==> !r.value.BadEntry? && r.value.name == name && r.value in cs
    decreases |cs|
  {
    if |cs| == 0 then None
    else if !cs[0].BadEntry? && cs[0].name == name then Some(cs[0])
    else FirstNamed(cs[1..], name)
  }

  const SectionNames: seq<string> := ["standards", "product", "specs", "instructions", "agents"]

  const NoAgentSddWarning: string := "No .agent-sdd directory found"

  /** The sections of a project with an `.agent-sdd` directory. */
  function SectionsOf(agent: Option<Node>, agentPath: string, names: seq<string>): map<string, SectionInfo> {
    map k | k in names :: SectionSpec(Child(agent, k), JoinPath(agentPath, k))
  }

  /** `scan_project`: the project is the directory at `projectPath` (None when the
      path names nothing). */
  method ScanProject(project: Option<Node>, projectPath: string) returns (r: Result<ProjectReport>)
    ensures r.Ok?
    ensures var agent := Child(project, ".agent-sdd");
      !IsDir(agent) ==> r.value == ProjectReport(false, map[], [NoAgentSddWarning])
    ensures var agent := Child(project, ".agent-sdd");
      IsDir(agent) ==>
        r.value == ProjectReport(true, SectionsOf(agent, JoinPath(projectPath, ".agent-sdd"), SectionNames), [])
  {
    var agent := Child(project, ".agent-sdd");
    var agentPath := JoinPath(projectPath, ".agent-sdd");
    var hasAgentSdd := IsDir(agent);
    var sections: map<string, SectionInfo> := map[];
    var warnings: seq<string> := [];
    if hasAgentSdd {
      for i := 0 to |SectionNames|
        invariant sections == SectionsOf(agent, agentPath, SectionNames[..i])
      {
        var name := SectionNames[i];
        // The `?` on the section scan never propagates: the scan always succeeds.
        var scanned := ScanSection(Child(agent, name), JoinPath(agentPath, name));
        sections := sections[name := scanned.value];
        assert SectionNames[..i + 1] == SectionNames[..i] + [name];
      }
      assert SectionNames[..|SectionNames|] == SectionNames;
    } else {
      warnings := warnings + [NoAgentSddWarning];
    }
    return Ok(ProjectReport(hasAgentSdd, sections, warnings));
  }

  /** With `.agent-sdd` the report has exactly the five sections and no warning;
      without it, no section and exactly one warning. */
  lemma {:induction false} ProjectSections(agent: Option<Node>, agentPath: string)
    ensures SectionsOf(agent, agentPath, SectionNames).Keys == {"standards", "product", "specs", "instructions", "agents"}
    ensures "specs" in SectionsOf(agent, agentPath, SectionNames) &&
      SectionsOf(agent, agentPath, SectionNames)["specs"] == SectionSpec(Child(agent, "specs"), JoinPath(agentPath, "specs"))
  {
    var m := SectionsOf(agent, agentPath, SectionNames);
    assert SectionNames[2] == "specs";
    forall k | k in m.Keys ensures k in {"standards", "product", "specs", "instructions", "agents"} {
      assert k in SectionNames;
    }
    assert SectionNames[0] in m.Keys && SectionNames[1] in m.Keys && SectionNames[3] in m.Keys && SectionNames[4] in m.Keys;
  }

  // ---------------------------------------------------------------------------
  // Reading one file

  /** The largest file `read_file` returns: 10 MiB. */
  const MaxFileSize: nat := 10 * 1024 * 1024

  /** `read_file` on the node the path names (None when it names nothing): existence,
      then regular file, then metadata and size, then the text. `exists()` reads the
      metadata, so a file whose metadata cannot be read does not exist to it. */
  function ReadFile(target: Option<Node>): Result<string> {
    if target.None? || (target.value.File? && target.value.meta == NoMetadata) then Err("File does not exist")
    else if !target.value.File? then Err("Path is not a file")
    else
      var f := target.value;
      if f.meta == LostAfterCheck then Err("Failed to read file metadata")
      else if f.size > MaxFileSize then Err("File too large (>10MB)")
      else if f.text.None? then Err("Failed to read file")
      else Ok(f.text.value)
  }

  /** The read succeeds exactly for a regular file of at most 10 MiB whose metadata and
      text can be read, and returns that text. A file whose metadata cannot be read at
      all does not exist to the read; the metadata error arises only for a file lost
      after the type checks. */
  lemma {:induction false} ReadFileSucceeds(target: Option<Node>)
    ensures ReadFile(target).Ok? <==>
      target.Some? && target.value.File? && target.value.meta == Readable &&
      target.value.size <= MaxFileSize && target.value.text.Some?
    ensures ReadFile(target).Ok? ==> ReadFile(target).value == target.value.text.value
    ensures target.Some? && target.value.File? && target.value.meta == NoMetadata ==>
      ReadFile(target) == ReadFile(None) == Err("File does not exist")
    ensures ReadFile(target) == Err("Failed to read file metadata") <==>
      target.Some? && target.value.File? && target.value.meta == LostAfterCheck
  {
  }

  /** A file of exactly 10 MiB is read; one byte more is refused. */
  lemma {:induction false} ReadFileLimitBoundary(name: string, mtime: Option<nat>, text: string)
    ensures ReadFile(Some(File(name, 10485760, mtime, Readable, Some(text)))) == Ok(text)
    ensures ReadFile(Some(File(name, 10485761, mtime, Readable, Some(text)))) == Err("File too large (>10MB)")
  {
    assert MaxFileSize == 10485760;
  }

  // ---------------------------------------------------------------------------
  // Listing projects

  /** The non-hidden subdirectories among the entries, in order. */
  function VisibleDirs(cs: seq<Node>, basePath: string): seq<DirectoryInfo>
    decreases |cs|
  {
    if |cs| == 0 then []
    else
      var e := cs[|cs| - 1];
      VisibleDirs(cs[..|cs| - 1], basePath) +
      (if e.Dir? && !StartsWith(e.name, ".") then [DirectoryInfo(e.name, JoinPath(basePath, e.name))] else [])
  }

  /** `a.name.cmp(&b.name)`. */
  function ByName(a: DirectoryInfo, b: DirectoryInfo): int {
    CompareStrings(a.name, b.name)
  }

  const BaseMissing: string := "Base path does not exist or is not a directory"

  /** `list_child_directories` on the node the base path names. */
  function ListSpec(base: Option<Node>, basePath: string): Result<seq<DirectoryInfo>> {
    if !IsDir(base) then Err(BaseMissing)
    else if !base.value.readable then Err("Failed to read directory")
    else Ok(SortWith(ByName, VisibleDirs(base.value.children, basePath)))
  }

  /** `list_child_directories`: the loop over the entries pushing non-hidden
      directories, then the sort by name. */
  method ListChildDirectories(base: Option<Node>, basePath: string) returns (r: Result<seq<DirectoryInfo>>)
    ensures r == ListSpec(base, basePath)
  {
    if !IsDir(base) {
      return Err(BaseMissing);
    }
    if !base.value.readable {
      return Err("Failed to read directory");
    }
    var cs := base.value.children;
    var directories: seq<DirectoryInfo> := [];
    for i := 0 to |cs|
      invariant directories == VisibleDirs(cs[..i], basePath)
    {
      var e := cs[i];
      assert cs[..i + 1][..i] == cs[..i];
      if e.Dir? && !StartsWith(e.name, ".") {
        directories := directories + [DirectoryInfo(e.name, JoinPath(basePath, e.name))];
      }
    }
    assert cs[..|cs|] == cs;
    directories := SortWith(ByName, directories);
    return Ok(directories);
  }

  lemma {:induction false} VisibleDirsExactly(cs: seq<Node>, basePath: string)
    ensures forall d :: d in VisibleDirs(cs, basePath) <==>
      exists i :: 0 <= i < |cs| && cs[i].Dir? && !StartsWith(cs[i].name, ".") &&
        d == DirectoryInfo(cs[i].name, JoinPath(basePath, cs[i].name))
    decreases |cs|
  {
    if |cs| > 0 {
      var init := cs[..|cs| - 1];
      VisibleDirsExactly(init, basePath);
      forall i | 0 <= i < |init| ensures cs[i] == init[i] { }
    }
  }

  /** The listing fails exactly when the base is not a readable directory; otherwise it
      holds one entry per non-hidden subdirectory, with its full path, sorted by
      name. */
  lemma {:induction false} ListingIsSortedVisibleDirs(base: Option<Node>, basePath: string)
    ensures ListSpec(base, basePath).Err? <==> !IsDir(base) || !base.value.readable
    ensures !IsDir(base) ==> ListSpec(base, basePath) == Err(BaseMissing)
    ensures ListSpec(base, basePath).Ok? ==>
      var ds := ListSpec(base, basePath).value;
      var cs := base.value.children;
      (forall d :: d in ds <==>
        exists i :: 0 <= i < |cs| && cs[i].Dir? && !StartsWith(cs[i].name, ".") &&
          d == DirectoryInfo(cs[i].name, JoinPath(basePath, cs[i].name))) &&
      (forall i :: 0 <= i < |ds| - 1 ==> !LexLess(ds[i + 1].name, ds[i].name))
  {
    if IsDir(base) && base.value.readable {
      var cs := base.value.children;
      var vis := VisibleDirs(cs, basePath);
      var ds := SortWith(ByName, vis);
      VisibleDirsExactly(cs, basePath);
      assert Antisymmetric(ByName) by {
        forall a, b ensures ByName(a, b) == -ByName(b, a) {
          LexLessAsymmetric(a.name, b.name);
        }
      }
      SortWithFacts(ByName, vis);
      forall d ensures d in ds <==> d in vis {
        assert d in ds <==> d in multiset(ds);
        assert d in vis <==> d in multiset(vis);
      }
      forall i | 0 <= i < |ds| - 1 ensures !LexLess(ds[i + 1].name, ds[i].name) {
        assert ByName(ds[i], ds[i + 1]) <= 0;
        LexLessAsymmetric(ds[i].name, ds[i + 1].name);
      }
    }
  }
}
