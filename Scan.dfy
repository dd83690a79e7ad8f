/**
 * The directory scan of main.go (`scanDirectory`). The file system is a
 * tree of `Entry` values: a directory lists the entries that reading it
 * returns, and a file carries what opening and reading it yields. The
 * recursive mode follows `filepath.WalkDir` with the source's callback; the
 * shallow mode follows the loop over `os.ReadDir`.
 */
module Scan {
  import opened Wrappers
  import opened Classify
  import opened LineCounter

  /** `FileInfo`: one counted file. */
  datatype FileInfo = FileInfo(path: string, lines: nat)

  /**
   * A directory entry. `listed` is false when reading the directory fails;
   * `children` then holds the entries read before the failure.
   */
  datatype Entry =
    | File(name: string, state: FileState)
    | Dir(name: string, children: seq<Entry>, listed: bool)

  /** The one error a scan returns: the root cannot be listed (shallow mode). */
  datatype ScanError = ListFailed

  /** `strings.HasPrefix(name, ".")`. */
  predicate IsHidden(name: string) {
    |name| > 0 && name[0] == '.'
  }

  /**
   * `filepath.Join(dir, name)` for a directory path that is already clean:
   * an empty or "." directory adds nothing, and exactly one separator is
   * put between the two parts.
   */
  function Join(dir: string, name: string): string {
    if dir == "" || dir == "." then name
    else if dir[|dir| - 1] == '/' then dir + name
    else dir + "/" + name
  }

  /**
   * What the walk callback appends for a non-directory entry: its record
   * when the name is classified as code and the count succeeds.
   */
  function FileRecord(path: string, name: string, state: FileState): seq<FileInfo> {
    if IsCodeFile(name) && state.Readable? then [FileInfo(path, LineCount(state.data))] else []
  }

  /**
   * The records the recursive walk appends below entry `e` found at `path`,
   * in walk order, when the walk was started at `root`. A directory whose
   * name starts with `.` is skipped unless its path is the root's.
   */
  function Walk(root: string, path: string, e: Entry): seq<FileInfo>
    decreases e
  {
    match e
    case File(name, state) => FileRecord(path, name, state)
    case Dir(name, children, _) =>
      if IsHidden(name) && path != root then [] else WalkChildren(root, path, children)
  }

  function WalkChildren(root: string, dir: string, children: seq<Entry>): seq<FileInfo>
    decreases children
  {
    if children == [] then []
    else
      var last := children[|children| - 1];
      WalkChildren(root, dir, children[..|children| - 1]) + Walk(root, Join(dir, last.name), last)
  }

  lemma WalkChildrenStep(root: string, dir: string, children: seq<Entry>, i: nat)
    requires i < |children|
    ensures WalkChildren(root, dir, children[..i + 1]) ==
            WalkChildren(root, dir, children[..i]) + Walk(root, Join(dir, children[i].name), children[i])
  {
    assert children[..i + 1][..i] == children[..i];
  }

  /** The walk of two entries is the walk of the first followed by the walk of the second. */
  lemma WalkTwoChildren(root: string, dir: string, children: seq<Entry>)
    requires |children| == 2
    ensures WalkChildren(root, dir, children) ==
      Walk(root, Join(dir, children[0].name), children[0]) + Walk(root, Join(dir, children[1].name), children[1])
  {
    WalkOneChild(root, dir, children[..1]);
    assert children[..1][0] == children[0];
  }

  /** The walk of one entry is the walk of that entry at its joined path. */
  lemma WalkOneChild(root: string, dir: string, children: seq<Entry>)
    requires |children| == 1
    ensures WalkChildren(root, dir, children) == Walk(root, Join(dir, children[0].name), children[0])
  {
    assert children[..0] == [];
  }

  lemma AppendAssoc<T>(a: seq<T>, b: seq<T>, c: seq<T>)
    ensures (a + b) + c == a + (b + c)
  {
  }

  /** The records of the shallow listing: direct non-directory children only. */
  function Shallow(dir: string, children: seq<Entry>): seq<FileInfo> {
    if children == [] then []
    else
      var last := children[|children| - 1];
      Shallow(dir, children[..|children| - 1]) +
        (if last.File? then FileRecord(Join(dir, last.name), last.name, last.state) else [])
  }

  /**
   * The walk callback of `scanDirectory` for an entry reached without an
   * error: skip a hidden directory other than the root; for a non-directory
   * whose name is classified as code, count its lines and append a record,
   * or drop it when the count fails.
   */
  method Visit(root: string, path: string, e: Entry, infos: seq<FileInfo>)
    returns (infos': seq<FileInfo>, skipDir: bool)
    ensures skipDir <==> e.Dir? && IsHidden(e.name) && path != root
    ensures e.Dir? ==> infos' == infos
    ensures e.File? ==> infos' == infos + FileRecord(path, e.name, e.state)
  {
    infos' := infos;
    skipDir := false;
    if e.Dir? && IsHidden(e.name) && path != root {
      skipDir := true;
      return;
    }
    if e.File? && IsCodeFile(e.name) {
      var lines, err := CountLines(e.state);
      if err.Some? {
        return;
      }
      infos' := infos' + [FileInfo(path, lines)];
    }
  }

  /**
   * `filepath.WalkDir` below `e`, calling `Visit` for each entry in walk
   * order. A directory that `Visit` skips is not read. When reading a
   * directory fails, the callback receives the error and answers nil, so
   * the walk goes on with the entries that were read.
   */
  method WalkDir(root: string, path: string, e: Entry, infos: seq<FileInfo>)
    returns (result: seq<FileInfo>)
    ensures result == infos + Walk(root, path, e)
    decreases e
  {
    var skipDir;
    result, skipDir := Visit(root, path, e, infos);
    if e.File? {
      assert Walk(root, path, e) == FileRecord(path, e.name, e.state);
      return;
    }
    if skipDir {
      assert Walk(root, path, e) == [];
      return;
    }
    result := WalkEntries(root, path, e.children, result);
  }

  /** The loop of `walkDir` over the entries read from the directory at `dir`. */
  method WalkEntries(root: string, dir: string, children: seq<Entry>, infos: seq<FileInfo>)
    returns (result: seq<FileInfo>)
    ensures result == infos + WalkChildren(root, dir, children)
    decreases children
  {
    result := infos;
    for i := 0 to |children|
      invariant result == infos + WalkChildren(root, dir, children[..i])
    {
      var child := children[i];
      WalkChildrenStep(root, dir, children, i);
      result := WalkDir(root, Join(dir, child.name), child, result);
      AppendAssoc(infos, WalkChildren(root, dir, children[..i]), Walk(root, Join(dir, child.name), child));
    }
    assert children[..|children|] == children;
  }

  /**
   * `scanDirectory`. `root` is the entry at `dirPath`, or None when there is
   * nothing there. The recursive mode never reports an error: every failure
   * reaches the callback, which prints it and goes on. The shallow mode
   * fails when the root cannot be listed.
   */
  method ScanDirectory(dirPath: string, root: Option<Entry>, recursive: bool)
    returns (infos: seq<FileInfo>, err: Option<ScanError>)
    ensures recursive ==> err == None
    ensures recursive && root.Some? ==> infos == Walk(dirPath, dirPath, root.value)
    ensures recursive && root.None? ==> infos == []
    ensures !recursive ==> (err == None <==> root.Some? && root.value.Dir? && root.value.listed)
    ensures !recursive && err == None ==> infos == Shallow(dirPath, root.value.children)
    ensures err.Some? ==> infos == []
  {
    infos := [];
    if recursive {
      if root.Some? {
        infos := WalkDir(dirPath, dirPath, root.value, infos);
      }
      return infos, None;
    }
    if root.None? || root.value.File? || !root.value.listed {
      return [], Some(ListFailed);
    }
    var entries := root.value.children;
    for i := 0 to |entries|
      invariant infos == Shallow(dirPath, entries[..i])
    {
      var entry := entries[i];
      assert entries[..i + 1][..i] == entries[..i];
      if entry.File? && IsCodeFile(entry.name) {
        var filePath := Join(dirPath, entry.name);
        var lines, countErr := CountLines(entry.state);
        if countErr.Some? {
          continue;
        }
        infos := infos + [FileInfo(filePath, lines)];
      }
    }
    assert entries[..|entries|] == entries;
    err := None;
  }

  // ---------------------------------------------------------------------
  // Properties of the scan

  /** What a directory listing can return as a name: never empty, ".", ".." or containing a separator. */
  predicate ValidName(name: string) {
    name != "" && name != "." && name != ".." && '/' !in name
  }

  /** Every entry below `e` has a name a directory listing can return. */
  predicate ValidEntry(e: Entry)
    decreases e
  {
    e.Dir? ==> forall i :: 0 <= i < |e.children| ==> ValidName(e.children[i].name) && ValidEntry(e.children[i])
  }

  /**
   * Paths the walk builds below the root `root`: never empty or ".", and
   * longer than the root unless the root is ".". Such a path is never
   * equal to the root's.
   */
  predicate Below(root: string, path: string) {
    path != "" && path != "." && (|path| > |root| || root == ".")
  }

  lemma JoinBelow(root: string, dir: string, name: string)
    requires ValidName(name)
    requires dir == root || Below(root, dir)
    ensures Below(root, Join(dir, name))
    ensures Join(dir, name) != root
  {
  }

  /** The tree as the walk sees it: below a hidden directory that is not the root, nothing. */
  function Pruned(e: Entry): (p: Entry)
    ensures p.name == e.name && p.File? == e.File?
    decreases e
  {
    match e
    case File(_, _) => e
    case Dir(name, children, listed) =>
      if IsHidden(name) then Dir(name, [], listed) else Dir(name, PrunedAll(children), listed)
  }

  function PrunedAll(children: seq<Entry>): (ps: seq<Entry>)
    ensures |ps| == |children|
    decreases children
  {
    seq(|children|, i requires 0 <= i < |children| => Pruned(children[i]))
  }

  /** The root is never pruned, only what lies below it. */
  function PrunedRoot(e: Entry): Entry {
    match e
    case File(_, _) => e
    case Dir(name, children, listed) => Dir(name, PrunedAll(children), listed)
  }

  lemma {:induction false} PrunedWalk(root: string, path: string, e: Entry)
    requires Below(root, path) && ValidEntry(e)
    ensures Walk(root, path, Pruned(e)) == Walk(root, path, e)
    decreases e
  {
    match e
    case File(_, _) =>
    case Dir(name, children, listed) =>
      if !IsHidden(name) {
        PrunedWalkChildren(root, path, children);
      }
  }

  lemma {:induction false} PrunedWalkChildren(root: string, dir: string, children: seq<Entry>)
    requires dir == root || Below(root, dir)
    requires forall i :: 0 <= i < |children| ==> ValidName(children[i].name) && ValidEntry(children[i])
    ensures WalkChildren(root, dir, PrunedAll(children)) == WalkChildren(root, dir, children)
    decreases children
  {
    if children != [] {
      var n := |children| - 1;
      var last := children[n];
      assert PrunedAll(children)[..n] == PrunedAll(children[..n]);
      PrunedWalkChildren(root, dir, children[..n]);
      JoinBelow(root, dir, last.name);
      PrunedWalk(root, Join(dir, last.name), last);
    }
  }

  /**
   * Hidden directories are skipped with everything below them, except the
   * root: the recursive scan of a tree equals the scan of the same tree
   * with the contents of every hidden non-root directory removed.
   */
  lemma RecursiveScanIgnoresHiddenSubtrees(dirPath: string, root: Entry)
    requires ValidEntry(root)
    ensures Walk(dirPath, dirPath, PrunedRoot(root)) == Walk(dirPath, dirPath, root)
  {
    if root.Dir? {
      PrunedWalkChildren(dirPath, dirPath, root.children);
    }
  }

  /**
   * A readable file the classifier accepts yields one record with its line
   * count, wherever it is and even when its name starts with `.`: only
   * directories are skipped for being hidden.
   */
  lemma CodeFileIsRecorded(root: string, path: string, name: string, data: seq<byte>)
    requires IsCodeFile(name)
    ensures Walk(root, path, File(name, Readable(data))) == [FileInfo(path, LineCount(data))]
  {
  }

  /** Joining a valid name onto a directory keeps the name's extension. */
  lemma JoinKeepsExt(dir: string, name: string)
    requires '/' !in name
    ensures Ext(Join(dir, name)) == Ext(name)
  {
    if dir == "" || dir == "." {
    } else if dir[|dir| - 1] == '/' {
      ExtAfterSeparator(dir, name);
    } else {
      ExtAfterSeparator(dir + "/", name);
    }
  }

  lemma {:induction false} WalkRecordsAreCode(root: string, dir: string, e: Entry)
    requires ValidName(e.name) && ValidEntry(e)
    ensures forall r :: r in Walk(root, Join(dir, e.name), e) ==> IsCodeFile(r.path)
    decreases e
  {
    match e
    case File(name, _) =>
      JoinKeepsExt(dir, name);
    case Dir(_, children, _) =>
      WalkChildrenRecordsAreCode(root, Join(dir, e.name), children);
  }

  lemma {:induction false} WalkChildrenRecordsAreCode(root: string, dir: string, children: seq<Entry>)
    requires forall i :: 0 <= i < |children| ==> ValidName(children[i].name) && ValidEntry(children[i])
    ensures forall r :: r in WalkChildren(root, dir, children) ==> IsCodeFile(r.path)
    decreases children
  {
    if children != [] {
      var n := |children| - 1;
      WalkChildrenRecordsAreCode(root, dir, children[..n]);
      WalkRecordsAreCode(root, dir, children[n]);
    }
  }

  /**
   * Every record of a recursive scan of a directory has a path that the
   * classifier accepts: the name it was classified by is the last element
   * of its path.
   */
  lemma RecursiveRecordsAreCode(dirPath: string, root: Entry)
    requires root.Dir? && ValidEntry(root)
    ensures forall r :: r in Walk(dirPath, dirPath, root) ==> IsCodeFile(r.path)
  {
    WalkChildrenRecordsAreCode(dirPath, dirPath, root.children);
  }

  /**
   * `f` is a file at path `p` that the walk of `e`, found at `path`, visits:
   * `e` itself when it is a file, or a file below it reached through
   * directories none of which is skipped for being hidden (the root never is).
   */
  predicate Reaches(root: string, path: string, e: Entry, p: string, f: Entry)
    decreases e
  {
    match e
    case File(_, _) => p == path && f == e
    case Dir(name, children, _) =>
      (!IsHidden(name) || path == root)
      && exists i :: 0 <= i < |children| && Reaches(root, Join(path, children[i].name), children[i], p, f)
  }

  /** `r` is the record of `f` found at `p`: `f` is a readable code file and `r` carries its path and count. */
  predicate RecordOf(p: string, f: Entry, r: FileInfo) {
    f.File? && IsCodeFile(f.name) && f.state.Readable? && r == FileInfo(p, LineCount(f.state.data))
  }

  /**
   * The recursive walk reports exactly the readable code files it visits,
   * each with its own path and line count: a file whose count fails is
   * dropped without affecting any other, and every file below directories
   * that are not hidden is reported, however deep.
   */
  lemma RecursiveRecords(root: string, path: string, e: Entry, r: FileInfo)
    ensures r in Walk(root, path, e) <==> exists p, f :: Reaches(root, path, e, p, f) && RecordOf(p, f, r)
  {
    if r in Walk(root, path, e) {
      WalkSound(root, path, e, r);
    }
    if p, f :| Reaches(root, path, e, p, f) && RecordOf(p, f, r) {
      WalkComplete(root, path, e, p, f, r);
    }
  }

  /** A record of the walk over a directory's entries is a record of the walk of one of them, and back. */
  lemma WalkChildrenMember(root: string, dir: string, children: seq<Entry>, r: FileInfo)
    ensures r in WalkChildren(root, dir, children) <==>
      exists i :: 0 <= i < |children| && r in Walk(root, Join(dir, children[i].name), children[i])
  {
    if r in WalkChildren(root, dir, children) {
      WalkChildrenMemberSound(root, dir, children, r);
    }
    if i :| 0 <= i < |children| && r in Walk(root, Join(dir, children[i].name), children[i]) {
      WalkChildrenMemberComplete(root, dir, children, i, r);
    }
  }

  lemma {:induction false} WalkChildrenMemberSound(root: string, dir: string, children: seq<Entry>, r: FileInfo)
    requires r in WalkChildren(root, dir, children)
    ensures exists i :: 0 <= i < |children| && r in Walk(root, Join(dir, children[i].name), children[i])
    decreases children
  {
    var n := |children| - 1;
    var init, last := children[..n], children[n];
    assert WalkChildren(root, dir, children) == WalkChildren(root, dir, init) + Walk(root, Join(dir, last.name), last);
    if r in WalkChildren(root, dir, init) {
      WalkChildrenMemberSound(root, dir, init, r);
      var i :| 0 <= i < n && r in Walk(root, Join(dir, init[i].name), init[i]);
      assert init[i] == children[i];
    }
  }

  lemma {:induction false} WalkChildrenMemberComplete(root: string, dir: string, children: seq<Entry>, i: nat, r: FileInfo)
    requires i < |children| && r in Walk(root, Join(dir, children[i].name), children[i])
    ensures r in WalkChildren(root, dir, children)
    decreases children
  {
    var n := |children| - 1;
    var init, last := children[..n], children[n];
    if i < n {
      assert init[i] == children[i];
      WalkChildrenMemberComplete(root, dir, init, i, r);
    } else {
      assert last == children[i];
    }
  }

  /** Each record of the walk comes from a readable code file the walk visits. */
  lemma {:induction false} WalkSound(root: string, path: string, e: Entry, r: FileInfo)
    requires r in Walk(root, path, e)
    ensures exists p, f :: Reaches(root, path, e, p, f) && RecordOf(p, f, r)
    decreases e
  {
    match e
    case File(_, _) =>
      assert Reaches(root, path, e, path, e);
    case Dir(name, children, _) =>
      WalkChildrenMember(root, path, children, r);
      var i :| 0 <= i < |children| && r in Walk(root, Join(path, children[i].name), children[i]);
      var c := children[i];
      WalkSound(root, Join(path, c.name), c, r);
      var p, f :| Reaches(root, Join(path, c.name), c, p, f) && RecordOf(p, f, r);
      assert Reaches(root, path, e, p, f);
  }

  /** Each readable code file the walk visits is reported, whatever its siblings do. */
  lemma {:induction false} WalkComplete(root: string, path: string, e: Entry, p: string, f: Entry, r: FileInfo)
    requires Reaches(root, path, e, p, f) && RecordOf(p, f, r)
    ensures r in Walk(root, path, e)
    decreases e
  {
    match e
    case File(_, _) =>
    case Dir(name, children, _) =>
      var i :| 0 <= i < |children| && Reaches(root, Join(path, children[i].name), children[i], p, f);
      var c := children[i];
      WalkComplete(root, Join(path, c.name), c, p, f, r);
      WalkChildrenMember(root, path, children, r);
  }

  /** `c` is a direct file child of `dir` that is code and can be read, and `r` is its record. */
  predicate ShallowSource(dir: string, c: Entry, r: FileInfo) {
    c.File? && IsCodeFile(c.name) && c.state.Readable?
    && r == FileInfo(Join(dir, c.name), LineCount(c.state.data))
  }

  /**
   * The shallow listing reports exactly the direct file children that are
   * code and can be read: nothing below a subdirectory, and a file whose
   * count fails does not stop the others from being reported.
   */
  lemma ShallowRecords(dir: string, children: seq<Entry>, r: FileInfo)
    ensures r in Shallow(dir, children) <==> exists i :: 0 <= i < |children| && ShallowSource(dir, children[i], r)
  {
    if r in Shallow(dir, children) {
      ShallowRecordsSound(dir, children, r);
    }
    if i :| 0 <= i < |children| && ShallowSource(dir, children[i], r) {
      ShallowRecordsComplete(dir, children, i, r);
    }
  }

  /** Each record of the listing has a source among the direct children. */
  lemma {:induction false} ShallowRecordsSound(dir: string, children: seq<Entry>, r: FileInfo)
    requires r in Shallow(dir, children)
    ensures exists i :: 0 <= i < |children| && ShallowSource(dir, children[i], r)
  {
    var n := |children| - 1;
    var init, last := children[..n], children[n];
    assert Shallow(dir, children) == Shallow(dir, init) + (if last.File? then FileRecord(Join(dir, last.name), last.name, last.state) else []);
    if r in Shallow(dir, init) {
      ShallowRecordsSound(dir, init, r);
      var i :| 0 <= i < n && ShallowSource(dir, init[i], r);
      assert children[i] == init[i];
    } else {
      assert ShallowSource(dir, children[n], r);
    }
  }

  /** Each direct child that is a readable code file is reported. */
  lemma {:induction false} ShallowRecordsComplete(dir: string, children: seq<Entry>, i: nat, r: FileInfo)
    requires i < |children| && ShallowSource(dir, children[i], r)
    ensures r in Shallow(dir, children)
  {
    var n := |children| - 1;
    var init, last := children[..n], children[n];
    if i < n {
      assert init[i] == children[i];
      ShallowRecordsComplete(dir, init, i, r);
    } else {
      assert last == children[i];
      assert r in FileRecord(Join(dir, last.name), last.name, last.state);
    }
  }

  /**
   * Every record of the shallow listing of a directory is also a record of
   * its recursive scan, as many times over.
   */
  lemma {:induction false} ShallowWithinRecursive(dirPath: string, children: seq<Entry>)
    ensures multiset(Shallow(dirPath, children)) <= multiset(WalkChildren(dirPath, dirPath, children))
  {
    if children != [] {
      var n := |children| - 1;
      ShallowWithinRecursive(dirPath, children[..n]);
    }
  }

  // ---------------------------------------------------------------------
  // One record per file

  /** No two entries of any directory below `e` share a name, as a directory listing guarantees. */
  predicate DistinctNames(e: Entry)
    decreases e
  {
    e.Dir? ==>
      (forall i, j :: 0 <= i < j < |e.children| ==> e.children[i].name != e.children[j].name)
      && forall i :: 0 <= i < |e.children| ==> DistinctNames(e.children[i])
  }

  /** No two records carry the same path. */
  predicate DistinctPaths(s: seq<FileInfo>) {
    forall i, j :: 0 <= i < j < |s| ==> s[i].path != s[j].path
  }

  /** What `Join` puts in front of a name. */
  function JoinPrefix(dir: string): string {
    if dir == "" || dir == "." then "" else if dir[|dir| - 1] == '/' then dir else dir + "/"
  }

  lemma JoinIsPrefixed(dir: string, name: string)
    ensures Join(dir, name) == JoinPrefix(dir) + name
  {
  }

  /** Distinct names joined onto the same directory give distinct paths. */
  lemma JoinDistinct(dir: string, a: string, b: string)
    requires a != b
    ensures Join(dir, a) != Join(dir, b)
  {
    var pre := JoinPrefix(dir);
    JoinIsPrefixed(dir, a);
    JoinIsPrefixed(dir, b);
    assert (pre + a)[|pre|..] == a && (pre + b)[|pre|..] == b;
  }

  /** A path the walk builds below the root: not empty, not ".", and not ending in a separator. */
  predicate Plain(q: string) {
    q != "" && q != "." && q[|q| - 1] != '/'
  }

  /** `p` is `q` or a path inside the directory `q`. */
  predicate Extends(q: string, p: string) {
    p == q || (|p| > |q| && p[..|q|] == q && p[|q|] == '/')
  }

  lemma JoinPlain(dir: string, name: string)
    requires ValidName(name)
    ensures Plain(Join(dir, name))
    ensures Plain(dir) ==> Join(dir, name) == dir + "/" + name
  {
    var j := Join(dir, name);
    JoinIsPrefixed(dir, name);
    assert j[|j| - 1] == name[|name| - 1];
  }

  lemma ExtendsJoin(q: string, c: string, p: string)
    requires Extends(q + "/" + c, p)
    ensures Extends(q, p)
  {
    var qc := q + "/" + c;
    assert qc[..|q|] == q && qc[|q|] == '/';
    if p != qc {
      assert p[..|qc|][..|q|] == p[..|q|];
    }
  }

  /** Every record of the walk of `e` found at a plain path `q` has a path in `q` or inside it. */
  lemma {:induction false} WalkPathsExtend(root: string, q: string, e: Entry)
    requires ValidEntry(e) && Plain(q)
    ensures forall r :: r in Walk(root, q, e) ==> Extends(q, r.path)
    decreases e
  {
    forall r | r in Walk(root, q, e)
      ensures Extends(q, r.path)
    {
      if e.Dir? {
        WalkChildrenMember(root, q, e.children, r);
        var i :| 0 <= i < |e.children| && r in Walk(root, Join(q, e.children[i].name), e.children[i]);
        var c := e.children[i];
        JoinPlain(q, c.name);
        WalkPathsExtend(root, Join(q, c.name), c);
        ExtendsJoin(q, c.name, r.path);
      }
    }
  }

  /** Two names without a separator that a path starts with, after the same prefix, are the same name. */
  lemma ExtendsSameName(pre: string, a: string, b: string, p: string)
    requires '/' !in a && '/' !in b
    requires Extends(pre + a, p) && Extends(pre + b, p)
    ensures a == b
  {
    var n := |pre|;
    assert p[..n + |a|] == pre + a && p[..n + |b|] == pre + b;
    if |a| == |b| {
      assert a == (pre + a)[n..] == (pre + b)[n..] == b;
    }
  }

  lemma DistinctPathsConcat(a: seq<FileInfo>, b: seq<FileInfo>)
    requires DistinctPaths(a) && DistinctPaths(b)
    requires forall x, y :: x in a && y in b ==> x.path != y.path
    ensures DistinctPaths(a + b)
  {
    var s := a + b;
    forall i, j | 0 <= i < j < |s|
      ensures s[i].path != s[j].path
    {
      if j >= |a| && i < |a| {
        assert s[i] in a && s[j] == b[j - |a|];
      } else if i >= |a| {
        assert s[i] == b[i - |a|] && s[j] == b[j - |a|];
      }
    }
  }

  /**
   * In a tree whose directories list valid, distinct names, the recursive
   * walk records each file at most once: no two records share a path.
   */
  lemma {:induction false} WalkPathsDistinct(root: string, path: string, e: Entry)
    requires ValidEntry(e) && DistinctNames(e)
    ensures DistinctPaths(Walk(root, path, e))
    decreases e
  {
    if e.Dir? && !(IsHidden(e.name) && path != root) {
      WalkChildrenPathsDistinct(root, path, e.children);
    }
  }

  lemma {:induction false} WalkChildrenPathsDistinct(root: string, dir: string, children: seq<Entry>)
    requires forall i :: 0 <= i < |children| ==>
      ValidName(children[i].name) && ValidEntry(children[i]) && DistinctNames(children[i])
    requires forall i, j :: 0 <= i < j < |children| ==> children[i].name != children[j].name
    ensures DistinctPaths(WalkChildren(root, dir, children))
    decreases children
  {
    if children != [] {
      var n := |children| - 1;
      var init, last := children[..n], children[n];
      var front, back := WalkChildren(root, dir, init), Walk(root, Join(dir, last.name), last);
      WalkChildrenPathsDistinct(root, dir, init);
      WalkPathsDistinct(root, Join(dir, last.name), last);
      JoinPlain(dir, last.name);
      WalkPathsExtend(root, Join(dir, last.name), last);
      JoinIsPrefixed(dir, last.name);
      forall x, y | x in front && y in back
        ensures x.path != y.path
      {
        WalkChildrenMemberSound(root, dir, init, x);
        var k :| 0 <= k < n && x in Walk(root, Join(dir, init[k].name), init[k]);
        var c := init[k];
        assert c == children[k];
        JoinPlain(dir, c.name);
        WalkPathsExtend(root, Join(dir, c.name), c);
        JoinIsPrefixed(dir, c.name);
        if x.path == y.path {
          ExtendsSameName(JoinPrefix(dir), c.name, last.name, x.path);
        }
      }
      DistinctPathsConcat(front, back);
    }
  }

  /** The shallow listing of distinctly named entries records each file at most once. */
  lemma {:induction false} ShallowPathsDistinct(dir: string, children: seq<Entry>)
    requires forall i, j :: 0 <= i < j < |children| ==> children[i].name != children[j].name
    ensures DistinctPaths(Shallow(dir, children))
  {
    if children != [] {
      var n := |children| - 1;
      var init, last := children[..n], children[n];
      var front := Shallow(dir, init);
      var back := if last.File? then FileRecord(Join(dir, last.name), last.name, last.state) else [];
      assert Shallow(dir, children) == front + back;
      ShallowPathsDistinct(dir, init);
      forall x, y | x in front && y in back
        ensures x.path != y.path
      {
        ShallowRecordsSound(dir, init, x);
        var k :| 0 <= k < n && ShallowSource(dir, init[k], x);
        assert init[k] == children[k];
        JoinDistinct(dir, init[k].name, last.name);
      }
      DistinctPathsConcat(front, back);
    }
  }

  /** A listing whose paths are distinct holds each record at most once. */
  lemma {:induction false} DistinctPathsAtMostOnce(s: seq<FileInfo>, r: FileInfo)
    requires DistinctPaths(s)
    ensures multiset(s)[r] <= 1
  {
    if s != [] {
      var n := |s| - 1;
      assert s == s[..n] + [s[n]];
      DistinctPathsAtMostOnce(s[..n], r);
      if r == s[n] {
        assert r !in s[..n];
      }
    }
  }

  /**
   * In a tree whose directories list distinct valid names, the recursive
   * walk holds a record exactly once when it is the record of a readable
   * code file the walk visits, and not at all otherwise; so the file count
   * of the report is the number of such files.
   */
  lemma RecursiveRecordsOnce(root: string, path: string, e: Entry, r: FileInfo)
    requires ValidEntry(e) && DistinctNames(e)
    ensures multiset(Walk(root, path, e))[r] ==
      if exists p, f :: Reaches(root, path, e, p, f) && RecordOf(p, f, r) then 1 else 0
  {
    RecursiveRecords(root, path, e, r);
    WalkPathsDistinct(root, path, e);
    DistinctPathsAtMostOnce(Walk(root, path, e), r);
  }

  /** With distinct entry names, the shallow listing holds the record of each direct readable code file exactly once. */
  lemma ShallowRecordsOnce(dir: string, children: seq<Entry>, r: FileInfo)
    requires forall i, j :: 0 <= i < j < |children| ==> children[i].name != children[j].name
    ensures multiset(Shallow(dir, children))[r] ==
      if exists i :: 0 <= i < |children| && ShallowSource(dir, children[i], r) then 1 else 0
  {
    ShallowRecords(dir, children, r);
    ShallowPathsDistinct(dir, children);
    DistinctPathsAtMostOnce(Shallow(dir, children), r);
  }
}
