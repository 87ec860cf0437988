/**
 * tools/build-manifest.js: the manifest built from the directory tree alone,
 * without descriptors. Dot-named entries are skipped, subdirectories become
 * nested nodes sorted by `localeCompare`, regular files become their names
 * sorted by the default `sort()`, and any other kind of entry is ignored.
 */
module PlainManifest {
  import opened Maybe
  import opened Text
  import opened Fs
  import opened Sorting

  datatype PlainNode = PlainNode(name: string, folders: seq<PlainNode>, files: seq<string>)

  /** `e.name.startsWith('.')` */
  predicate Hidden(name: string) {
    StartsWith(name, ".")
  }

  /** The comparator handed to `folders.sort`: `a` may stay before `b` when
      `localeCompare(a.name, b.name) <= 0`. */
  function FolderOrder(localeCompare: (string, string) -> int): (PlainNode, PlainNode) -> bool {
    (a: PlainNode, b: PlainNode) => localeCompare(a.name, b.name) <= 0
  }

  /** A comparator that orders consistently: any two names compare one way or
      the other, and `<= 0` is transitive. */
  ghost predicate Consistent(localeCompare: (string, string) -> int) {
    && (forall a, b :: localeCompare(a, b) <= 0 || localeCompare(b, a) <= 0)
    && (forall a, b, c :: localeCompare(a, b) <= 0 && localeCompare(b, c) <= 0 ==> localeCompare(a, c) <= 0)
  }

  /** The node scanDir returns for directory `d` called `name`. */
  function PlainScan(d: Dir, name: string, localeCompare: (string, string) -> int): PlainNode
    decreases d, 1, 0
  {
    var (folders, files) := Collect(d, localeCompare, |d.entries|);
    PlainNode(name, SortBy(folders, FolderOrder(localeCompare)), SortBy(files, CodeUnitOrder))
  }

  /** What the loop of scanDir has gathered after the first `n` entries,
      before sorting. */
  function Collect(d: Dir, localeCompare: (string, string) -> int, n: nat): (seq<PlainNode>, seq<string>)
    requires n <= |d.entries|
    decreases d, 0, n
  {
    if n == 0 then ([], [])
    else
      var (folders, files) := Collect(d, localeCompare, n - 1);
      var e := d.entries[n - 1];
      if Hidden(e.name) then (folders, files)
      else if e.kind.Subdir? then (folders + [PlainScan(e.kind.dir, e.name, localeCompare)], files)
      else if e.kind.RegularFile? then (folders, files + [e.name])
      else (folders, files)
  }

  /** scanDir(dir) */
  method ScanDir(d: Dir, name: string, localeCompare: (string, string) -> int) returns (res: PlainNode)
    ensures res == PlainScan(d, name, localeCompare)
    decreases d
  {
    var folders: seq<PlainNode> := [];
    var files: seq<string> := [];
    var i := 0;
    while i < |d.entries|
      invariant 0 <= i <= |d.entries|
      invariant (folders, files) == Collect(d, localeCompare, i)
    {
      var e := d.entries[i];
      if Hidden(e.name) {
      } else if e.kind.Subdir? {
        var sub := ScanDir(e.kind.dir, e.name, localeCompare);
        folders := folders + [sub];
      } else if e.kind.RegularFile? {
        files := files + [e.name];
      }
      i := i + 1;
    }
    folders := SortBy(folders, FolderOrder(localeCompare));
    files := SortBy(files, CodeUnitOrder);
    res := PlainNode(name, folders, files);
  }

  /** main(): the root `db` directory must exist. */
  method Build(db: Option<Dir>, localeCompare: (string, string) -> int) returns (r: Option<PlainNode>)
    ensures db.None? ==> r.None?
    ensures db.Some? ==> r == Some(PlainScan(db.value, "db", localeCompare))
  {
    if db.None? {
      return None;
    }
    var manifest := ScanDir(db.value, "db", localeCompare);
    return Some(manifest);
  }

  // ---------------------------------------------------------------------------
  // Reference definitions: which entries of a directory are kept

  /** The names of the regular files not starting with a dot, in directory order. */
  function VisibleFiles(entries: seq<DirEntry>): (names: seq<string>)
    ensures forall k :: 0 <= k < |names| ==> !Hidden(names[k])
  {
    if entries == [] then []
    else
      var rest := VisibleFiles(entries[..|entries| - 1]);
      var e := entries[|entries| - 1];
      if !Hidden(e.name) && e.kind.RegularFile? then rest + [e.name] else rest
  }

  /** The subdirectories not starting with a dot, in directory order. */
  function VisibleSubdirs(entries: seq<DirEntry>): (subs: seq<DirEntry>)
    ensures forall k :: 0 <= k < |subs| ==> !Hidden(subs[k].name) && subs[k].kind.Subdir?
  {
    if entries == [] then []
    else
      var rest := VisibleSubdirs(entries[..|entries| - 1]);
      var e := entries[|entries| - 1];
      if !Hidden(e.name) && e.kind.Subdir? then rest + [e] else rest
  }

  /** The loop keeps exactly the visible regular files and visits exactly the
      visible subdirectories, in directory order. */
  lemma {:induction false} CollectKeeps(d: Dir, localeCompare: (string, string) -> int, n: nat)
    requires n <= |d.entries|
    ensures var (folders, files) := Collect(d, localeCompare, n);
            var subs := VisibleSubdirs(d.entries[..n]);
            && files == VisibleFiles(d.entries[..n])
            && |folders| == |subs|
            && forall k :: 0 <= k < |folders| ==> folders[k] == PlainScan(subs[k].kind.dir, subs[k].name, localeCompare)
  {
    if n > 0 {
      CollectKeeps(d, localeCompare, n - 1);
      assert d.entries[..n][..n - 1] == d.entries[..n - 1];
    }
  }

  /** The files of a node are the visible regular files of its directory,
      sorted by UTF-16 code units. */
  lemma PlainScanFiles(d: Dir, name: string, localeCompare: (string, string) -> int)
    ensures multiset(PlainScan(d, name, localeCompare).files) == multiset(VisibleFiles(d.entries))
    ensures Sorted(PlainScan(d, name, localeCompare).files, CodeUnitOrder)
  {
    var (folders, files) := Collect(d, localeCompare, |d.entries|);
    CollectKeeps(d, localeCompare, |d.entries|);
    assert d.entries[..|d.entries|] == d.entries;
    SortByPermutes(files, CodeUnitOrder);
    CodeUnitOrderTotalPreorder();
    SortBySorted(files, CodeUnitOrder);
  }

  /** The folders of a node are the scans of the visible subdirectories, as a
      multiset, sorted by a consistent `localeCompare`. */
  lemma PlainScanFolders(d: Dir, name: string, localeCompare: (string, string) -> int)
    ensures var folders := Collect(d, localeCompare, |d.entries|).0;
            multiset(PlainScan(d, name, localeCompare).folders) == multiset(folders)
    ensures Consistent(localeCompare) ==>
              Sorted(PlainScan(d, name, localeCompare).folders, FolderOrder(localeCompare))
  {
    var (folders, files) := Collect(d, localeCompare, |d.entries|);
    SortByPermutes(folders, FolderOrder(localeCompare));
    if Consistent(localeCompare) {
      var leq := FolderOrder(localeCompare);
      assert Total(leq) by {
        forall a: PlainNode, b: PlainNode ensures leq(a, b) || leq(b, a) {
          assert localeCompare(a.name, b.name) <= 0 || localeCompare(b.name, a.name) <= 0;
        }
      }
      assert Transitive(leq) by {
        forall a: PlainNode, b: PlainNode, c: PlainNode | leq(a, b) && leq(b, c) ensures leq(a, c) {
          assert localeCompare(a.name, b.name) <= 0 && localeCompare(b.name, c.name) <= 0;
        }
      }
      SortBySorted(folders, leq);
    }
  }

  // ---------------------------------------------------------------------------
  // No dot-named entry reaches the manifest, at any depth

  predicate FilesVisible(files: seq<string>) {
    forall k :: 0 <= k < |files| ==> !Hidden(files[k])
  }

  predicate FoldersVisible(folders: seq<PlainNode>) {
    forall k :: 0 <= k < |folders| ==> !Hidden(folders[k].name) && NoHiddenNames(folders[k])
  }

  predicate NoHiddenNames(node: PlainNode)
    decreases node, 0
  {
    && FilesVisible(node.files)
    && forall k :: 0 <= k < |node.folders| ==> !Hidden(node.folders[k].name) && NoHiddenNames(node.folders[k])
  }

  lemma FilesVisiblePermuted(a: seq<string>, b: seq<string>)
    requires multiset(a) == multiset(b) && FilesVisible(a)
    ensures FilesVisible(b)
  {
    forall k | 0 <= k < |b| ensures !Hidden(b[k]) {
      assert b[k] in multiset(a);
    }
  }

  lemma FoldersVisiblePermuted(a: seq<PlainNode>, b: seq<PlainNode>)
    requires multiset(a) == multiset(b) && FoldersVisible(a)
    ensures FoldersVisible(b)
  {
    forall k | 0 <= k < |b| ensures !Hidden(b[k].name) && NoHiddenNames(b[k]) {
      assert b[k] in multiset(a);
    }
  }

  /** No name starting with a dot appears anywhere in the manifest. */
  lemma {:induction false} PlainScanNoHidden(d: Dir, name: string, localeCompare: (string, string) -> int)
    ensures NoHiddenNames(PlainScan(d, name, localeCompare))
    decreases d, 1, 0
  {
    var (folders, files) := Collect(d, localeCompare, |d.entries|);
    CollectNoHidden(d, localeCompare, |d.entries|);
    SortByPermutes(folders, FolderOrder(localeCompare));
    SortByPermutes(files, CodeUnitOrder);
    FilesVisiblePermuted(files, SortBy(files, CodeUnitOrder));
    FoldersVisiblePermuted(folders, SortBy(folders, FolderOrder(localeCompare)));
  }

  lemma {:induction false} CollectNoHidden(d: Dir, localeCompare: (string, string) -> int, n: nat)
    requires n <= |d.entries|
    ensures FilesVisible(Collect(d, localeCompare, n).1)
    ensures FoldersVisible(Collect(d, localeCompare, n).0)
    decreases d, 0, n
  {
    if n > 0 {
      CollectNoHidden(d, localeCompare, n - 1);
      var e := d.entries[n - 1];
      if !Hidden(e.name) && e.kind.Subdir? {
        PlainScanNoHidden(e.kind.dir, e.name, localeCompare);
      }
      var folders := Collect(d, localeCompare, n - 1).0;
      var files := Collect(d, localeCompare, n - 1).1;
      var r := Collect(d, localeCompare, n);
      forall k | 0 <= k < |r.1| ensures !Hidden(r.1[k]) {
        if k < |files| {
          assert r.1[k] == files[k];
        }
      }
      forall k | 0 <= k < |r.0| ensures !Hidden(r.0[k].name) && NoHiddenNames(r.0[k]) {
        if k < |folders| {
          assert r.0[k] == folders[k];
        }
      }
    }
  }
}
