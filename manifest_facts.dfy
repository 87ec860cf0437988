/**
 * What the statistics of build-manifest.js say about the manifest it builds:
 * the folder total is the number of nodes, the hidden-folder total the number
 * of hidden links at every depth, the file total at least the number of file
 * links; the histograms stay well formed; the folder links keep the order
 * of `folders.json`, dropping the entries whose directory is missing; and the
 * file links are the entries of `files.json` one for one, in order.
 */
module ManifestFacts {
  import opened Maybe
  import opened Tags
  import opened Fs
  import opened ManifestBuilder

  // ---------------------------------------------------------------------------
  // Measures of a manifest

  /** The nodes of the manifest: this one and those below its links. */
  function NodeCount(n: Node): nat
    decreases n, 1
  {
    1 + NodesFrom(n, 0)
  }

  /** The nodes below the links of `n` from the `k`-th on. */
  function NodesFrom(n: Node, k: nat): nat
    requires k <= |n.folders|
    decreases n, 0, |n.folders| - k
  {
    if k == |n.folders| then 0
    else
      assert n.folders[k] in n.folders;
      NodeCount(n.folders[k].sub) + NodesFrom(n, k + 1)
  }

  /** The folder links, at any depth, whose folder is hidden. */
  function HiddenCount(n: Node): nat
    decreases n, 1
  {
    HiddenFrom(n, 0)
  }

  function HiddenFrom(n: Node, k: nat): nat
    requires k <= |n.folders|
    decreases n, 0, |n.folders| - k
  {
    if k == |n.folders| then 0
    else
      assert n.folders[k] in n.folders;
      (if n.folders[k].parsed.hiddenLevel > 0 then 1 else 0) + HiddenCount(n.folders[k].sub) + HiddenFrom(n, k + 1)
  }

  /** The file links, at any depth. */
  function FileCount(n: Node): nat
    decreases n, 1
  {
    |n.files| + FilesFrom(n, 0)
  }

  function FilesFrom(n: Node, k: nat): nat
    requires k <= |n.folders|
    decreases n, 0, |n.folders| - k
  {
    if k == |n.folders| then 0
    else
      assert n.folders[k] in n.folders;
      FileCount(n.folders[k].sub) + FilesFrom(n, k + 1)
  }

  /** The same measures of a list of links, read as the links of a node. */
  function LinksNodeCount(links: seq<FolderLink>): nat {
    NodesFrom(Node("", links, []), 0)
  }

  function LinksHiddenCount(links: seq<FolderLink>): nat {
    HiddenFrom(Node("", links, []), 0)
  }

  function LinksFileCount(links: seq<FolderLink>): nat {
    FilesFrom(Node("", links, []), 0)
  }

  /** The measures from the `k`-th link on depend only on the links from there. */
  lemma {:induction false} FromShift(n: Node, k: nat, m: Node, j: nat)
    requires k <= |n.folders| && j <= |m.folders|
    requires n.folders[k..] == m.folders[j..]
    ensures NodesFrom(n, k) == NodesFrom(m, j)
    ensures HiddenFrom(n, k) == HiddenFrom(m, j)
    ensures FilesFrom(n, k) == FilesFrom(m, j)
    decreases |n.folders| - k
  {
    if k < |n.folders| {
      assert n.folders[k] == n.folders[k..][0] == m.folders[j..][0] == m.folders[j];
      assert n.folders[k + 1..] == n.folders[k..][1..] == m.folders[j..][1..] == m.folders[j + 1..];
      FromShift(n, k + 1, m, j + 1);
    }
  }

  lemma LinksAppend(a: seq<FolderLink>, l: FolderLink)
    ensures LinksNodeCount([l] + a) == NodeCount(l.sub) + LinksNodeCount(a)
    ensures LinksHiddenCount([l] + a) == (if l.parsed.hiddenLevel > 0 then 1 else 0) + HiddenCount(l.sub) + LinksHiddenCount(a)
    ensures LinksFileCount([l] + a) == FileCount(l.sub) + LinksFileCount(a)
  {
    var n := Node("", [l] + a, []);
    assert n.folders[0] == l;
    FromShift(n, 1, Node("", a, []), 0);
  }

  // ---------------------------------------------------------------------------
  // The totals agree with the manifest

  /** The folder and hidden-folder totals grow by exactly what the node holds;
      the file total by at least its file links (entries of a `files.json`
      that throws are counted but not linked). */
  lemma {:induction false} ScanNodeCounts(d: Dir, name: string, c: Counts, pf: Entry -> FolderInfo, pl: Entry -> FileInfo)
    requires Shaped(c)
    ensures ScanNode(d, name, c, pf, pl).1.folders == c.folders + NodeCount(ScanNode(d, name, c, pf, pl).0)
    ensures ScanNode(d, name, c, pf, pl).1.hiddenFolders.total ==
              c.hiddenFolders.total + HiddenCount(ScanNode(d, name, c, pf, pl).0)
    ensures ScanNode(d, name, c, pf, pl).1.files >= c.files + FileCount(ScanNode(d, name, c, pf, pl).0)
    decreases d, 1, 0
  {
    var visited := c.(folders := c.folders + 1);
    var items := Descriptor(d, "folders.json");
    ScanFoldersCounts(d, items, visited, pf, pl);
    var fs := ScanFolders(d, items, visited, pf, pl);
    ScanFilesCounts(Descriptor(d, "files.json"), fs.1, pl);
    FromShift(ScanNode(d, name, c, pf, pl).0, 0, Node("", fs.0, []), 0);
  }

  lemma {:induction false} ScanFoldersCounts(d: Dir, items: seq<Item>, c: Counts, pf: Entry -> FolderInfo, pl: Entry -> FileInfo)
    requires Shaped(c)
    ensures ScanFolders(d, items, c, pf, pl).1.folders == c.folders + LinksNodeCount(ScanFolders(d, items, c, pf, pl).0)
    ensures ScanFolders(d, items, c, pf, pl).1.hiddenFolders.total ==
              c.hiddenFolders.total + LinksHiddenCount(ScanFolders(d, items, c, pf, pl).0)
    ensures ScanFolders(d, items, c, pf, pl).1.files >= c.files + LinksFileCount(ScanFolders(d, items, c, pf, pl).0)
    decreases d, 0, |items|
  {
    if items != [] && items[0].Value? {
      var e := items[0].entry;
      var parsed := pf(e);
      match LookupDir(d, parsed.name)
      case None =>
        ScanFoldersCounts(d, items[1..], c, pf, pl);
      case Some(i) =>
        var c1 := WithFolder(c, parsed);
        var sub := ScanNode(d.entries[i].kind.dir, parsed.name, c1, pf, pl);
        ScanNodeCounts(d.entries[i].kind.dir, parsed.name, c1, pf, pl);
        ScanFoldersCounts(d, items[1..], sub.1, pf, pl);
        var rest := ScanFolders(d, items[1..], sub.1, pf, pl);
        LinksAppend(rest.0, FolderLink(e, parsed, sub.0));
    }
  }

  /** Counting files touches only the file total and the file histograms,
      and adds one to the total per entry mapped. */
  lemma {:induction false} ScanFilesCounts(items: seq<Item>, c: Counts, pl: Entry -> FileInfo)
    requires Shaped(c)
    ensures ScanFiles(items, c, pl).1.files == c.files + |ScanFiles(items, c, pl).0|
    ensures ScanFiles(items, c, pl).1.folders == c.folders
    ensures ScanFiles(items, c, pl).1.hiddenFolders == c.hiddenFolders
  {
    if items != [] && items[0].Value? {
      ScanFilesCounts(items[1..], WithFile(c, pl(items[0].entry)), pl);
    }
  }

  // ---------------------------------------------------------------------------
  // The statistics stay well formed

  lemma WithFileWellFormed(c: Counts, f: FileInfo)
    requires WellFormedCounts(c)
    ensures WellFormedCounts(WithFile(c, f))
  {
    if f.hiddenLevel > 0 {
      AddKeepsWellFormed(c.hiddenFiles, f.hiddenLevel);
    }
    if f.lockedLevel > 0 {
      AddKeepsWellFormed(c.lockedFiles, f.lockedLevel);
    }
    var ext := Extension(f.name);
    if ext in c.fileTypes {
      assert c.fileTypes[ext := c.fileTypes[ext] + 1].Keys == c.fileTypes.Keys;
    }
  }

  lemma WithFolderWellFormed(c: Counts, f: FolderInfo)
    requires WellFormedCounts(c)
    ensures WellFormedCounts(WithFolder(c, f))
  {
    if f.hiddenLevel > 0 {
      AddKeepsWellFormed(c.hiddenFolders, f.hiddenLevel);
    }
  }

  /** Every histogram keeps its total equal to the sum of its buckets, with
      bucket 0 empty, and the tracked file types stay the four keys. */
  lemma {:induction false} ScanNodeWellFormed(d: Dir, name: string, c: Counts, pf: Entry -> FolderInfo, pl: Entry -> FileInfo)
    requires WellFormedCounts(c)
    ensures WellFormedCounts(ScanNode(d, name, c, pf, pl).1)
    decreases d, 1, 0
  {
    var visited := c.(folders := c.folders + 1);
    var items := Descriptor(d, "folders.json");
    ScanFoldersWellFormed(d, items, visited, pf, pl);
    ScanFilesWellFormed(Descriptor(d, "files.json"), ScanFolders(d, items, visited, pf, pl).1, pl);
  }

  lemma {:induction false} ScanFoldersWellFormed(d: Dir, items: seq<Item>, c: Counts, pf: Entry -> FolderInfo, pl: Entry -> FileInfo)
    requires WellFormedCounts(c)
    ensures WellFormedCounts(ScanFolders(d, items, c, pf, pl).1)
    decreases d, 0, |items|
  {
    if items != [] && items[0].Value? {
      var parsed := pf(items[0].entry);
      match LookupDir(d, parsed.name)
      case None =>
        ScanFoldersWellFormed(d, items[1..], c, pf, pl);
      case Some(i) =>
        WithFolderWellFormed(c, parsed);
        var c1 := WithFolder(c, parsed);
        ScanNodeWellFormed(d.entries[i].kind.dir, parsed.name, c1, pf, pl);
        ScanFoldersWellFormed(d, items[1..], ScanNode(d.entries[i].kind.dir, parsed.name, c1, pf, pl).1, pf, pl);
    }
  }

  lemma {:induction false} ScanFilesWellFormed(items: seq<Item>, c: Counts, pl: Entry -> FileInfo)
    requires WellFormedCounts(c)
    ensures WellFormedCounts(ScanFiles(items, c, pl).1)
  {
    if items != [] && items[0].Value? {
      WithFileWellFormed(c, pl(items[0].entry));
      ScanFilesWellFormed(items[1..], WithFile(c, pl(items[0].entry)), pl);
    }
  }

  // ---------------------------------------------------------------------------
  // Folder links follow folders.json

  /** The entries of `folders.json` that become links: those before the first
      `null` whose parsed name is an existing subdirectory, in file order. */
  function KeptEntries(d: Dir, items: seq<Item>, pf: Entry -> FolderInfo): seq<Entry> {
    if items == [] || items[0].NullItem? then []
    else if LookupDir(d, pf(items[0].entry).name).Some? then [items[0].entry] + KeptEntries(d, items[1..], pf)
    else KeptEntries(d, items[1..], pf)
  }

  function Originals(links: seq<FolderLink>): seq<Entry> {
    if links == [] then [] else [links[0].original] + Originals(links[1..])
  }

  /** The links are the kept entries in the same order, each parsed by the
      folder parser and naming a directory that exists; nothing is sorted. */
  lemma {:induction false} ScanFoldersOrder(d: Dir, items: seq<Item>, c: Counts, pf: Entry -> FolderInfo, pl: Entry -> FileInfo)
    requires Shaped(c)
    ensures Originals(ScanFolders(d, items, c, pf, pl).0) == KeptEntries(d, items, pf)
    ensures forall k :: 0 <= k < |ScanFolders(d, items, c, pf, pl).0| ==>
              ScanFolders(d, items, c, pf, pl).0[k].parsed == pf(ScanFolders(d, items, c, pf, pl).0[k].original)
              && LookupDir(d, ScanFolders(d, items, c, pf, pl).0[k].parsed.name).Some?
    decreases |items|
  {
    if items != [] && items[0].Value? {
      var e := items[0].entry;
      var parsed := pf(e);
      match LookupDir(d, parsed.name)
      case None =>
        ScanFoldersOrder(d, items[1..], c, pf, pl);
      case Some(i) =>
        var sub := ScanNode(d.entries[i].kind.dir, parsed.name, WithFolder(c, parsed), pf, pl);
        ScanFoldersOrder(d, items[1..], sub.1, pf, pl);
        var rest := ScanFolders(d, items[1..], sub.1, pf, pl).0;
        var links := [FolderLink(e, parsed, sub.0)] + rest;
        assert links[1..] == rest;
        forall k | 0 <= k < |links|
          ensures links[k].parsed == pf(links[k].original) && LookupDir(d, links[k].parsed.name).Some?
        {
          if k > 0 {
            assert links[k] == rest[k - 1];
          }
        }
    }
  }

  // ---------------------------------------------------------------------------
  // File links follow files.json

  /** The entries of `files.json` before the first `null`, in file order. */
  function LeadingEntries(items: seq<Item>): seq<Entry> {
    if items == [] || items[0].NullItem? then [] else [items[0].entry] + LeadingEntries(items[1..])
  }

  function FileOriginals(links: seq<FileLink>): seq<Entry> {
    if links == [] then [] else [links[0].original] + FileOriginals(links[1..])
  }

  /** The file links are the entries of `files.json` one for one and in the
      same order, each parsed by the file parser; the list is complete
      exactly when `files.json` holds no `null`. */
  lemma {:induction false} ScanFilesOrder(items: seq<Item>, c: Counts, pl: Entry -> FileInfo)
    requires Shaped(c)
    ensures FileOriginals(ScanFiles(items, c, pl).0) == LeadingEntries(items)
    ensures forall k :: 0 <= k < |ScanFiles(items, c, pl).0| ==>
              ScanFiles(items, c, pl).0[k].parsed == pl(ScanFiles(items, c, pl).0[k].original)
    ensures ScanFiles(items, c, pl).2 <==> NullItem !in items
    decreases |items|
  {
    if items != [] && items[0].Value? {
      var e := items[0].entry;
      ScanFilesOrder(items[1..], WithFile(c, pl(e)), pl);
      var rest := ScanFiles(items[1..], WithFile(c, pl(e)), pl).0;
      var links := [FileLink(e, pl(e))] + rest;
      assert links[1..] == rest;
      assert items == [items[0]] + items[1..];
      forall k | 0 <= k < |links|
        ensures links[k].parsed == pl(links[k].original)
      {
        if k > 0 {
          assert links[k] == rest[k - 1];
        }
      }
    }
  }
}
