/**
 * build-manifest.js: walks the catalog directory, reading each folder's
 * `folders.json` and `files.json` descriptors, and builds the nested manifest
 * the browser loads, while counting folders, files, file types and hidden or
 * locked entries per level into one global statistics object.
 *
 * The scan is specified by pure functions that thread the statistics through
 * the walk as the source does (ScanNode, ScanFolders, ScanFiles); the method
 * ScanDir performs it on a `Stats` object and is proved to agree.
 */
module ManifestBuilder {
  import opened Maybe
  import opened Text
  import opened Tags
  import opened Fs

  // ---------------------------------------------------------------------------
  // The manifest

  datatype FolderLink = FolderLink(original: Entry, parsed: FolderInfo, sub: Node)
  datatype FileLink = FileLink(original: Entry, parsed: FileInfo)
  datatype Node = Node(name: string, folders: seq<FolderLink>, files: seq<FileLink>)

  // ---------------------------------------------------------------------------
  // The statistics, as values

  function Sum(s: seq<nat>): nat {
    if s == [] then 0 else s[0] + Sum(s[1..])
  }

  /** One `{ total, levels }` histogram: levels[i] counts entries of level i. */
  datatype Tally = Tally(total: nat, levels: seq<nat>) {
    /** Seven buckets, bucket 0 unused, and the total is their sum. */
    predicate WellFormed() {
      |levels| == 7 && levels[0] == 0 && total == Sum(levels)
    }

    /** `total++; levels[level]++` */
    function Add(level: nat): (t: Tally)
      requires 1 <= level < |levels|
      ensures |t.levels| == |levels|
    {
      Tally(total + 1, levels[level := levels[level] + 1])
    }
  }

  const EmptyTally := Tally(0, [0, 0, 0, 0, 0, 0, 0])

  /** The file types the statistics track, in report order. */
  const TrackedTypes: seq<string> := ["txt", "md", "png", "mp3"]

  datatype Counts = Counts(
    folders: nat,
    files: nat,
    fileTypes: map<string, nat>,
    hiddenFolders: Tally,
    hiddenFiles: Tally,
    lockedFiles: Tally)

  /** The three histograms have their seven buckets. */
  predicate Shaped(c: Counts) {
    |c.hiddenFolders.levels| == 7 && |c.hiddenFiles.levels| == 7 && |c.lockedFiles.levels| == 7
  }

  predicate WellFormedCounts(c: Counts) {
    && c.fileTypes.Keys == (set t | t in TrackedTypes)
    && c.hiddenFolders.WellFormed() && c.hiddenFiles.WellFormed() && c.lockedFiles.WellFormed()
  }

  /** The `stats` object as the script starts with it. */
  const InitialCounts := Counts(0, 0, map["txt" := 0, "md" := 0, "png" := 0, "mp3" := 0],
                                EmptyTally, EmptyTally, EmptyTally)

  /** `parsed.name.split('.').pop().toLowerCase()`: the text after the last dot,
      or the whole name when it has none. */
  function Extension(name: string): string {
    var pieces := Split(name, '.');
    Lower(pieces[|pieces| - 1])
  }

  /** What counting one file entry does to the statistics. */
  function WithFile(c: Counts, f: FileInfo): (r: Counts)
    requires Shaped(c)
    ensures Shaped(r)
  {
    var ext := Extension(f.name);
    c.(files := c.files + 1,
       fileTypes := if ext in c.fileTypes then c.fileTypes[ext := c.fileTypes[ext] + 1] else c.fileTypes,
       hiddenFiles := if f.hiddenLevel > 0 then c.hiddenFiles.Add(f.hiddenLevel) else c.hiddenFiles,
       lockedFiles := if f.lockedLevel > 0 then c.lockedFiles.Add(f.lockedLevel) else c.lockedFiles)
  }

  /** What finding an existing hidden subfolder does to the statistics. */
  function WithFolder(c: Counts, f: FolderInfo): (r: Counts)
    requires Shaped(c)
    ensures Shaped(r)
  {
    if f.hiddenLevel > 0 then c.(hiddenFolders := c.hiddenFolders.Add(f.hiddenLevel)) else c
  }

  // ---------------------------------------------------------------------------
  // The scan, as functions
  //
  // The scan is stated for any pair of label parsers; the build uses
  // parseFolder and parseFile of the tag language (Tags.ParseFolder and
  // Tags.ParseFile), and nothing the scan does depends on how they read a label.

  /** scanDir(dir) for directory `d` whose base name is `name`, starting from
      statistics `c`: the node built and the statistics afterwards. */
  function ScanNode(d: Dir, name: string, c: Counts, pf: Entry -> FolderInfo, pl: Entry -> FileInfo): (r: (Node, Counts))
    requires Shaped(c)
    ensures Shaped(r.1)
    decreases d, 1, 0
  {
    var visited := c.(folders := c.folders + 1);
    var folders := ScanFolders(d, Descriptor(d, "folders.json"), visited, pf, pl);
    var files := ScanFiles(Descriptor(d, "files.json"), folders.1, pl);
    (Node(name, folders.0, if files.2 then files.0 else []), files.1)
  }

  /** The `forEach` over the folder entries: an entry whose subdirectory
      exists is scanned and linked, others are dropped; a `null` entry throws,
      which keeps the links made so far and ends the loop. */
  function ScanFolders(d: Dir, items: seq<Item>, c: Counts, pf: Entry -> FolderInfo, pl: Entry -> FileInfo): (r: (seq<FolderLink>, Counts))
    requires Shaped(c)
    ensures Shaped(r.1)
    decreases d, 0, |items|
  {
    if items == [] then ([], c)
    else match items[0]
      case NullItem => ([], c)
      case Value(e) =>
        var parsed := pf(e);
        match LookupDir(d, parsed.name)
        case None => ScanFolders(d, items[1..], c, pf, pl)
        case Some(i) =>
          var sub := ScanNode(d.entries[i].kind.dir, parsed.name, WithFolder(c, parsed), pf, pl);
          var rest := ScanFolders(d, items[1..], sub.1, pf, pl);
          ([FolderLink(e, parsed, sub.0)] + rest.0, rest.1)
  }

  /** The `map` over the file entries: each entry is parsed and counted; a
      `null` entry throws, so the counts so far stay but the mapped list is
      never assigned (the flag is false). */
  function ScanFiles(items: seq<Item>, c: Counts, pl: Entry -> FileInfo): (r: (seq<FileLink>, Counts, bool))
    requires Shaped(c)
    ensures Shaped(r.1)
  {
    if items == [] then ([], c, true)
    else match items[0]
      case NullItem => ([], c, false)
      case Value(e) =>
        var parsed := pl(e);
        var rest := ScanFiles(items[1..], WithFile(c, parsed), pl);
        ([FileLink(e, parsed)] + rest.0, rest.1, rest.2)
  }

  // ---------------------------------------------------------------------------
  // The statistics, as the objects the script mutates

  /** The global `stats` object. Its three `{ total, levels }` histograms are
      records owned by it alone, so they are fields holding `Tally` values
      that the methods reassign. */
  class Stats {
    var totalFolders: nat
    var totalFiles: nat
    var fileTypes: map<string, nat>
    var hiddenFolders: Tally
    var hiddenFiles: Tally
    var lockedFiles: Tally

    /** The statistics as a value. */
    function Snapshot(): Counts
      reads this
    {
      Counts(totalFolders, totalFiles, fileTypes, hiddenFolders, hiddenFiles, lockedFiles)
    }

    /** Each histogram has its seven buckets. */
    ghost predicate Valid()
      reads this
    {
      Shaped(Snapshot())
    }

    constructor ()
      ensures Valid() && Snapshot() == InitialCounts
    {
      totalFolders := 0;
      totalFiles := 0;
      fileTypes := map["txt" := 0, "md" := 0, "png" := 0, "mp3" := 0];
      hiddenFolders := EmptyTally;
      hiddenFiles := EmptyTally;
      lockedFiles := EmptyTally;
    }

    /** `stats.totalFolders++` */
    method VisitFolder()
      requires Valid()
      modifies this
      ensures Valid() && Snapshot() == old(Snapshot()).(folders := old(Snapshot()).folders + 1)
    {
      totalFolders := totalFolders + 1;
    }

    /** The hidden-folder histogram update for an existing subfolder. */
    method CountFolder(f: FolderInfo)
      requires Valid()
      modifies this
      ensures Valid() && Snapshot() == WithFolder(old(Snapshot()), f)
    {
      if f.hiddenLevel > 0 {
        hiddenFolders := hiddenFolders.Add(f.hiddenLevel);
      }
    }

    /** The counting done for each file entry: the file total, its type when
        tracked, and the hidden and locked histograms. */
    method CountFile(f: FileInfo)
      requires Valid()
      modifies this
      ensures Valid() && Snapshot() == WithFile(old(Snapshot()), f)
    {
      var ext := Extension(f.name);
      var types := fileTypes;
      if ext in types {
        types := types[ext := types[ext] + 1];
      }
      var hidden := hiddenFiles;
      if f.hiddenLevel > 0 {
        hidden := hidden.Add(f.hiddenLevel);
      }
      var locked := lockedFiles;
      if f.lockedLevel > 0 {
        locked := locked.Add(f.lockedLevel);
      }
      totalFiles, fileTypes, hiddenFiles, lockedFiles := totalFiles + 1, types, hidden, locked;
    }
  }

  // ---------------------------------------------------------------------------
  // The scan, as the script performs it

  /** scanDir(dir): builds the node for `d` and updates `stats` on the way. */
  method ScanDir(stats: Stats, d: Dir, name: string, pf: Entry -> FolderInfo, pl: Entry -> FileInfo)
    returns (res: Node)
    requires stats.Valid()
    modifies stats
    ensures stats.Valid()
    ensures res == ScanNode(d, name, old(stats.Snapshot()), pf, pl).0
    ensures stats.Snapshot() == ScanNode(d, name, old(stats.Snapshot()), pf, pl).1
    decreases d, 1
  {
    stats.VisitFolder();
    var folders := ScanFolderEntries(stats, d, Descriptor(d, "folders.json"), pf, pl);
    var files, complete := ScanFileEntries(stats, Descriptor(d, "files.json"), pl);
    res := Node(name, folders, if complete then files else []);
  }

  /** The `forEach` over the entries of `folders.json`. */
  method ScanFolderEntries(stats: Stats, d: Dir, items: seq<Item>, pf: Entry -> FolderInfo, pl: Entry -> FileInfo)
    returns (folders: seq<FolderLink>)
    requires stats.Valid()
    modifies stats
    ensures stats.Valid()
    ensures folders == ScanFolders(d, items, old(stats.Snapshot()), pf, pl).0
    ensures stats.Snapshot() == ScanFolders(d, items, old(stats.Snapshot()), pf, pl).1
    decreases d, 0
  {
    ghost var start := stats.Snapshot();
    ghost var snap := start;
    folders := [];
    var i := 0;
    assert items[0..] == items;
    while i < |items|
      invariant 0 <= i <= |items| && stats.Valid()
      invariant snap == stats.Snapshot() && Shaped(snap)
      invariant ScanFolders(d, items, start, pf, pl).0 == folders + ScanFolders(d, items[i..], snap, pf, pl).0
      invariant ScanFolders(d, items, start, pf, pl).1 == ScanFolders(d, items[i..], snap, pf, pl).1
    {
      assert items[i..] == [items[i]] + items[i + 1..];
      if items[i].NullItem? {
        break;
      }
      var entry := items[i].entry;
      var parsed := pf(entry);
      match LookupDir(d, parsed.name) {
        case None =>
        case Some(k) =>
          stats.CountFolder(parsed);
          var sub := ScanDir(stats, d.entries[k].kind.dir, parsed.name, pf, pl);
          snap := stats.Snapshot();
          folders := folders + [FolderLink(entry, parsed, sub)];
      }
      i := i + 1;
    }
  }

  /** The `map` over the entries of `files.json`. When an entry throws,
      `complete` is false and `files` holds the entries mapped before it,
      which the script never assigns to the node. */
  method ScanFileEntries(stats: Stats, items: seq<Item>, pl: Entry -> FileInfo)
    returns (files: seq<FileLink>, complete: bool)
    requires stats.Valid()
    modifies stats
    ensures stats.Valid()
    ensures files == ScanFiles(items, old(stats.Snapshot()), pl).0
    ensures stats.Snapshot() == ScanFiles(items, old(stats.Snapshot()), pl).1
    ensures complete == ScanFiles(items, old(stats.Snapshot()), pl).2
  {
    ghost var start := stats.Snapshot();
    ghost var snap := start;
    files := [];
    complete := true;
    var j := 0;
    assert items[0..] == items;
    while j < |items|
      invariant 0 <= j <= |items| && stats.Valid() && complete
      invariant snap == stats.Snapshot() && Shaped(snap)
      invariant ScanFiles(items, start, pl).0 == files + ScanFiles(items[j..], snap, pl).0
      invariant ScanFiles(items, start, pl).1 == ScanFiles(items[j..], snap, pl).1
      invariant ScanFiles(items, start, pl).2 == ScanFiles(items[j..], snap, pl).2
    {
      assert items[j..] == [items[j]] + items[j + 1..];
      if items[j].NullItem? {
        complete := false;
        break;
      }
      var entry := items[j].entry;
      var parsed := pl(entry);
      stats.CountFile(parsed);
      snap := stats.Snapshot();
      files := files + [FileLink(entry, parsed)];
      j := j + 1;
    }
  }

  // ---------------------------------------------------------------------------
  // Histogram arithmetic

  lemma {:induction false} SumBump(s: seq<nat>, k: nat)
    requires k < |s|
    ensures Sum(s[k := s[k] + 1]) == Sum(s) + 1
  {
    if k > 0 {
      SumBump(s[1..], k - 1);
      assert s[k := s[k] + 1][1..] == s[1..][k - 1 := s[k] + 1];
    }
  }

  /** Adding an entry keeps a histogram well formed: the total stays the sum
      of the buckets, and bucket 0 stays empty. */
  lemma AddKeepsWellFormed(t: Tally, level: nat)
    requires t.WellFormed() && 1 <= level <= 6
    ensures t.Add(level).WellFormed()
    ensures t.Add(level).levels[level] == t.levels[level] + 1
    ensures forall i :: 0 <= i < 7 && i != level ==> t.Add(level).levels[i] == t.levels[i]
  {
    SumBump(t.levels, level);
  }
}
