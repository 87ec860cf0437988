/**
 * The browser's search: flattenManifest turns the loaded catalog into a flat
 * list of file entries, each with its `/`-joined path and its base name, and
 * performSearch keeps the entries whose base name equals the query, ignoring
 * case and surrounding whitespace.
 */
module SearchIndex {
  import opened Maybe
  import opened Text
  import opened Tags

  // ---------------------------------------------------------------------------
  // The index

  /** A catalog node as flattenManifest reads it: `{ name, folders, files }`,
      the files being raw descriptor entries. */
  datatype CatalogNode = CatalogNode(name: string, folders: seq<CatalogNode>, files: seq<Entry>)

  /** One element of `searchableFiles`. */
  datatype IndexEntry = IndexEntry(path: string, name: string, parsed: FileInfo, baseName: string)

  /** `name.split('.')[0]`: the text before the first dot. */
  function BaseName(name: string): string {
    Split(name, '.')[0]
  }

  /** `currentPath ? currentPath + '/' : ''` */
  function PathBase(currentPath: string): string {
    if currentPath == "" then "" else currentPath + "/"
  }

  /** The entry pushed for a file parsed as `parsed` in the folder whose
      path prefix is `base`. */
  function EntryFor(base: string, parsed: FileInfo): IndexEntry {
    IndexEntry(base + parsed.name, parsed.name, parsed, BaseName(parsed.name))
  }

  /** The entries for a node's files, in order. */
  function FileEntries(files: seq<Entry>, base: string, parse: Entry -> FileInfo): (r: seq<IndexEntry>)
    ensures |r| == |files|
  {
    if files == [] then []
    else FileEntries(files[..|files| - 1], base, parse) + [EntryFor(base, parse(files[|files| - 1]))]
  }

  /** flattenManifest(node, currentPath): the entries it appends. */
  function Flatten(node: CatalogNode, currentPath: string, parse: Entry -> FileInfo): seq<IndexEntry>
    decreases node, 1
  {
    var base := PathBase(currentPath);
    FileEntries(node.files, base, parse) + FolderEntries(node, base, |node.folders|, parse)
  }

  /** The entries of the first `k` subfolders of `node`, each flattened with
      the path `base + name`. */
  function FolderEntries(node: CatalogNode, base: string, k: nat, parse: Entry -> FileInfo): seq<IndexEntry>
    requires k <= |node.folders|
    decreases node, 0, k
  {
    if k == 0 then []
    else
      var sub := node.folders[k - 1];
      assert sub in node.folders;
      FolderEntries(node, base, k - 1, parse) + Flatten(sub, base + sub.name, parse)
  }

  /** The `searchableFiles` list and the `indexBuilt` flag. */
  class Index {
    var entries: seq<IndexEntry>
    var built: bool

    constructor ()
      ensures entries == [] && !built
    {
      entries := [];
      built := false;
    }

    /** flattenManifest(node, currentPath): pushes the node's files, then
        recurses into its folders. */
    method FlattenManifest(node: CatalogNode, currentPath: string, parse: Entry -> FileInfo)
      modifies this
      ensures entries == old(entries) + Flatten(node, currentPath, parse)
      ensures built == old(built)
      decreases node, 1
    {
      var base := if currentPath != "" then currentPath + "/" else "";
      assert base == PathBase(currentPath);
      ghost var start := entries;
      PushFiles(node.files, base, parse);
      FlattenFolders(node, base, parse);
      FlattenSplit(node, currentPath, parse);
      AppendAssoc(start, FileEntries(node.files, base, parse), FolderEntries(node, base, |node.folders|, parse));
    }

    /** The `forEach` of flattenManifest over `node.folders`. */
    method FlattenFolders(node: CatalogNode, base: string, parse: Entry -> FileInfo)
      modifies this
      ensures entries == old(entries) + FolderEntries(node, base, |node.folders|, parse)
      ensures built == old(built)
      decreases node, 0
    {
      ghost var start := entries;
      var k := 0;
      while k < |node.folders|
        invariant 0 <= k <= |node.folders|
        invariant entries == start + FolderEntries(node, base, k, parse)
        invariant built == old(built)
      {
        var sub := node.folders[k];
        ghost var before := entries;
        FlattenManifest(sub, base + sub.name, parse);
        FolderEntriesAppend(start, before, entries, node, base, k, parse);
        k := k + 1;
      }
    }

    /** The loop of flattenManifest over `node.files`. */
    method PushFiles(files: seq<Entry>, base: string, parse: Entry -> FileInfo)
      modifies this
      ensures entries == old(entries) + FileEntries(files, base, parse)
      ensures built == old(built)
    {
      var i := 0;
      while i < |files|
        invariant 0 <= i <= |files|
        invariant entries == old(entries) + FileEntries(files[..i], base, parse)
        invariant built == old(built)
      {
        var parsed := parse(files[i]);
        var entry := IndexEntry(base + parsed.name, parsed.name, parsed, Split(parsed.name, '.')[0]);
        assert files[..i + 1][..i] == files[..i] && files[..i + 1][i] == files[i];
        assert entry == EntryFor(base, parse(files[i]));
        AppendAssoc(old(entries), FileEntries(files[..i], base, parse), [entry]);
        entries := entries + [entry];
        i := i + 1;
      }
      assert files[..i] == files;
    }

    /** buildSearchIndex: once per session, from the manifest when one with a
        name was loaded, else from the per-folder fallback walk, whose result
        `fallback` is computed by code this model leaves out. */
    method Build(manifest: Option<CatalogNode>, fallback: seq<IndexEntry>, parse: Entry -> FileInfo)
      modifies this
      ensures built
      ensures old(built) ==> entries == old(entries)
      ensures !old(built) && manifest.Some? && manifest.value.name != "" ==> entries == Flatten(manifest.value, "", parse)
      ensures !old(built) && !(manifest.Some? && manifest.value.name != "") ==> entries == fallback
    {
      if built {
        return;
      }
      entries := [];
      if manifest.Some? && manifest.value.name != "" {
        FlattenManifest(manifest.value, "", parse);
        built := true;
        return;
      }
      entries := fallback;
      built := true;
    }
  }

  // ---------------------------------------------------------------------------
  // Lookup

  /** The entries whose lowercased base name is `term`, in index order. */
  function Matching(index: seq<IndexEntry>, term: string): seq<IndexEntry> {
    if index == [] then []
    else (if Lower(index[0].baseName) == term then [index[0]] else []) + Matching(index[1..], term)
  }

  /** performSearch(query): nothing for a blank query, else the exact
      case-insensitive matches of the trimmed query. */
  function Lookup(index: seq<IndexEntry>, query: string): seq<IndexEntry> {
    if Trim(query) == "" then [] else Matching(index, Lower(Trim(query)))
  }

  /** `a` is `b` with some elements left out, order kept. */
  predicate Subsequence<T(==)>(a: seq<T>, b: seq<T>) {
    a == [] || (b != [] && ((a[0] == b[0] && Subsequence(a[1..], b[1..])) || Subsequence(a, b[1..])))
  }

  // ---------------------------------------------------------------------------
  // Base names

  /** The first piece of a split is the text up to the first separator. */
  lemma {:induction false} SplitHead(s: string, sep: char)
    ensures var h := Split(s, sep)[0];
            && |h| <= |s| && h == s[..|h|] && sep !in h
            && (|h| < |s| ==> s[|h|] == sep)
  {
    if s != [] && s[0] != sep {
      SplitHead(s[1..], sep);
    }
  }

  /** The base name is the name up to, and without, its first dot; a name
      without a dot is its own base name. */
  lemma BaseNameSpec(name: string)
    ensures StartsWith(name, BaseName(name))
    ensures '.' !in BaseName(name)
    ensures '.' in name ==> |BaseName(name)| < |name| && name[|BaseName(name)|] == '.'
    ensures '.' !in name ==> BaseName(name) == name
  {
    SplitHead(name, '.');
  }

  // ---------------------------------------------------------------------------
  // The shape of the index

  /** The files of a catalog, at every depth. */
  function FileTotal(node: CatalogNode): nat
    decreases node, 1
  {
    |node.files| + FolderTotal(node, |node.folders|)
  }

  function FolderTotal(node: CatalogNode, k: nat): nat
    requires k <= |node.folders|
    decreases node, 0, k
  {
    if k == 0 then 0
    else
      assert node.folders[k - 1] in node.folders;
      FolderTotal(node, k - 1) + FileTotal(node.folders[k - 1])
  }

  /** The index holds one entry per file of the catalog. */
  lemma {:induction false} FlattenCount(node: CatalogNode, currentPath: string, parse: Entry -> FileInfo)
    ensures |Flatten(node, currentPath, parse)| == FileTotal(node)
    decreases node, 1
  {
    FolderEntriesCount(node, PathBase(currentPath), |node.folders|, parse);
  }

  lemma {:induction false} FolderEntriesCount(node: CatalogNode, base: string, k: nat, parse: Entry -> FileInfo)
    requires k <= |node.folders|
    ensures |FolderEntries(node, base, k, parse)| == FolderTotal(node, k)
    decreases node, 0, k
  {
    if k > 0 {
      var sub := node.folders[k - 1];
      assert sub in node.folders;
      FolderEntriesCount(node, base, k - 1, parse);
      FlattenCount(sub, base + sub.name, parse);
    }
  }

  lemma {:induction false} FileEntriesAt(files: seq<Entry>, base: string, parse: Entry -> FileInfo)
    ensures forall k :: 0 <= k < |files| ==> FileEntries(files, base, parse)[k] == EntryFor(base, parse(files[k]))
  {
    if files != [] {
      var init := files[..|files| - 1];
      FileEntriesAt(init, base, parse);
      assert forall k :: 0 <= k < |init| ==> init[k] == files[k];
    }
  }

  /** A node's own files come first, in order, under the node's path. */
  lemma FlattenFilesFirst(node: CatalogNode, currentPath: string, parse: Entry -> FileInfo)
    ensures |node.files| <= |Flatten(node, currentPath, parse)|
    ensures forall k :: 0 <= k < |node.files| ==>
              Flatten(node, currentPath, parse)[k] == EntryFor(PathBase(currentPath), parse(node.files[k]))
  {
    FileEntriesAt(node.files, PathBase(currentPath), parse);
  }

  lemma FolderEntriesStep(node: CatalogNode, base: string, j: nat, parse: Entry -> FileInfo)
    requires j < |node.folders|
    ensures FolderEntries(node, base, j + 1, parse)
            == FolderEntries(node, base, j, parse) + Flatten(node.folders[j], base + node.folders[j].name, parse)
  {
  }

  /** Appending subfolder `k`'s entries after those of the first `k`. */
  lemma FolderEntriesAppend(start: seq<IndexEntry>, before: seq<IndexEntry>, after: seq<IndexEntry>,
                            node: CatalogNode, base: string, k: nat, parse: Entry -> FileInfo)
    requires k < |node.folders|
    requires before == start + FolderEntries(node, base, k, parse)
    requires after == before + Flatten(node.folders[k], base + node.folders[k].name, parse)
    ensures after == start + FolderEntries(node, base, k + 1, parse)
  {
    FolderEntriesStep(node, base, k, parse);
    AppendAssoc(start, FolderEntries(node, base, k, parse), Flatten(node.folders[k], base + node.folders[k].name, parse));
  }

  lemma FlattenSplit(node: CatalogNode, currentPath: string, parse: Entry -> FileInfo)
    ensures Flatten(node, currentPath, parse)
            == FileEntries(node.files, PathBase(currentPath), parse) + FolderEntries(node, PathBase(currentPath), |node.folders|, parse)
    ensures |FileEntries(node.files, PathBase(currentPath), parse)| == |node.files|
  {
  }

  /** Where an entry sits: its path starts with `prefix` and ends with its
      name, which is the parsed file's name, and its base name is that name's. */
  predicate Placed(e: IndexEntry, prefix: string) {
    && StartsWith(e.path, prefix)
    && |e.name| <= |e.path| && e.path[|e.path| - |e.name|..] == e.name
    && e.name == e.parsed.name
    && e.baseName == BaseName(e.name)
  }

  lemma PlacedWider(e: IndexEntry, prefix: string, shorter: string)
    requires Placed(e, prefix) && StartsWith(prefix, shorter)
    ensures Placed(e, shorter)
  {
    assert e.path[..|shorter|] == prefix[..|shorter|];
  }

  /** Every entry lies under the path it was flattened from. */
  lemma {:induction false} FlattenPlaced(node: CatalogNode, currentPath: string, parse: Entry -> FileInfo)
    ensures forall e <- Flatten(node, currentPath, parse) :: Placed(e, PathBase(currentPath))
    decreases node, 1
  {
    var base := PathBase(currentPath);
    FileEntriesAt(node.files, base, parse);
    FolderEntriesPlaced(node, base, |node.folders|, parse);
    forall e <- FileEntries(node.files, base, parse) ensures Placed(e, base) {
      var k :| 0 <= k < |node.files| && FileEntries(node.files, base, parse)[k] == e;
      assert e == EntryFor(base, parse(node.files[k]));
      assert e.path == base + e.name;
    }
  }

  lemma {:induction false} FolderEntriesPlaced(node: CatalogNode, base: string, k: nat, parse: Entry -> FileInfo)
    requires k <= |node.folders|
    ensures forall e <- FolderEntries(node, base, k, parse) :: Placed(e, base)
    decreases node, 0, k
  {
    if k > 0 {
      var sub := node.folders[k - 1];
      assert sub in node.folders;
      FolderEntriesPlaced(node, base, k - 1, parse);
      FlattenPlaced(sub, base + sub.name, parse);
      var inner := PathBase(base + sub.name);
      assert StartsWith(inner, base) by {
        assert inner[..|base|] == (base + sub.name)[..|base|];
      }
      forall e <- Flatten(sub, base + sub.name, parse) ensures Placed(e, base) {
        PlacedWider(e, inner, base);
      }
    }
  }

  /** `route` names a folder below `node` by the positions of the subfolders
      taken at each level. */
  predicate ValidRoute(node: CatalogNode, route: seq<nat>)
    decreases |route|
  {
    route == [] || (route[0] < |node.folders| && ValidRoute(node.folders[route[0]], route[1..]))
  }

  /** The folder that `route` leads to. */
  function Reached(node: CatalogNode, route: seq<nat>): CatalogNode
    requires ValidRoute(node, route)
    decreases |route|
  {
    if route == [] then node else Reached(node.folders[route[0]], route[1..])
  }

  /** The `currentPath` flattenManifest is called with on the folder that
      `route` leads to: each step appends `'/'` (unless the path is empty)
      and the subfolder's name. */
  function RoutePath(node: CatalogNode, route: seq<nat>, currentPath: string): string
    requires ValidRoute(node, route)
    decreases |route|
  {
    if route == [] then currentPath
    else
      var sub := node.folders[route[0]];
      RoutePath(sub, route[1..], PathBase(currentPath) + sub.name)
  }

  /** The entry for file `k` of the folder `route` leads to. */
  function RouteEntry(node: CatalogNode, route: seq<nat>, k: nat, currentPath: string, parse: Entry -> FileInfo): IndexEntry
    requires ValidRoute(node, route) && k < |Reached(node, route).files|
  {
    EntryFor(PathBase(RoutePath(node, route, currentPath)), parse(Reached(node, route).files[k]))
  }

  /** Membership in the entries of the first `j + 1` subfolders. */
  lemma FolderEntriesIn(node: CatalogNode, base: string, j: nat, parse: Entry -> FileInfo, e: IndexEntry)
    requires j < |node.folders|
    ensures e in FolderEntries(node, base, j + 1, parse) <==>
              e in FolderEntries(node, base, j, parse) || e in Flatten(node.folders[j], base + node.folders[j].name, parse)
  {
  }

  /** What is flattened from subfolder `j` is among the entries of the first
      `k` subfolders once `j < k`. */
  lemma {:induction false} FolderEntriesHas(node: CatalogNode, base: string, j: nat, k: nat, parse: Entry -> FileInfo, e: IndexEntry)
    requires j < k <= |node.folders|
    requires e in Flatten(node.folders[j], base + node.folders[j].name, parse)
    ensures e in FolderEntries(node, base, k, parse)
    decreases k
  {
    FolderEntriesIn(node, base, k - 1, parse, e);
    if j < k - 1 {
      FolderEntriesHas(node, base, j, k - 1, parse, e);
    }
  }

  /** Every file of every folder below the root is in the index, under the
      path built from the folder names along the way. */
  lemma {:induction false} FlattenReaches(node: CatalogNode, route: seq<nat>, k: nat, currentPath: string, parse: Entry -> FileInfo)
    requires ValidRoute(node, route) && k < |Reached(node, route).files|
    ensures RouteEntry(node, route, k, currentPath, parse) in Flatten(node, currentPath, parse)
    decreases |route|
  {
    var base := PathBase(currentPath);
    FlattenSplit(node, currentPath, parse);
    if route == [] {
      FlattenFilesFirst(node, currentPath, parse);
      assert Flatten(node, currentPath, parse)[k] == RouteEntry(node, route, k, currentPath, parse);
    } else {
      var j := route[0];
      var sub := node.folders[j];
      FlattenReaches(sub, route[1..], k, base + sub.name, parse);
      assert RouteEntry(node, route, k, currentPath, parse) == RouteEntry(sub, route[1..], k, base + sub.name, parse);
      FolderEntriesHas(node, base, j, |node.folders|, parse, RouteEntry(node, route, k, currentPath, parse));
    }
  }

  // ---------------------------------------------------------------------------
  // What a search finds

  /** The matches are exactly the index entries with the term as lowercased
      base name, each as often as in the index, in index order. */
  lemma MatchingMembers(index: seq<IndexEntry>, term: string)
    ensures forall e :: e in Matching(index, term) <==> e in index && Lower(e.baseName) == term
    ensures Subsequence(Matching(index, term), index)
    ensures forall e :: multiset(Matching(index, term))[e] ==
              (if Lower(e.baseName) == term then multiset(index)[e] else 0)
  {
    MatchingCounts(index, term);
    MatchingInOrder(index, term);
  }

  /** The matches keep their index order. */
  lemma {:induction false} MatchingInOrder(index: seq<IndexEntry>, term: string)
    ensures Subsequence(Matching(index, term), index)
  {
    if index != [] {
      MatchingInOrder(index[1..], term);
      var m := Matching(index, term);
      if Lower(index[0].baseName) == term {
        assert m[0] == index[0] && m[1..] == Matching(index[1..], term);
      } else {
        assert m == Matching(index[1..], term);
      }
    }
  }

  /** Each match occurs as often in the results as in the index. */
  lemma {:induction false} MatchingCounts(index: seq<IndexEntry>, term: string)
    ensures forall e :: multiset(Matching(index, term))[e] ==
              (if Lower(e.baseName) == term then multiset(index)[e] else 0)
  {
    if index != [] {
      MatchingCounts(index[1..], term);
      assert index == [index[0]] + index[1..];
    }
  }

  /** A blank query finds nothing; otherwise an entry is found exactly when
      its lowercased base name is the lowercased trimmed query, as often as
      it occurs in the index, and the results keep the index order. */
  lemma LookupSpec(index: seq<IndexEntry>, query: string)
    ensures Trim(query) == "" ==> Lookup(index, query) == []
    ensures forall e :: e in Lookup(index, query) <==>
              Trim(query) != "" && e in index && Lower(e.baseName) == Lower(Trim(query))
    ensures Subsequence(Lookup(index, query), index)
    ensures Trim(query) != "" ==>
              forall e :: multiset(Lookup(index, query))[e] ==
                (if Lower(e.baseName) == Lower(Trim(query)) then multiset(index)[e] else 0)
  {
    MatchingMembers(index, Lower(Trim(query)));
  }

  /** Whitespace around the query changes nothing. */
  lemma LookupPadded(index: seq<IndexEntry>, query: string, w1: string, w2: string)
    requires AllSpace(w1) && AllSpace(w2)
    ensures Lookup(index, w1 + query + w2) == Lookup(index, query)
  {
    TrimPadded(w1, query, w2);
  }

  /** Queries that agree up to letter case find the same entries. */
  lemma LookupIgnoresCase(index: seq<IndexEntry>, q1: string, q2: string)
    requires Lower(Trim(q1)) == Lower(Trim(q2))
    ensures Lookup(index, q1) == Lookup(index, q2)
  {
    assert |Trim(q1)| == |Lower(Trim(q1))| == |Trim(q2)|;
  }
}
