/**
 * The arithmetic behind the browser's menus: which entries the current
 * access level shows, how many slots a menu has (a RETURN slot first below
 * the root, a SEARCH slot last at the root), which folder a slot stands
 * for, the clamp that keeps a selection on the menu, and the keys under
 * which a path's selection is remembered.
 */
module Menu {
  import opened Maybe
  import opened Text
  import opened Tags

  // ---------------------------------------------------------------------------
  // Listings

  /** What loadFolderManifests yields for a path, its entries parsed. */
  datatype Listing = Folders(folders: seq<FolderInfo>) | Files(files: seq<FileInfo>) | NoData

  function ParseFolders(entries: seq<Entry>): (r: seq<FolderInfo>)
    ensures |r| == |entries|
  {
    seq(|entries|, i requires 0 <= i < |entries| => ParseFolder(entries[i]))
  }

  function ParseFiles(entries: seq<Entry>): (r: seq<FileInfo>)
    ensures |r| == |entries|
  {
    seq(|entries|, i requires 0 <= i < |entries| => ParseFile(entries[i]))
  }

  /** loadFolderManifests: the folders of a non-empty `folders.json` array,
      else the files of a non-empty `files.json` array, else nothing. A
      missing or unusable descriptor is `None`. */
  function LoadListing(foldersJson: Option<seq<Entry>>, filesJson: Option<seq<Entry>>): (r: Listing)
    ensures r.Folders? <==> foldersJson.Some? && foldersJson.value != []
    ensures r.Files? <==> !(foldersJson.Some? && foldersJson.value != []) && filesJson.Some? && filesJson.value != []
    ensures r.Files? ==> |r.files| == |filesJson.value|
    ensures r.Folders? ==> |r.folders| == |foldersJson.value|
  {
    if foldersJson.Some? && foldersJson.value != [] then Folders(ParseFolders(foldersJson.value))
    else if filesJson.Some? && filesJson.value != [] then Files(ParseFiles(filesJson.value))
    else NoData
  }

  // ---------------------------------------------------------------------------
  // Access filtering

  predicate FolderShown(f: FolderInfo, access: nat) {
    Visible(f.hiddenLevel, access)
  }

  predicate FileShown(f: FileInfo, access: nat) {
    Visible(f.hiddenLevel, access)
  }

  /** The number of folders shown at `access`. */
  function VisibleCount(folders: seq<FolderInfo>, access: nat): (r: nat)
    ensures r <= |folders|
  {
    if folders == [] then 0
    else VisibleCount(folders[..|folders| - 1], access) + (if FolderShown(folders[|folders| - 1], access) then 1 else 0)
  }

  /** `files.filter(f => !isHidden || hiddenLevel <= specialAccessLevel)` */
  function VisibleFiles(files: seq<FileInfo>, access: nat): (r: seq<FileInfo>)
    ensures |r| <= |files|
  {
    if files == [] then []
    else (if FileShown(files[0], access) then [files[0]] else []) + VisibleFiles(files[1..], access)
  }

  /** The visibility count of keyHandler and onSelect: a loop over the folders. */
  method CountVisible(folders: seq<FolderInfo>, access: nat) returns (count: nat)
    ensures count == VisibleCount(folders, access)
  {
    count := 0;
    var i := 0;
    while i < |folders|
      invariant 0 <= i <= |folders|
      invariant count == VisibleCount(folders[..i], access)
    {
      assert folders[..i + 1][..i] == folders[..i];
      if FolderShown(folders[i], access) {
        count := count + 1;
      }
      i := i + 1;
    }
    assert folders[..i] == folders;
  }

  /** The index of the folder that the `target`-th shown slot stands for, or
      -1: the scan of onSelect from position `i`, having seen `found` shown
      folders before it. */
  function FindFrom(folders: seq<FolderInfo>, access: nat, target: int, i: nat, found: nat): (r: int)
    requires i <= |folders|
    ensures -1 <= r < |folders|
    decreases |folders| - i
  {
    if i == |folders| then -1
    else if FolderShown(folders[i], access) then
      if found == target then i else FindFrom(folders, access, target, i + 1, found + 1)
    else FindFrom(folders, access, target, i + 1, found)
  }

  function NthVisible(folders: seq<FolderInfo>, access: nat, target: int): int {
    FindFrom(folders, access, target, 0, 0)
  }

  /** The loop of onSelect that maps a visible index to an actual index. */
  method FindVisible(folders: seq<FolderInfo>, access: nat, visibleIdx: int) returns (actualIdx: int)
    ensures actualIdx == NthVisible(folders, access, visibleIdx)
  {
    actualIdx := -1;
    var found := 0;
    var i := 0;
    while i < |folders|
      invariant 0 <= i <= |folders|
      invariant FindFrom(folders, access, visibleIdx, i, found) == NthVisible(folders, access, visibleIdx)
    {
      if FolderShown(folders[i], access) {
        if found == visibleIdx {
          actualIdx := i;
          break;
        }
        found := found + 1;
      }
      i := i + 1;
    }
  }

  lemma {:induction false} VisibleCountSnoc(folders: seq<FolderInfo>, access: nat, i: nat)
    requires i < |folders|
    ensures VisibleCount(folders[..i + 1], access) == VisibleCount(folders[..i], access) + (if FolderShown(folders[i], access) then 1 else 0)
  {
    assert folders[..i + 1][..i] == folders[..i];
  }

  lemma {:induction false} VisibleCountPrefix(folders: seq<FolderInfo>, access: nat, j: nat)
    requires j <= |folders|
    ensures VisibleCount(folders[..j], access) <= VisibleCount(folders, access)
    decreases |folders|
  {
    if j < |folders| {
      var init := folders[..|folders| - 1];
      assert folders[..j] == init[..j];
      VisibleCountPrefix(init, access, j);
    } else {
      assert folders[..j] == folders;
    }
  }

  lemma {:induction false} FindFromSpec(folders: seq<FolderInfo>, access: nat, target: int, i: nat, found: nat)
    requires i <= |folders| && found == VisibleCount(folders[..i], access)
    ensures var r := FindFrom(folders, access, target, i, found);
            && (r >= 0 ==> i <= r && FolderShown(folders[r], access) && VisibleCount(folders[..r], access) == target)
            && (r == -1 <==> target < found || VisibleCount(folders, access) <= target)
    decreases |folders| - i
  {
    if i == |folders| {
      assert folders[..i] == folders;
    } else {
      VisibleCountSnoc(folders, access, i);
      VisibleCountPrefix(folders, access, i + 1);
      if !(FolderShown(folders[i], access) && found == target) {
        FindFromSpec(folders, access, target, i + 1, VisibleCount(folders[..i + 1], access));
      }
    }
  }

  /** The slot for the `target`-th shown folder is found exactly when there
      are more than `target` shown folders, and it is a shown folder with
      exactly `target` shown folders before it. */
  lemma NthVisibleSpec(folders: seq<FolderInfo>, access: nat, target: int)
    ensures var r := NthVisible(folders, access, target);
            && -1 <= r < |folders|
            && (r >= 0 ==> FolderShown(folders[r], access) && VisibleCount(folders[..r], access) == target)
            && (r == -1 <==> target < 0 || VisibleCount(folders, access) <= target)
  {
    assert folders[..0] == [];
    FindFromSpec(folders, access, target, 0, 0);
  }

  /** Raising the access level never shows fewer folders. */
  lemma {:induction false} VisibleCountMonotone(folders: seq<FolderInfo>, a: nat, b: nat)
    requires a <= b
    ensures VisibleCount(folders, a) <= VisibleCount(folders, b)
  {
    if folders != [] {
      VisibleCountMonotone(folders[..|folders| - 1], a, b);
      AccessMonotone(folders[|folders| - 1].hiddenLevel, a, b);
    }
  }

  /** Raising the access level never shows fewer files. */
  lemma {:induction false} VisibleFilesMonotone(files: seq<FileInfo>, a: nat, b: nat)
    requires a <= b
    ensures |VisibleFiles(files, a)| <= |VisibleFiles(files, b)|
  {
    if files != [] {
      VisibleFilesMonotone(files[1..], a, b);
      AccessMonotone(files[0].hiddenLevel, a, b);
    }
  }

  /** The files shown are exactly the listed files that pass the access
      test, each as often as it is listed. */
  lemma {:induction false} VisibleFilesSpec(files: seq<FileInfo>, access: nat)
    ensures forall f :: f in VisibleFiles(files, access) <==> f in files && FileShown(f, access)
    ensures forall f :: multiset(VisibleFiles(files, access))[f] ==
              (if FileShown(f, access) then multiset(files)[f] else 0)
  {
    if files != [] {
      VisibleFilesSpec(files[1..], access);
      assert files == [files[0]] + files[1..];
    }
  }

  /** Slot `k` of the file menu holds a listed, shown file with exactly `k`
      shown files before it in the listing. */
  lemma {:induction false} VisibleFilesAt(files: seq<FileInfo>, access: nat, k: nat)
    requires k < |VisibleFiles(files, access)|
    ensures exists i :: 0 <= i < |files| && files[i] == VisibleFiles(files, access)[k]
              && FileShown(files[i], access) && |VisibleFiles(files[..i], access)| == k
  {
    var v := VisibleFiles(files, access);
    var rest := files[1..];
    if FileShown(files[0], access) && k == 0 {
      assert files[..0] == [];
    } else {
      var k' := if FileShown(files[0], access) then k - 1 else k;
      VisibleFilesAt(rest, access, k');
      var j :| 0 <= j < |rest| && rest[j] == VisibleFiles(rest, access)[k']
               && FileShown(rest[j], access) && |VisibleFiles(rest[..j], access)| == k';
      assert files[..j + 1][1..] == rest[..j];
      assert files[j + 1] == rest[j];
    }
  }

  // ---------------------------------------------------------------------------
  // Menu slots and the selection

  /** `Math.max(min, Math.min(max, n))` */
  function Clamp(n: int, lo: int, hi: int): (r: int)
    ensures lo <= hi ==> lo <= r <= hi
    ensures lo <= n <= hi ==> r == n
    ensures n < lo ==> r == lo
    ensures lo <= hi < n ==> r == hi
  {
    if n > hi then (if hi > lo then hi else lo) else (if n > lo then n else lo)
  }

  /** The number of slots keyHandler computes for a listing: the shown folders
      plus RETURN below the root or SEARCH at the root; the shown files;
      nothing otherwise. */
  function MenuSize(listing: Listing, depth: nat, access: nat): (n: nat)
    ensures listing.Folders? ==> n == VisibleCount(listing.folders, access) + 1
    ensures listing.Files? ==> n == |VisibleFiles(listing.files, access)|
    ensures listing.NoData? ==> n == 0
  {
    match listing
    case Folders(folders) =>
      (if depth > 0 then 1 else 0) + VisibleCount(folders, access) + (if depth == 0 then 1 else 0)
    case Files(files) => |VisibleFiles(files, access)|
    case NoData => 0
  }

  /** `Math.max(0, n - 1)`: the last slot, or 0 for an empty menu. */
  function LastSlot(n: nat): nat {
    if n == 0 then 0 else n - 1
  }

  // ---------------------------------------------------------------------------
  // Navigation history

  /** `pathParts.join('/')` */
  function HistoryKey(path: seq<string>): string {
    Join(path, "/")
  }

  /** `history[key] !== undefined ? history[key] : 0` */
  function Restore(history: map<string, int>, key: string): int {
    if key in history then history[key] else 0
  }

  lemma {:induction false} JoinSnoc(path: seq<string>, name: string)
    ensures path != [] ==> Join(path + [name], "/") == Join(path, "/") + "/" + name
    ensures path == [] ==> Join(path + [name], "/") == name
  {
    if |path| > 1 {
      JoinSnoc(path[1..], name);
      assert (path + [name])[1..] == path[1..] + [name];
    } else if |path| == 1 {
      assert (path + [name])[1..] == [name];
    }
  }

  /** A child's key differs from its parent's unless a nameless folder sits
      directly under the root. */
  lemma ChildKeyDiffers(path: seq<string>, name: string)
    requires path != [] || name != ""
    ensures HistoryKey(path + [name]) != HistoryKey(path)
  {
    JoinSnoc(path, name);
    if path != [] {
      assert |HistoryKey(path + [name])| > |HistoryKey(path)|;
    }
  }
}
