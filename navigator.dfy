/**
 * The browser's navigator: the state the page keeps between keystrokes
 * (the open path, the selected slot, the remembered selection of every
 * visited path, the special access level, search mode, the file viewer,
 * the theme and the two dialogs) and what each key does to it.
 *
 * The transitions are first written as functions on a `NavState` value;
 * the `Browser` class then keeps the same state in fields and its methods
 * are proved to perform exactly those transitions. The listing of a path,
 * which the page fetches, is the parameter `catalog`, and the search
 * index is the parameter `index`.
 */
module Navigator {
  import opened Text
  import opened Tags
  import opened SearchIndex
  import opened Menu

  /** The keys the navigator reacts to; `s` and `w` move like the arrows. */
  datatype Key = Down | Up | Enter | Backspace | Dot | Escape | OtherKey

  function KeyOf(name: string): Key {
    if name == "ArrowDown" || name == "s" then Down
    else if name == "ArrowUp" || name == "w" then Up
    else if name == "Enter" then Enter
    else if name == "Backspace" then Backspace
    else if name == "." then Dot
    else if name == "Escape" then Escape
    else OtherKey
  }

  /** `mode`: the menu, or the file viewer showing a file of a folder. */
  datatype Mode = MenuMode | FileMode(name: string, folder: seq<string>, info: FileInfo)

  datatype NavState = NavState(
    pathParts: seq<string>,
    selected: int,
    history: map<string, int>,
    access: Grade,
    isSearchMode: bool,
    mode: Mode,
    searchResults: seq<IndexEntry>,
    theme: string,
    commandOpen: bool,
    searchOpen: bool)

  /** Selections are never negative, remembered or current, and the theme
      is always one the page knows. */
  predicate Valid(s: NavState) {
    && s.selected >= 0
    && (forall k :: k in s.history ==> s.history[k] >= 0)
    && s.theme in ThemeNames
  }

  /** The page as it loads: `?path=` split into segments, nothing selected
      but the first slot, the green theme. */
  function Initial(rawPath: string): NavState {
    var parts := if rawPath == "" then [] else NonEmpty(Split(rawPath, '/'));
    NavState(parts, 0, map[], 0, false, MenuMode, [], "green", false, false)
  }

  // ---------------------------------------------------------------------------
  // The transitions

  /** refresh: a file listing pulls the selection back onto its last file. */
  function Refreshed(s: NavState, catalog: seq<string> -> Listing): NavState {
    match catalog(s.pathParts)
    case Files(files) =>
      var n := |VisibleFiles(files, s.access)|;
      if s.selected > n - 1 then s.(selected := LastSlot(n)) else s
    case _ => s
  }

  /** The level `Lower(Trim(cmd))` unlocks: N for `codeN` with N in 1..6,
      else 0. */
  function CommandLevel(cmd: string): (level: nat)
    ensures level <= 6
  {
    LevelFrom(Lower(Trim(cmd)), 1)
  }

  function LevelFrom(code: string, i: nat): (level: nat)
    requires 1 <= i <= 7
    ensures level == 0 || i <= level <= 6
    decreases 7 - i
  {
    if i == 7 then 0
    else if code == "code" + [Digit(i)] then i
    else LevelFrom(code, i + 1)
  }

  /** processCommand */
  function AfterCommand(s: NavState, cmd: string, catalog: seq<string> -> Listing): NavState {
    var level := CommandLevel(cmd);
    if level > 0 then Refreshed(s.(access := level, commandOpen := false), catalog)
    else s.(commandOpen := false)
  }

  /** toggleSpecialAccess: drop back to level 0, leaving the file viewer. */
  function Toggled(s: NavState, catalog: seq<string> -> Listing): NavState {
    if s.access > 0 then
      var t := s.(access := 0);
      if t.isSearchMode then t
      else if t.mode.FileMode? then Refreshed(t.(mode := MenuMode), catalog)
      else Refreshed(t, catalog)
    else s
  }

  /** The `.` key: toggle the access level off, or open the command dialog. */
  function DotPressed(s: NavState, catalog: seq<string> -> Listing): NavState {
    if s.access > 0 then Toggled(s, catalog) else s.(commandOpen := true)
  }

  /** performSearch */
  function Searched(s: NavState, index: seq<IndexEntry>, query: string): NavState {
    s.(searchResults := Lookup(index, query))
  }

  /** enterSearchResults */
  function EnteredResults(s: NavState): NavState {
    s.(searchOpen := false, isSearchMode := true, selected := 0, mode := MenuMode)
  }

  /** exitSearchMode */
  function ExitedSearch(s: NavState, catalog: seq<string> -> Listing): NavState {
    Refreshed(s.(isSearchMode := false, searchResults := [], pathParts := [], selected := 0, theme := "green"), catalog)
  }

  /** `path.lastIndexOf(c)` */
  function LastIndexOf(path: string, c: char): (i: int)
    ensures -1 <= i < |path|
    ensures i == -1 <==> c !in path
    ensures 0 <= i ==> path[i] == c && c !in path[i + 1..]
  {
    if path == [] then -1
    else if path[|path| - 1] == c then |path| - 1
    else
      var init := path[..|path| - 1];
      var j := LastIndexOf(init, c);
      assert c in path <==> c in init by {
        assert path == init + [path[|path| - 1]];
      }
      assert 0 <= j ==> c !in path[j + 1..] by {
        if 0 <= j {
          assert path[j + 1..] == init[j + 1..] + [path[|path| - 1]];
        }
      }
      j
  }

  /** The folder part of an index path, its trailing `/` kept. */
  function FolderOf(path: string): string {
    var k := LastIndexOf(path, '/');
    if k < 0 then "" else path[..k + 1]
  }

  /** Enter on a search result: view it in the folder its path names. */
  function OpenedResult(s: NavState, e: IndexEntry): NavState {
    s.(mode := FileMode(e.parsed.name, NonEmpty(Split(FolderOf(e.path), '/')), e.parsed))
  }

  /** The search results branch of keyHandler: slot 0 leaves search mode,
      slot i opens result i - 1. */
  function SearchKey(s: NavState, key: Key, catalog: seq<string> -> Listing): NavState {
    var n := |s.searchResults| + 1;
    match key
    case Dot => DotPressed(s, catalog)
    case Down =>
      var m := Clamp(s.selected + 1, 0, n - 1);
      if m != s.selected then s.(selected := m) else s
    case Up =>
      var m := Clamp(s.selected - 1, 0, n - 1);
      if m != s.selected then s.(selected := m) else s
    case Enter =>
      if s.selected == 0 then ExitedSearch(s, catalog)
      else if 1 <= s.selected <= |s.searchResults| then OpenedResult(s, s.searchResults[s.selected - 1])
      else s
    case Backspace => ExitedSearch(s, catalog)
    case _ => s
  }

  /** An arrow key in the menu: one slot along, clamped to the menu. */
  function Moved(s: NavState, delta: int, catalog: seq<string> -> Listing): NavState {
    var n := MenuSize(catalog(s.pathParts), |s.pathParts|, s.access);
    var m := Clamp(s.selected + delta, 0, LastSlot(n));
    if m != s.selected then Refreshed(s.(selected := m), catalog) else s
  }

  /** Backspace in the menu: remember the selection, go up one level and
      take up the parent's remembered selection. */
  function WentBack(s: NavState, catalog: seq<string> -> Listing): NavState {
    if |s.pathParts| > 0 then
      var h := s.history[HistoryKey(s.pathParts) := s.selected];
      var parent := s.pathParts[..|s.pathParts| - 1];
      Refreshed(s.(history := h, pathParts := parent, selected := Restore(h, HistoryKey(parent)), theme := "green"), catalog)
    else s
  }

  /** The theme a folder opens in: purple when hidden, else its own theme
      if it names a known one, else green. */
  function FolderTheme(f: FolderInfo, current: string): string {
    if f.hiddenLevel > 0 then "purple"
    else if f.theme.Some? && f.theme.value != "" then (if f.theme.value in ThemeNames then f.theme.value else current)
    else "green"
  }

  /** Open folder `f` of the current listing: remember the selection here,
      take up the child's remembered selection. */
  function Descended(s: NavState, f: FolderInfo, catalog: seq<string> -> Listing): NavState {
    var h := s.history[HistoryKey(s.pathParts) := s.selected];
    var child := s.pathParts + [f.name];
    Refreshed(s.(theme := FolderTheme(f, s.theme), history := h, pathParts := child, selected := Restore(h, HistoryKey(child))), catalog)
  }

  /** onSelect */
  function Selected(s: NavState, catalog: seq<string> -> Listing): NavState {
    match catalog(s.pathParts)
    case Folders(folders) =>
      if |s.pathParts| == 0 && s.selected == VisibleCount(folders, s.access) then s.(searchOpen := true)
      else if |s.pathParts| > 0 && s.selected == 0 then
        Refreshed(s.(pathParts := s.pathParts[..|s.pathParts| - 1], selected := 0, theme := "green"), catalog)
      else
        var visibleIdx := if |s.pathParts| > 0 then s.selected - 1 else s.selected;
        var idx := NthVisible(folders, s.access, visibleIdx);
        if idx >= 0 then Descended(s, folders[idx], catalog) else s
    case Files(files) =>
      var visible := VisibleFiles(files, s.access);
      if 0 <= s.selected < |visible| then s.(mode := FileMode(visible[s.selected].name, s.pathParts, visible[s.selected]))
      else s
    case NoData => s
  }

  function MenuKey(s: NavState, key: Key, catalog: seq<string> -> Listing): NavState {
    match key
    case Down => Moved(s, 1, catalog)
    case Up => Moved(s, -1, catalog)
    case Enter => Selected(s, catalog)
    case Backspace => WentBack(s, catalog)
    case _ => s
  }

  /** The file viewer: `.` as everywhere, Backspace closes the viewer. */
  function FileKey(s: NavState, key: Key, catalog: seq<string> -> Listing): NavState {
    match key
    case Dot => DotPressed(s, catalog)
    case Backspace => s.(mode := MenuMode)
    case _ => s
  }

  /** keyHandler: the dialogs first, then search results, then `.`, then the
      file viewer, then the menu. `input` is the text of the open dialog. */
  function Step(s: NavState, key: Key, input: string, index: seq<IndexEntry>, catalog: seq<string> -> Listing): NavState {
    if s.commandOpen then
      (match key
       case Enter => AfterCommand(s, input, catalog)
       case Escape => s.(commandOpen := false)
       case _ => s)
    else if s.searchOpen then
      (match key
       case Enter => EnteredResults(Searched(s, index, input))
       case Escape => s.(searchOpen := false)
       case _ => s)
    else if s.isSearchMode && s.mode.MenuMode? then SearchKey(s, key, catalog)
    else if key == Dot && !s.isSearchMode && s.mode.MenuMode? then DotPressed(s, catalog)
    else if s.mode.FileMode? then FileKey(s, key, catalog)
    else MenuKey(s, key, catalog)
  }

  // ---------------------------------------------------------------------------
  // What the transitions promise

  lemma {:induction false} LevelFromSpec(code: string, i: nat)
    requires 1 <= i <= 7
    ensures var level := LevelFrom(code, i);
            && (level > 0 ==> code == "code" + [Digit(level)])
            && (level == 0 <==> forall j :: i <= j <= 6 ==> code != "code" + [Digit(j)])
    decreases 7 - i
  {
    if i < 7 && code != "code" + [Digit(i)] {
      LevelFromSpec(code, i + 1);
    }
  }

  /** A command unlocks level N exactly when, trimmed and lowercased, it
      reads `codeN` for N in 1..6. */
  lemma CommandLevelSpec(cmd: string)
    ensures CommandLevel(cmd) > 0 ==> Lower(Trim(cmd)) == "code" + [Digit(CommandLevel(cmd))]
    ensures CommandLevel(cmd) == 0 <==> forall j :: 1 <= j <= 6 ==> Lower(Trim(cmd)) != "code" + [Digit(j)]
  {
    LevelFromSpec(Lower(Trim(cmd)), 1);
  }

  /** An arrow key keeps the selection on the menu, and moves it by exactly
      one slot whenever that slot exists. */
  lemma MovedBounds(s: NavState, delta: int, catalog: seq<string> -> Listing)
    requires delta == 1 || delta == -1
    ensures var n := MenuSize(catalog(s.pathParts), |s.pathParts|, s.access);
            var t := Moved(s, delta, catalog);
            && 0 <= t.selected <= LastSlot(n)
            && (0 <= s.selected + delta <= LastSlot(n) ==> t.selected == s.selected + delta)
            && t.pathParts == s.pathParts && t.history == s.history
  {
    var n := MenuSize(catalog(s.pathParts), |s.pathParts|, s.access);
    var m := Clamp(s.selected + delta, 0, LastSlot(n));
    if m != s.selected && catalog(s.pathParts).Files? {
      assert n == |VisibleFiles(catalog(s.pathParts).files, s.access)|;
    }
  }

  /** An arrow key among search results keeps the selection on slot 0 (back)
      or on one of the results. */
  lemma SearchMoveBounds(s: NavState, key: Key, catalog: seq<string> -> Listing)
    requires key == Down || key == Up
    ensures var t := SearchKey(s, key, catalog);
            && 0 <= t.selected <= |s.searchResults|
            && t.searchResults == s.searchResults && t.pathParts == s.pathParts
  {
  }

  /** Opening a folder remembers the selection under the current path,
      appends exactly the folder's name, and takes up the child's
      remembered selection, or 0 (pulled back onto a shorter file list). */
  lemma DescendedSpec(s: NavState, f: FolderInfo, catalog: seq<string> -> Listing)
    requires Valid(s)
    ensures var t := Descended(s, f, catalog);
            && t.pathParts == s.pathParts + [f.name]
            && t.history == s.history[HistoryKey(s.pathParts) := s.selected]
            && 0 <= t.selected <= Restore(t.history, HistoryKey(t.pathParts))
            && (!catalog(t.pathParts).Files? ==> t.selected == Restore(t.history, HistoryKey(t.pathParts)))
            && Valid(t)
  {
  }

  /** Backspace undoes opening a folder: the parent path comes back with
      the very selection it had. */
  lemma DescendThenBack(s: NavState, f: FolderInfo, catalog: seq<string> -> Listing)
    requires !catalog(s.pathParts).Files?
    requires s.pathParts != [] || f.name != ""
    ensures var t := Descended(s, f, catalog);
            var u := WentBack(t, catalog);
            && u.pathParts == s.pathParts
            && u.selected == s.selected
            && u.history == s.history[HistoryKey(s.pathParts) := s.selected][HistoryKey(t.pathParts) := t.selected]
  {
    var t := Descended(s, f, catalog);
    ChildKeyDiffers(s.pathParts, f.name);
    assert t.pathParts[..|t.pathParts| - 1] == s.pathParts;
  }

  /** Every slot of a folder menu does one thing: SEARCH opens the search
      dialog, RETURN goes up with the selection reset to 0 and nothing
      remembered, slot v of the shown folders opens the v-th shown folder,
      and a slot off the menu does nothing. */
  lemma SelectedSlots(s: NavState, folders: seq<FolderInfo>, catalog: seq<string> -> Listing)
    requires catalog(s.pathParts) == Folders(folders)
    ensures var t := Selected(s, catalog);
            var depth := |s.pathParts|;
            var shown := VisibleCount(folders, s.access);
            var v := if depth > 0 then s.selected - 1 else s.selected;
            && (depth == 0 && s.selected == shown ==> t == s.(searchOpen := true))
            && (depth > 0 && s.selected == 0 ==>
                  t.pathParts == s.pathParts[..depth - 1] && t.selected == 0 && t.history == s.history)
            && (0 <= v < shown ==>
                  exists i :: 0 <= i < |folders| && FolderShown(folders[i], s.access)
                    && VisibleCount(folders[..i], s.access) == v && t == Descended(s, folders[i], catalog))
            && (s.selected < 0 || MenuSize(Folders(folders), depth, s.access) <= s.selected ==> t == s)
  {
    var depth := |s.pathParts|;
    var v := if depth > 0 then s.selected - 1 else s.selected;
    NthVisibleSpec(folders, s.access, v);
    var i := NthVisible(folders, s.access, v);
    if 0 <= v < VisibleCount(folders, s.access) {
      assert FolderShown(folders[i], s.access) && VisibleCount(folders[..i], s.access) == v;
    }
  }

  /** Enter on a file slot opens exactly the file shown there: the listed,
      shown file with `selected` shown files before it, in the current folder,
      and nothing else changes; a slot off the list does nothing. */
  lemma SelectedFile(s: NavState, files: seq<FileInfo>, catalog: seq<string> -> Listing)
    requires catalog(s.pathParts) == Files(files)
    ensures var t := Selected(s, catalog);
            var visible := VisibleFiles(files, s.access);
            && (0 <= s.selected < |visible| ==>
                  && t.mode.FileMode? && t == s.(mode := t.mode)
                  && t.mode.name == t.mode.info.name && t.mode.folder == s.pathParts
                  && exists i :: 0 <= i < |files| && files[i] == t.mode.info
                       && FileShown(files[i], s.access) && |VisibleFiles(files[..i], s.access)| == s.selected)
            && (!(0 <= s.selected < |visible|) ==> t == s)
  {
    if 0 <= s.selected < |VisibleFiles(files, s.access)| {
      VisibleFilesAt(files, s.access, s.selected);
    }
  }

  lemma {:induction false} FolderOfSpec(dir: string, name: string)
    requires '/' !in name
    requires dir == "" || dir[|dir| - 1] == '/'
    ensures FolderOf(dir + name) == dir
  {
    var path := dir + name;
    var k := LastIndexOf(path, '/');
    if dir == "" {
      assert path == name;
    } else {
      assert path[|dir| - 1] == '/';
      assert path[..|dir|] == dir;
    }
  }

  /** Opening a search result for a file named `name` (no `/`) under the
      folder path `dir` opens the viewer on that folder. */
  lemma OpenedResultFolder(s: NavState, e: IndexEntry, dir: string)
    requires e.path == dir + e.name && '/' !in e.name
    requires dir == "" || dir[|dir| - 1] == '/'
    ensures OpenedResult(s, e).mode == FileMode(e.parsed.name, NonEmpty(Split(dir, '/')), e.parsed)
  {
    FolderOfSpec(dir, e.name);
  }

  lemma RefreshedValid(s: NavState, catalog: seq<string> -> Listing)
    requires Valid(s)
    ensures Valid(Refreshed(s, catalog))
  {
  }

  lemma SelectedValid(s: NavState, catalog: seq<string> -> Listing)
    requires Valid(s)
    ensures Valid(Selected(s, catalog))
  {
    match catalog(s.pathParts)
    case Folders(folders) =>
      var v := if |s.pathParts| > 0 then s.selected - 1 else s.selected;
      var i := NthVisible(folders, s.access, v);
      if i >= 0 {
        DescendedSpec(s, folders[i], catalog);
      }
    case _ =>
  }

  lemma MenuKeyValid(s: NavState, key: Key, catalog: seq<string> -> Listing)
    requires Valid(s)
    ensures Valid(MenuKey(s, key, catalog))
  {
    match key
    case Enter => SelectedValid(s, catalog);
    case Backspace =>
      if |s.pathParts| > 0 {
        var h := s.history[HistoryKey(s.pathParts) := s.selected];
        var parent := s.pathParts[..|s.pathParts| - 1];
        RefreshedValid(s.(history := h, pathParts := parent, selected := Restore(h, HistoryKey(parent)), theme := "green"), catalog);
      }
    case _ =>
  }

  /** toggleSpecialAccess drops a raised level to 0. Among search results
      nothing else changes; otherwise the viewer is left for the menu, whose
      selection is pulled back onto the files shown at level 0. Toggling
      again does nothing. */
  lemma ToggledSpec(s: NavState, catalog: seq<string> -> Listing)
    ensures var t := Toggled(s, catalog);
            && (s.access == 0 ==> t == s)
            && (s.access > 0 && s.isSearchMode ==> t == s.(access := 0))
            && (s.access > 0 && !s.isSearchMode ==>
                  && t == s.(access := 0, mode := MenuMode, selected := t.selected)
                  && (match catalog(s.pathParts)
                      case Files(files) =>
                        var n := |VisibleFiles(files, 0)|;
                        t.selected == if s.selected > n - 1 then LastSlot(n) else s.selected
                      case _ => t.selected == s.selected))
            && Toggled(t, catalog) == t
  {
  }

  lemma DotValid(s: NavState, catalog: seq<string> -> Listing)
    requires Valid(s)
    ensures Valid(DotPressed(s, catalog))
  {
  }

  lemma SearchKeyValid(s: NavState, key: Key, catalog: seq<string> -> Listing)
    requires Valid(s)
    ensures Valid(SearchKey(s, key, catalog))
  {
    match key
    case Dot => DotValid(s, catalog);
    case Enter =>
      if s.selected == 0 {
        RefreshedValid(s.(isSearchMode := false, searchResults := [], pathParts := [], selected := 0, theme := "green"), catalog);
      }
    case Backspace =>
      RefreshedValid(s.(isSearchMode := false, searchResults := [], pathParts := [], selected := 0, theme := "green"), catalog);
    case _ =>
  }

  lemma DialogValid(s: NavState, key: Key, input: string, index: seq<IndexEntry>, catalog: seq<string> -> Listing)
    requires Valid(s) && (s.commandOpen || s.searchOpen)
    ensures Valid(Step(s, key, input, index, catalog))
  {
    if s.commandOpen && key == Enter && CommandLevel(input) > 0 {
      RefreshedValid(s.(access := CommandLevel(input), commandOpen := false), catalog);
    }
  }

  /** No key makes a selection negative or sets a theme the page does not
      know. */
  lemma StepKeepsValid(s: NavState, key: Key, input: string, index: seq<IndexEntry>, catalog: seq<string> -> Listing)
    requires Valid(s)
    ensures Valid(Step(s, key, input, index, catalog))
  {
    var t := Step(s, key, input, index, catalog);
    if s.commandOpen || s.searchOpen {
      DialogValid(s, key, input, index, catalog);
    } else if s.isSearchMode && s.mode.MenuMode? {
      assert t == SearchKey(s, key, catalog);
      SearchKeyValid(s, key, catalog);
    } else if key == Dot && !s.isSearchMode && s.mode.MenuMode? {
      assert t == DotPressed(s, catalog);
      DotValid(s, catalog);
    } else if s.mode.FileMode? {
      assert t == FileKey(s, key, catalog);
      DotValid(s, catalog);
    } else {
      assert t == MenuKey(s, key, catalog);
      MenuKeyValid(s, key, catalog);
    }
  }
}
