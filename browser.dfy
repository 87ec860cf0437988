/**
 * The page's navigator as the page keeps it: one object whose fields are
 * the navigation variables, and whose methods are the page's handlers.
 * Each method is proved to perform exactly the transition that `Navigator`
 * describes, so that every lemma there holds of the page.
 */
module Page {
  import opened Text
  import opened Tags
  import opened SearchIndex
  import opened Menu
  import opened Navigator

  class Browser {
    var pathParts: seq<string>
    var selected: int
    var navigationHistory: map<string, int>
    var specialAccessLevel: Grade
    var isSearchMode: bool
    var mode: Mode
    var searchResults: seq<IndexEntry>
    var currentTheme: string
    var commandOpen: bool
    var searchOpen: bool

    function State(): NavState
      reads this
    {
      NavState(pathParts, selected, navigationHistory, specialAccessLevel, isSearchMode, mode,
               searchResults, currentTheme, commandOpen, searchOpen)
    }

    /** The page loads on the path of its `?path=` parameter. */
    constructor(rawPath: string)
      ensures State() == Initial(rawPath)
      ensures Valid(State())
    {
      pathParts := if rawPath == "" then [] else NonEmpty(Split(rawPath, '/'));
      selected := 0;
      navigationHistory := map[];
      specialAccessLevel := 0;
      isSearchMode := false;
      mode := MenuMode;
      searchResults := [];
      currentTheme := "green";
      commandOpen := false;
      searchOpen := false;
    }

    /** applyTheme: only a theme the page knows is taken up. */
    method ApplyTheme(theme: string)
      modifies this
      ensures State() == old(State()).(theme := if theme in ThemeNames then theme else old(currentTheme))
    {
      if theme in ThemeNames {
        currentTheme := theme;
      }
    }

    /** refresh */
    method Refresh(catalog: seq<string> -> Listing)
      modifies this
      ensures State() == Refreshed(old(State()), catalog)
    {
      match catalog(pathParts)
      case Files(files) =>
        var visibleFiles := VisibleFiles(files, specialAccessLevel);
        if selected > |visibleFiles| - 1 {
          selected := LastSlot(|visibleFiles|);
        }
      case _ =>
    }

    method OpenCommandModal()
      modifies this
      ensures State() == old(State()).(commandOpen := true)
    {
      commandOpen := true;
    }

    method CloseCommandModal()
      modifies this
      ensures State() == old(State()).(commandOpen := false)
    {
      commandOpen := false;
    }

    method OpenSearchModal()
      modifies this
      ensures State() == old(State()).(searchOpen := true)
    {
      searchOpen := true;
    }

    method CloseSearchModal()
      modifies this
      ensures State() == old(State()).(searchOpen := false)
    {
      searchOpen := false;
    }

    method OpenFileViewer(name: string, folder: seq<string>, info: FileInfo)
      modifies this
      ensures State() == old(State()).(mode := FileMode(name, folder, info))
    {
      mode := FileMode(name, folder, info);
    }

    method CloseFileView()
      modifies this
      ensures State() == old(State()).(mode := MenuMode)
    {
      mode := MenuMode;
    }

    /** processCommand: tries `code1` to `code6` in turn. */
    method ProcessCommand(cmd: string, catalog: seq<string> -> Listing) returns (accepted: bool)
      modifies this
      ensures accepted <==> CommandLevel(cmd) > 0
      ensures State() == AfterCommand(old(State()), cmd, catalog)
    {
      var code := Lower(Trim(cmd));
      var i := 1;
      while i <= 6
        invariant 1 <= i <= 7
        invariant LevelFrom(code, i) == CommandLevel(cmd)
        invariant State() == old(State())
      {
        if code == "code" + [Digit(i)] {
          specialAccessLevel := i;
          CloseCommandModal();
          Refresh(catalog);
          return true;
        }
        i := i + 1;
      }
      CloseCommandModal();
      return false;
    }

    /** toggleSpecialAccess */
    method ToggleSpecialAccess(catalog: seq<string> -> Listing)
      modifies this
      ensures State() == Toggled(old(State()), catalog)
    {
      if specialAccessLevel > 0 {
        specialAccessLevel := 0;
        if isSearchMode {
        } else if mode.FileMode? {
          CloseFileView();
          Refresh(catalog);
        } else {
          Refresh(catalog);
        }
      }
    }

    /** The `.` key. */
    method PressDot(catalog: seq<string> -> Listing)
      modifies this
      ensures State() == DotPressed(old(State()), catalog)
    {
      if specialAccessLevel > 0 {
        ToggleSpecialAccess(catalog);
      } else {
        OpenCommandModal();
      }
    }

    /** performSearch, on an index already built. */
    method PerformSearch(index: seq<IndexEntry>, query: string)
      modifies this
      ensures State() == Searched(old(State()), index, query)
    {
      if Trim(query) == "" {
        searchResults := [];
        return;
      }
      var searchTerm := Lower(Trim(query));
      searchResults := Matching(index, searchTerm);
    }

    /** enterSearchResults */
    method EnterSearchResults()
      modifies this
      ensures State() == EnteredResults(old(State()))
    {
      CloseSearchModal();
      isSearchMode := true;
      selected := 0;
      mode := MenuMode;
    }

    /** exitSearchMode: empties the path segment by segment. */
    method ExitSearchMode(catalog: seq<string> -> Listing)
      modifies this
      ensures State() == ExitedSearch(old(State()), catalog)
    {
      isSearchMode := false;
      searchResults := [];
      while |pathParts| > 0
        invariant State() == old(State()).(isSearchMode := false, searchResults := [], pathParts := pathParts)
      {
        pathParts := pathParts[..|pathParts| - 1];
      }
      selected := 0;
      ApplyTheme("green");
      Refresh(catalog);
    }

    /** The search results branch of keyHandler. */
    method SearchKeyHandler(key: Key, catalog: seq<string> -> Listing)
      modifies this
      ensures State() == SearchKey(old(State()), key, catalog)
    {
      var n := |searchResults| + 1;
      match key
      case Dot =>
        PressDot(catalog);
      case Down =>
        var newSel := Clamp(selected + 1, 0, n - 1);
        if newSel != selected {
          selected := newSel;
        }
      case Up =>
        var newSel := Clamp(selected - 1, 0, n - 1);
        if newSel != selected {
          selected := newSel;
        }
      case Enter =>
        if selected == 0 {
          ExitSearchMode(catalog);
        } else if 1 <= selected <= |searchResults| {
          var file := searchResults[selected - 1];
          var folder := FolderOf(file.path);
          var parsed := file.parsed;
          OpenFileViewer(parsed.name, NonEmpty(Split(folder, '/')), parsed);
        }
      case Backspace =>
        ExitSearchMode(catalog);
      case _ =>
    }

    /** onSelect, for a folder listing. */
    method SelectFolder(folders: seq<FolderInfo>, catalog: seq<string> -> Listing)
      requires catalog(pathParts) == Folders(folders)
      modifies this
      ensures State() == Selected(old(State()), catalog)
    {
      var visibleFolderCount := CountVisible(folders, specialAccessLevel);
      if |pathParts| == 0 && selected == visibleFolderCount {
        OpenSearchModal();
        return;
      }
      if |pathParts| > 0 && selected == 0 {
        pathParts := pathParts[..|pathParts| - 1];
        selected := 0;
        ApplyTheme("green");
        Refresh(catalog);
        return;
      }
      var visibleIdx := if |pathParts| > 0 then selected - 1 else selected;
      var actualIdx := FindVisible(folders, specialAccessLevel, visibleIdx);
      if 0 <= actualIdx < |folders| {
        OpenFolder(folders[actualIdx], catalog);
      }
    }

    /** The descent of onSelect into the chosen folder. */
    method OpenFolder(parsed: FolderInfo, catalog: seq<string> -> Listing)
      modifies this
      ensures State() == Descended(old(State()), parsed, catalog)
    {
      if parsed.hiddenLevel > 0 {
        ApplyTheme("purple");
      } else if parsed.theme.Some? && parsed.theme.value != "" {
        ApplyTheme(parsed.theme.value);
      } else {
        ApplyTheme("green");
      }
      navigationHistory := navigationHistory[HistoryKey(pathParts) := selected];
      pathParts := pathParts + [parsed.name];
      selected := Restore(navigationHistory, HistoryKey(pathParts));
      Refresh(catalog);
    }

    /** onSelect */
    method OnSelect(catalog: seq<string> -> Listing)
      modifies this
      ensures State() == Selected(old(State()), catalog)
    {
      match catalog(pathParts)
      case Folders(folders) =>
        SelectFolder(folders, catalog);
      case Files(files) =>
        var visible := VisibleFiles(files, specialAccessLevel);
        if 0 <= selected < |visible| {
          OpenFileViewer(visible[selected].name, pathParts, visible[selected]);
        }
      case NoData =>
    }

    /** The menu branch of keyHandler: the arrows, Enter and Backspace. */
    method MenuKeyHandler(key: Key, catalog: seq<string> -> Listing)
      modifies this
      ensures State() == MenuKey(old(State()), key, catalog)
    {
      var n := 0;
      match catalog(pathParts) {
        case Folders(folders) =>
          var visibleCount := CountVisible(folders, specialAccessLevel);
          n := (if |pathParts| > 0 then 1 else 0) + visibleCount;
          if |pathParts| == 0 {
            n := n + 1;
          }
        case Files(files) =>
          n := |VisibleFiles(files, specialAccessLevel)|;
        case NoData =>
      }
      assert n == MenuSize(catalog(pathParts), |pathParts|, specialAccessLevel);
      match key
      case Down =>
        MoveSelection(1, n, catalog);
      case Up =>
        MoveSelection(-1, n, catalog);
      case Enter =>
        OnSelect(catalog);
      case Backspace =>
        GoBack(catalog);
      case _ =>
    }

    /** An arrow key in the menu, `n` the menu's size. */
    method MoveSelection(delta: int, n: nat, catalog: seq<string> -> Listing)
      requires n == MenuSize(catalog(pathParts), |pathParts|, specialAccessLevel)
      modifies this
      ensures State() == Moved(old(State()), delta, catalog)
    {
      var newSel := Clamp(selected + delta, 0, LastSlot(n));
      if newSel != selected {
        selected := newSel;
        Refresh(catalog);
      }
    }

    /** Backspace in the menu. */
    method GoBack(catalog: seq<string> -> Listing)
      modifies this
      ensures State() == WentBack(old(State()), catalog)
    {
      if |pathParts| > 0 {
        var currentPathKey := HistoryKey(pathParts);
        navigationHistory := navigationHistory[currentPathKey := selected];
        pathParts := pathParts[..|pathParts| - 1];
        var prevPathKey := HistoryKey(pathParts);
        selected := Restore(navigationHistory, prevPathKey);
        ApplyTheme("green");
        Refresh(catalog);
      }
    }

    /** keyHandler: `input` is the text of whichever dialog is open, `index`
        the search index. */
    method KeyHandler(key: Key, input: string, index: seq<IndexEntry>, catalog: seq<string> -> Listing)
      modifies this
      ensures State() == Step(old(State()), key, input, index, catalog)
      ensures Valid(old(State())) ==> Valid(State())
    {
      if Valid(State()) {
        StepKeepsValid(State(), key, input, index, catalog);
      }
      if commandOpen {
        if key == Enter {
          var _ := ProcessCommand(input, catalog);
        } else if key == Escape {
          CloseCommandModal();
        }
        return;
      }
      if searchOpen {
        if key == Enter {
          PerformSearch(index, input);
          EnterSearchResults();
        } else if key == Escape {
          CloseSearchModal();
        }
        return;
      }
      if isSearchMode && mode.MenuMode? {
        SearchKeyHandler(key, catalog);
        return;
      }
      if key == Dot && !isSearchMode && mode.MenuMode? {
        PressDot(catalog);
        return;
      }
      if mode.FileMode? {
        if key == Dot {
          PressDot(catalog);
        } else if key == Backspace {
          CloseFileView();
        }
        return;
      }
      MenuKeyHandler(key, catalog);
    }
  }
}
