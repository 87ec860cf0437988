# Catalog browser: tag language, manifests, search and navigator

This project models the core of a static "terminal-style" catalog browser and
its two manifest builders, and proves properties of the model.

The catalog is a tree of directories. Each directory may carry a
`folders.json` and a `files.json` descriptor, arrays of raw labels such as
`"Reports:hidden2,red"`.

- **Tag language** (`Tags`). A label is split at its first colon into a
  display name and a tag list. Graded `hiddenN` / `lockedN` tags give an
  entry its hidden and locked level (0..6). A colour tag gives a folder its
  theme. Levels 1..6 are displayed as access levels 6, 9, 10, 11, 12, 13.
  `script.js` and `build-manifest.js` carry the same helpers; they are
  defined once here.
- **Manifest builder with statistics** (`ManifestBuilder`, `ManifestFacts`,
  `BuildReport`). This is `build-manifest.js`. It walks the tree, links every
  `folders.json` entry whose directory exists, and maps every `files.json`
  entry. While doing so it counts folders, files, tracked file types and
  hidden or locked entries per level into one `Stats` object. It then prints
  the statistics report.
- **Plain manifest** (`PlainManifest`, `Sorting`). This is
  `tools/build-manifest.js`. It builds the tree from the directory listing
  alone, skips dot-names, and sorts folders by `localeCompare` and files by
  UTF-16 code units.
- **Search index** (`SearchIndex`). `flattenManifest` turns a manifest into a
  flat list of file entries in pre-order. `performSearch` is an exact,
  case-insensitive match of the trimmed query against each entry's base
  name.
- **Navigator** (`Menu`, `Navigator`, `Page`). This is the page's keyboard
  state machine, covering:
  - the menu's slots: a RETURN slot first below the root and a SEARCH slot
    last at the root;
  - access filtering, and the `codeN` command that raises the access level;
  - the `.` toggle;
  - search results mode and the file viewer;
  - the per-path history of selections.

  `Navigator` states every transition as a function on a `NavState` value.
  `Page.Browser` keeps the same state in fields, and each of its handlers is
  proved to perform exactly that transition.

The file system, the fetched JSON and the listing of a path are inputs:
- an abstract directory tree (`Fs.Dir`) whose descriptor files carry their
  already parsed content;
- a parsed manifest (`SearchIndex.CatalogNode`);
- a function `catalog` from a path to its listing (`Menu.Listing`).

The model follows the code in these places:
- `build-manifest.js` keeps folders in `folders.json` order and does not sort
  them (build-manifest.js:110-124).
- A `null` entry in `files.json` makes the `map` throw. The files counted
  before it stay counted, but the node's file list stays empty
  (build-manifest.js:140-168).
- `flattenManifest` reads nodes of the shape `{name, folders, files}`, which
  is what `tools/build-manifest.js` writes. On the `{original, parsed, sub}`
  links that `build-manifest.js` writes, it would read every folder name as
  `''` and reach no nested file (script.js:193-216).

## Model

| member | source | states |
|---|---|---|
| Tags.FolderText | script.js:55 | a folder entry is read from its `label`, else its `name`, else `''`; a bare string is read as is |
| Tags.FileText | script.js:84 | a file entry is read from its `name`, else its `label`, else `''`; a bare string is read as is |
| Tags.ParseTagsIsFieldSplit | script.js:40-52 | parseTags equals cutting the text at every `:` and every `,`, trimming each piece and dropping empty ones, in order and keeping duplicates |
| Tags.ParseTagsClean | script.js:40-52 | every tag is non-empty, trimmed, and free of `:` and `,` |
| Tags.SplitLabel | script.js:56-64 | without a colon, the name is the whole text, untrimmed, and there are no tags |
| Tags.SplitLabelAtFirstColon | script.js:56-64 | with its first colon at `i`, the name is the trimmed text before `i` and the tags are parseTags of the text after it |
| Tags.SplitLabelClean | script.js:56-64 | with a colon present, the name is trimmed and colon-free and every tag is clean |
| Tags.LabelRoundTrip | script.js:40-64 | parsing `name:tag:…:tag` of a clean label gives that label back |
| Tags.LevelSpec | script.js:68-77 | the level is in 0..6; it is the least N with `keywordN` among the tags; failing that, 1 for the bare keyword; else 0 |
| Tags.ScanLevel | script.js:95-115 | the `for` loop with `break`, then the bare-keyword check, computes exactly that level |
| Tags.AccessLevel | script.js:123-132 | 0 maps to 0, levels 1..6 map into 6..13, every other value maps to itself |
| Tags.AccessLevelIncreasing | script.js:123-132 | the table is strictly increasing on 0..6 |
| BuildReport.LevelMapIsAccessLevel | build-manifest.js:193 | the report's level table is the page's access-level table on 1..6: 1 shows as 6 and N as N + 7 above it |
| Tags.ThemeOf | script.js:66 | the theme is a known theme name; it is absent exactly when no tag, lowercased, names one |
| Tags.ThemeOfIsFirst | script.js:66 | the theme is the lowercased first tag that names a theme |
| Tags.ParseFolderSpec | build-manifest.js:20-47 | the name comes from the label; the hidden level is in 0..6; the theme is a known name; a label without a colon has no theme and level 0 |
| Tags.ParseFileSpec | build-manifest.js:50-85 | the name comes from the label; both levels are in 0..6; a label without a colon is neither hidden nor locked |
| Tags.AccessMonotone | script.js:639 | raising the access level never hides or locks an entry that was shown or unlocked |
| Fs.LookupDirSpec | build-manifest.js:112-113 | a subfolder is found exactly when its name is a direct child that is a directory; the first such entry is used |
| Fs.DescriptorAbsent | build-manifest.js:104 | a directory with no descriptor file contributes no entries |
| Fs.DescriptorFirst | build-manifest.js:104-109 | entries come only from a readable, non-blank, valid JSON array; every other content contributes none |
| ManifestBuilder.Stats.constructor | build-manifest.js:88-95 | the statistics start at zero, with the four tracked types and seven empty buckets per histogram |
| ManifestBuilder.Stats.VisitFolder | build-manifest.js:98 | exactly the folder total grows by one |
| ManifestBuilder.Stats.CountFolder | build-manifest.js:114-117 | only a hidden folder counts, in its total and its level's bucket |
| ManifestBuilder.Stats.CountFile | build-manifest.js:142-157 | the file total, the tracked type of the extension, and the hidden and locked histograms are updated as `WithFile` says |
| ManifestBuilder.ScanDir | build-manifest.js:97-172 | the node built and the statistics left are those of the recursive specification `ScanNode` |
| ManifestBuilder.ScanFolderEntries | build-manifest.js:104-130 | the `forEach` over `folders.json` builds the links and counts of `ScanFolders` |
| ManifestBuilder.ScanFileEntries | build-manifest.js:134-169 | the `map` over `files.json` yields the links and counts of `ScanFiles`, and says whether the list was assigned |
| ManifestBuilder.SumBump | build-manifest.js:116 | bumping one bucket raises the sum of the buckets by one |
| ManifestBuilder.AddKeepsWellFormed | build-manifest.js:115-116 | adding an entry keeps total equal to the sum of the buckets and bucket 0 empty, and changes only its own bucket |
| ManifestFacts.ScanNodeCounts | build-manifest.js:98-121 | the folder total grows by the number of nodes built; the hidden-folder total by the hidden links at every depth; the file total by at least the file links |
| ManifestFacts.ScanFoldersCounts | build-manifest.js:110-124 | the same three counts, for the links a `folders.json` yields |
| ManifestFacts.ScanFilesCounts | build-manifest.js:140-163 | the file total grows by one per entry mapped; the folder counters are untouched |
| ManifestFacts.ScanNodeWellFormed | build-manifest.js:114-157 | every histogram keeps its total equal to the sum of levels 1..6 with `levels[0] == 0`, and the tracked types stay the four keys |
| ManifestFacts.ScanFoldersWellFormed | build-manifest.js:110-124 | the same, across a `folders.json` |
| ManifestFacts.ScanFilesWellFormed | build-manifest.js:140-163 | the same, across a `files.json` |
| ManifestFacts.WithFileWellFormed | build-manifest.js:142-157 | counting one file keeps the statistics well formed |
| ManifestFacts.WithFolderWellFormed | build-manifest.js:114-117 | counting one hidden folder keeps the statistics well formed |
| ManifestFacts.ScanFoldersOrder | build-manifest.js:110-124 | the links are the `folders.json` entries whose directory exists, in file order and unsorted; each is parsed by the folder parser |
| ManifestFacts.ScanFilesOrder | build-manifest.js:140-163 | the file links are the `files.json` entries before the first `null`, one for one and in file order, each parsed by the file parser; the list is complete exactly when `files.json` holds no `null` |
| ManifestFacts.LinksAppend | build-manifest.js:118-122 | the counts of a list of links add up link by link |
| BuildReport.PrintLevels | build-manifest.js:189-200 | the lines printed for one histogram are its `Section`: nothing for a zero total, else the header and one line per non-zero level |
| BuildReport.PrintTypes | build-manifest.js:179-186 | one line per tracked type with a non-zero count, in key order; `hasTypes` is set exactly when a line was printed |
| BuildReport.PrintStats | build-manifest.js:174-207 | the printed lines are the `Report` of the statistics |
| BuildReport.RunBuild | build-manifest.js:209-224 | without a `db` directory nothing is built; otherwise the manifest and report are those of `ScanNode` from the initial statistics |
| BuildReport.TypeLinesSpec | build-manifest.js:180-185 | every type line is a bullet; there are none exactly when every tracked count is 0; each non-zero type has its line |
| BuildReport.LevelLinesSpec | build-manifest.js:194-198 | the level lines are exactly the non-zero buckets, each labelled with the display level and `prefixN` |
| BuildReport.SectionSpec | build-manifest.js:190 | a category is printed exactly when one of its levels 1..6 is non-zero |
| BuildReport.NoneFoundSpec | build-manifest.js:186 | "(none found)" appears exactly when no tracked type has a file |
| BuildReport.ReportFrame | build-manifest.js:175-177 | the report opens with the banner and the two totals and closes with the closing rule |
| BuildReport.SumZero | build-manifest.js:190 | a total of zero means every bucket is zero |
| BuildReport.InitialWellFormed | build-manifest.js:88-95 | the initial statistics are well formed |
| BuildReport.BuildReportCounts | build-manifest.js:174-224 | the reported folder total is the number of manifest nodes, and the hidden-folder section appears exactly when the manifest holds a hidden folder |
| PlainManifest.ScanDir | tools/build-manifest.js:4-20 | the node returned is `PlainScan` of the directory |
| PlainManifest.Build | tools/build-manifest.js:22-32 | without `db` nothing is built; otherwise the manifest is the scan of `db` |
| PlainManifest.VisibleFiles | tools/build-manifest.js:8-13 | no file name kept starts with a dot |
| PlainManifest.VisibleSubdirs | tools/build-manifest.js:8-11 | every subdirectory kept is a directory not starting with a dot |
| PlainManifest.CollectKeeps | tools/build-manifest.js:7-15 | the loop keeps exactly the visible regular files, and scans exactly the visible subdirectories, in directory order |
| PlainManifest.PlainScanFiles | tools/build-manifest.js:13-18 | a node's files are a permutation of the visible file names, sorted by UTF-16 code units |
| PlainManifest.PlainScanFolders | tools/build-manifest.js:11-17 | a node's folders are a permutation of the subdirectory scans, sorted by a consistent `localeCompare` |
| PlainManifest.PlainScanNoHidden | tools/build-manifest.js:8 | no name starting with a dot appears anywhere in the manifest |
| PlainManifest.CollectNoHidden | tools/build-manifest.js:8 | the same, for what the loop gathers |
| Sorting.SortBySorted | tools/build-manifest.js:17-18 | with a total preorder, the sort orders every element before every later one |
| Sorting.SortByPermutes | tools/build-manifest.js:17-18 | the sort loses, adds and duplicates nothing |
| Sorting.InsertTies | tools/build-manifest.js:17-18 | inserting an element that is ordered before everything it ties with puts it in front of the elements it ties with |
| Sorting.SortByStable | tools/build-manifest.js:17-18 | with a transitive order the sort is stable: the elements that tie with any given value keep their input order |
| Sorting.CodeUnitOrderTotalPreorder | tools/build-manifest.js:18 | `sort()`'s default order is total and transitive |
| Sorting.CodeUnitOrderNotCodePoint | tools/build-manifest.js:18 | the default order compares code units: U+FF5E sorts after U+1F600 |
| SearchIndex.Index.constructor | script.js:22-23 | the index starts empty and not built |
| SearchIndex.Index.FlattenManifest | script.js:193-216 | the entries appended are `Flatten` of the node: its files first, then each subfolder's entries under `path/name` |
| SearchIndex.Index.FlattenFolders | script.js:210-215 | the loop over the folders appends each subfolder's `Flatten` under `path/name`, in folder order |
| SearchIndex.Index.PushFiles | script.js:197-207 | the file loop appends one entry per file, in order |
| SearchIndex.Index.Build | script.js:168-189 | the index is built once; from a manifest with a name it is `Flatten(manifest, "")`, else the fallback list |
| SearchIndex.BaseNameSpec | script.js:204 | the base name is the name up to, and without, its first dot; a name without a dot is its own base name |
| SearchIndex.FlattenCount | script.js:193-216 | the index holds one entry per file of the catalog, at every depth |
| SearchIndex.FlattenFilesFirst | script.js:197-207 | a node's own files come first, in order, under the node's path |
| SearchIndex.FlattenPlaced | script.js:193-216 | every entry's path starts with the path of the node flattened and ends with its name, and its base name is computed from that name |
| SearchIndex.FlattenReaches | script.js:193-216 | every file of every folder below the node, reached by any route of subfolders, has its entry in the index, with path `PathBase` of the nested path (each step `path + '/' + name`, no `/` after an empty path) followed by the file name |
| SearchIndex.FolderEntriesHas | script.js:210-215 | the entries of subfolder `j` are among those the folder loop has appended once it has passed `j` |
| SearchIndex.MatchingMembers | script.js:584-586 | the filter keeps exactly the entries whose lowercased base name equals the term, each as often as it occurs in the index, in index order |
| SearchIndex.MatchingCounts | script.js:584-586 | each entry occurs in the results as often as in the index when its lowercased base name is the term, and not at all otherwise |
| SearchIndex.MatchingInOrder | script.js:584-586 | the results are a subsequence of the index |
| SearchIndex.LookupSpec | script.js:572-587 | a blank query finds nothing; otherwise an entry is found exactly when its lowercased base name equals the trimmed, lowercased query, as often as it occurs in the index; the results keep index order |
| SearchIndex.LookupPadded | script.js:578-582 | whitespace around the query changes nothing |
| SearchIndex.LookupIgnoresCase | script.js:582-586 | queries that agree up to letter case find the same entries |
| Menu.LoadListing | script.js:252-263 | folders exactly when the folders array is non-empty; files exactly when it is not and the files array is non-empty; else nothing; one entry per array element |
| Menu.CountVisible | script.js:1047-1054 | the counting loop gives `VisibleCount`, the number of folders shown at the access level |
| Menu.FindVisible | script.js:1124-1137 | the loop with `break` gives `NthVisible`, the index of the chosen visible folder |
| Menu.NthVisibleSpec | script.js:1124-1137 | the index found is a shown folder with exactly `v` shown folders before it; none is found exactly when `v` is negative or at least the number shown |
| Menu.FindFromSpec | script.js:1128-1136 | the same, for the scan from any position |
| Menu.VisibleCountPrefix | script.js:1049-1054 | a prefix of the folders never shows more than the whole |
| Menu.VisibleCountMonotone | script.js:1051 | raising the access level never shows fewer folders |
| Menu.VisibleFilesMonotone | script.js:1063 | raising the access level never shows fewer files |
| Menu.VisibleFilesSpec | script.js:1061-1064 | the files shown are exactly the listed files that pass the access test, each as often as it is listed |
| Menu.VisibleFilesAt | script.js:1061-1064 | slot `k` of the file menu holds a listed file that passes the access test and has exactly `k` shown files before it in the listing |
| Menu.Clamp | script.js:453 | the result lies in `[min, max]`, equals `n` when `n` already does, and is the nearest bound otherwise |
| Menu.MenuSize | script.js:1047-1069 | a folder menu has one slot more than the folders shown (RETURN below the root, SEARCH at the root); a file menu one slot per file shown |
| Menu.JoinSnoc | script.js:1090-1093 | the key of a child path is the parent's key, `/` and the name |
| Menu.ChildKeyDiffers | script.js:1151-1155 | a child's history key differs from its parent's, unless it is a nameless folder directly under the root |
| Navigator.CommandLevelSpec | script.js:508-522 | a command unlocks level N exactly when, trimmed and lowercased, it reads `codeN` for N in 1..6; otherwise it unlocks nothing |
| Navigator.LevelFromSpec | script.js:510-519 | the same, for the loop from any N |
| Navigator.LastIndexOf | script.js:950-951 | the result is the last position of the character, or -1 when it is absent |
| Navigator.MovedBounds | script.js:1071-1080 | an arrow key keeps `selected` in `[0, max(0, n-1)]`, moves it by exactly one when that slot exists, and changes neither the path nor the history |
| Navigator.SearchMoveBounds | script.js:932-941 | among search results, the selection stays between slot 0 and the last result |
| Navigator.DescendedSpec | script.js:1139-1158 | opening a folder stores `history[currentKey] = selected`, pushes exactly its name, and takes up the child's stored selection or 0, pulled back onto a shorter file list |
| Navigator.DescendThenBack | script.js:1088-1096 | Backspace after opening a folder returns to the same path with the same selection |
| Navigator.SelectedSlots | script.js:1101-1159 | SEARCH opens the search dialog; RETURN pops the path with `selected = 0` and stores nothing; slot v opens the v-th shown folder; a slot off the menu does nothing |
| Navigator.SelectedFile | script.js:1160-1171 | Enter on file slot `selected` opens the listed, shown file with exactly `selected` shown files before it, in the current folder, and changes nothing else; off the list it does nothing |
| Navigator.FolderOfSpec | script.js:950-954 | the folder part of `dir + name` is `dir` when the name holds no `/` |
| Navigator.OpenedResultFolder | script.js:950-955 | opening a search result views it in the folder its index path names |
| Navigator.StepKeepsValid | script.js:895-1098 | no key makes a current or stored selection negative, or sets a theme the page does not know |
| Navigator.RefreshedValid | script.js:1205 | the refresh clamp keeps the selection non-negative |
| Navigator.SelectedValid | script.js:1101-1171 | Enter keeps the state valid |
| Navigator.MenuKeyValid | script.js:1071-1098 | the menu keys keep the state valid |
| Navigator.SearchKeyValid | script.js:919-964 | the search-result keys keep the state valid |
| Navigator.ToggledSpec | script.js:524-540 | a raised level drops to 0; among search results nothing else changes; otherwise the viewer is left for the menu and the selection is pulled back onto the files shown at level 0; at level 0 nothing changes, so toggling twice is toggling once |
| Navigator.DotValid | script.js:524-540 | the `.` key keeps the state valid |
| Navigator.DialogValid | script.js:896-917 | the dialog keys keep the state valid |
| Page.Browser.constructor | script.js:4-26 | the page starts on the `?path=` segments with selection 0, no history, level 0, menu mode, the green theme |
| Page.Browser.ApplyTheme | script.js:155-157 | only a theme the page knows is taken up |
| Page.Browser.Refresh | script.js:1201-1206 | a file listing pulls `selected` back to its last file, or 0; nothing else changes |
| Page.Browser.ProcessCommand | script.js:508-522 | the loop over `code1`..`code6` returns true exactly for an accepted command and performs `AfterCommand` |
| Page.Browser.ToggleSpecialAccess | script.js:524-540 | the level drops to 0; the file viewer is left and the menu refreshed; search results stay |
| Page.Browser.PressDot | script.js:966-974 | `.` toggles a raised level off, or opens the command dialog |
| Page.Browser.PerformSearch | script.js:572-587 | the results become `Lookup(index, query)` |
| Page.Browser.EnterSearchResults | script.js:590-597 | search mode starts on slot 0 in the menu, with the dialog closed |
| Page.Browser.ExitSearchMode | script.js:599-606 | the path is emptied segment by segment, search mode and results are cleared, selection 0 and the green theme |
| Page.Browser.SearchKeyHandler | script.js:919-964 | the search-results branch of keyHandler performs `SearchKey` |
| Page.Browser.SelectFolder | script.js:1101-1159 | onSelect on a folder listing performs `Selected` |
| Page.Browser.OpenFolder | script.js:1139-1157 | the descent into a folder performs `Descended` |
| Page.Browser.OnSelect | script.js:1101-1171 | onSelect performs `Selected` |
| Page.Browser.MenuKeyHandler | script.js:1043-1098 | the menu branch of keyHandler performs `MenuKey` |
| Page.Browser.MoveSelection | script.js:1071-1080 | an arrow key in the menu performs `Moved` |
| Page.Browser.GoBack | script.js:1086-1098 | Backspace in the menu performs `WentBack` |
| Page.Browser.KeyHandler | script.js:895-1099 | keyHandler performs `Step`, and keeps a valid state valid |

## Left out

- The DOM and rendering: menus, highlighting, the search result list, the
  file viewer's content, the access indicator, the locked-image blur, the
  scrollbar, sounds, `renderMarkdown`, and `applyTheme`'s class write.
  `applyTheme`'s guard on known themes is kept.
- The audio player and its focus grid, and scrolling in the file viewer.
  These keys do nothing to the navigator state in the model.
- `fetchJSON` and `loadFolderManifests`. A path's listing is the parameter
  `catalog`, and `Menu.LoadListing` states the choice between folders and
  files. The async interleaving of handlers is not modelled; each key is
  handled to completion.
- The legacy `db.json` listing (root-only), and its branches in keyHandler,
  onSelect and refresh.
- `getAllFilesForSearch` and `getAllFilesForSearchFallback`. The fallback
  index is a parameter of `SearchIndex.Index.Build`.
- SearchIndex.Index.Build: the fallback list is a parameter of
  `IndexEntry` values, each with a `baseName`, and `Lookup` finds matches in
  it. The page's fallback entries carry only `path`, `name` and `parsed`
  (script.js:241-245). Over a non-empty fallback index, `performSearch`
  therefore throws at `f.baseName.toLowerCase()` (script.js:586) for every
  non-blank query: `searchResults` keeps its old value, and the Enter handler
  never reaches `enterSearchResults` (script.js:910-911). The model does not
  capture this failure.
- The lazy `buildSearchIndex` calls from `openSearchModal` and
  `performSearch`. `Page.Browser.PerformSearch` takes an index already built.
- Page.Browser.OnSelect: it recomputes the visible files instead of taking
  keyHandler's `visibleItems`. The argument is always that same filtered
  list (an empty array is truthy), so nothing is lost.
- URL decoding of the `?path=` parameter. The raw parameter text is an input.
- `fs`, `JSON.parse`, `console` output, `process.exit` and file writing in
  both builders.
  - A directory is `Fs.Dir`, and a descriptor's parse result is
    `Fs.Content`.
  - The printed report is a list of lines.
  - The warnings, the "Scanning"/"Wrote" lines and the JSON serialisation
    are not modelled.
- Folder names that `path.join` would resolve elsewhere (`''`, `.`, `..`, or
  names containing `/`) find no subdirectory. Symbolic links and other
  special entries are `Fs.Special`.
- Symbolic links to directories in `build-manifest.js`. `existsSync` and
  `statSync` follow links (build-manifest.js:112-113), so a linked directory
  is linked and scanned, and a link cycle recurses without end. The model
  treats every link as `Fs.Special`, which finds no subdirectory. This is
  right for `tools/build-manifest.js`, whose `Dirent` tests do not follow
  links (tools/build-manifest.js:10-12).
- `localeCompare` collation is a comparator parameter. Its ordering is
  assumed consistent where sortedness is stated.
- Text.Lower: lowercases ASCII letters only. `toLowerCase` also maps
  non-ASCII letters, so theme, command and search matching on non-ASCII text
  is not captured.
- The JavaScript quirk where `themeColors[t]` is truthy for prototype keys
  such as `constructor`. The theme table is an 11-name set.
- The same quirk in `navigationHistory`, a plain object (script.js:13) read
  with `!== undefined` (script.js:1094, 1155). A path key naming an
  `Object.prototype` member, such as `constructor` or `toString`, makes
  `selected` a function there. `Menu.Restore` gives 0 for every key not
  stored.
- Parsing the JSON manifest into `SearchIndex.CatalogNode`.
- Descriptor entries that make the page's parsers throw. A `null` entry
  throws at `entry.name` (script.js:55, 84). An object whose `label` or
  `name` is a truthy non-string throws at `str.indexOf` (script.js:56, 85).
  Inside `flattenManifest` such a throw sends `buildSearchIndex` to its
  fallback (script.js:174-188), which then replaces the entries pushed so far
  with its own list (script.js:249). The model's
  `Tags.Entry` has no such values. Other non-string values read as `''`, as
  `Tags.FileText` and `Tags.FolderText` state. In `build-manifest.js` the
  `null` file entry is modelled, as `Fs.Item.NullItem`.
- The manifest builders take the label parsers as function parameters.
  `BuildReport.RunBuild` and `Menu.LoadListing` instantiate them with
  `Tags.ParseFolder` and `Tags.ParseFile`.
