/**
 * The end of build-manifest.js: printStats, which reports the statistics
 * gathered by the scan as console lines, and main, which scans the `db`
 * directory and reports. Each `console.log` call is one element of the
 * line sequence, with the newlines its argument carries.
 */
module BuildReport {
  import opened Maybe
  import opened Text
  import opened Tags
  import opened Fs
  import opened ManifestBuilder
  import opened ManifestFacts

  // ---------------------------------------------------------------------------
  // The report, as a function of the statistics

  const Banner := "\n=== Build Statistics ==="
  const NoneFound := "  (none found)"
  const Closing := "========================\n"

  /** The count a file type has; a type the statistics lack has none. */
  function TypeCount(c: Counts, t: string): nat {
    if t in c.fileTypes then c.fileTypes[t] else 0
  }

  function TypeLine(t: string, count: nat): string {
    "  - " + Upper(t) + ": " + NatStr(count)
  }

  /** The lines for `types`, in order, leaving out the types with no file. */
  function TypeLines(c: Counts, types: seq<string>): seq<string> {
    if types == [] then []
    else
      (if TypeCount(c, types[0]) > 0 then [TypeLine(types[0], TypeCount(c, types[0]))] else [])
      + TypeLines(c, types[1..])
  }

  /** The `levelMap` table of printLevels: internal level to displayed level. */
  function LevelMap(i: nat): nat
    requires 1 <= i <= 6
  {
    if i == 1 then 6
    else if i == 2 then 9
    else if i == 3 then 10
    else if i == 4 then 11
    else if i == 5 then 12
    else 13
  }

  function LevelLine(i: nat, prefix: string, count: nat): string
    requires 1 <= i <= 6
  {
    "  - Level " + NatStr(LevelMap(i)) + " (" + prefix + [Digit(i)] + "): " + NatStr(count)
  }

  /** The report's table is the one the page uses to display access levels. */
  lemma LevelMapIsAccessLevel(i: nat)
    requires 1 <= i <= 6
    ensures LevelMap(i) == AccessLevel(i)
    ensures i == 1 ==> LevelMap(i) == 6
    ensures 2 <= i ==> LevelMap(i) == i + 7
  {
  }

  /** The lines for the buckets i..6 of a histogram that are not empty. */
  function LevelLines(t: Tally, prefix: string, i: nat): seq<string>
    requires 1 <= i <= 7 && |t.levels| == 7
    decreases 7 - i
  {
    if i == 7 then []
    else
      (if t.levels[i] > 0 then [LevelLine(i, prefix, t.levels[i])] else [])
      + LevelLines(t, prefix, i + 1)
  }

  function SectionHeader(title: string, total: nat): string {
    "\n" + title + " total: " + NatStr(total)
  }

  /** printLevels(title, data, prefix): nothing for an empty histogram. */
  function Section(title: string, t: Tally, prefix: string): seq<string>
    requires |t.levels| == 7
  {
    if t.total == 0 then [] else [SectionHeader(title, t.total)] + LevelLines(t, prefix, 1)
  }

  function Header(c: Counts): seq<string> {
    [Banner, "Total folders: " + NatStr(c.folders), "Total files: " + NatStr(c.files), "Files by type:"]
  }

  function TypeSection(c: Counts): seq<string> {
    var lines := TypeLines(c, TrackedTypes);
    if lines == [] then [NoneFound] else lines
  }

  /** The lines between the header and the closing rule. */
  function Body(c: Counts): seq<string>
    requires Shaped(c)
  {
    TypeSection(c)
    + Section("Hidden folders", c.hiddenFolders, "hidden")
    + Section("Hidden files", c.hiddenFiles, "hidden")
    + Section("Locked files", c.lockedFiles, "locked")
  }

  /** Everything printStats writes, in order. */
  function Report(c: Counts): seq<string>
    requires Shaped(c)
  {
    Header(c) + Body(c) + [Closing]
  }

  // ---------------------------------------------------------------------------
  // printStats, as the script performs it

  /** printLevels */
  method PrintLevels(title: string, data: Tally, prefix: string) returns (lines: seq<string>)
    requires |data.levels| == 7
    ensures lines == Section(title, data, prefix)
  {
    lines := [];
    if data.total == 0 {
      return;
    }
    lines := [SectionHeader(title, data.total)];
    var i := 1;
    while i <= 6
      invariant 1 <= i <= 7
      invariant lines + LevelLines(data, prefix, i) == Section(title, data, prefix)
    {
      ghost var rest := LevelLines(data, prefix, i + 1);
      if data.levels[i] > 0 {
        var line := LevelLine(i, prefix, data.levels[i]);
        AppendAssoc(lines, [line], rest);
        lines := lines + [line];
      } else {
        EmptyAppend(rest);
      }
      i := i + 1;
    }
  }

  /** The loop over `Object.entries(stats.fileTypes)`, taken in the order
      `types` lists them: the lines written, and whether there was one. */
  method PrintTypes(c: Counts, types: seq<string>) returns (lines: seq<string>, hasTypes: bool)
    ensures lines == TypeLines(c, types)
    ensures hasTypes <==> lines != []
  {
    lines := [];
    hasTypes := false;
    var k := 0;
    while k < |types|
      invariant 0 <= k <= |types|
      invariant lines == TypeLines(c, types[..k])
      invariant hasTypes <==> lines != []
    {
      var t := types[k];
      var count := if t in c.fileTypes then c.fileTypes[t] else 0;
      TypeLinesSplit(c, types[..k], [t]);
      assert types[..k + 1] == types[..k] + [t];
      if count > 0 {
        lines := lines + [TypeLine(t, count)];
        hasTypes := true;
      }
      k := k + 1;
    }
    assert types[..k] == types;
  }

  /** printStats: the lines it writes for the statistics in `stats`. */
  method PrintStats(stats: Stats) returns (lines: seq<string>)
    requires stats.Valid()
    ensures lines == Report(stats.Snapshot())
  {
    ghost var c := stats.Snapshot();
    var head := [Banner, "Total folders: " + NatStr(stats.totalFolders), "Total files: " + NatStr(stats.totalFiles), "Files by type:"];
    assert head == Header(c);
    var typeLines, hasTypes := PrintTypes(stats.Snapshot(), TrackedTypes);
    var typeSection := typeLines;
    if !hasTypes {
      typeSection := typeSection + [NoneFound];
    }
    assert typeSection == TypeSection(c);
    var hiddenFolders := PrintLevels("Hidden folders", stats.hiddenFolders, "hidden");
    var hiddenFiles := PrintLevels("Hidden files", stats.hiddenFiles, "hidden");
    var lockedFiles := PrintLevels("Locked files", stats.lockedFiles, "locked");
    var body := typeSection + hiddenFolders + hiddenFiles + lockedFiles;
    assert body == Body(c);
    lines := head + body + [Closing];
  }

  lemma {:induction false} TypeLinesSplit(c: Counts, a: seq<string>, b: seq<string>)
    ensures TypeLines(c, a + b) == TypeLines(c, a) + TypeLines(c, b)
  {
    if a != [] {
      SplitOffHead(a, b);
      TypeLinesSplit(c, a[1..], b);
      var h := if TypeCount(c, a[0]) > 0 then [TypeLine(a[0], TypeCount(c, a[0]))] else [];
      AppendAssoc(h, TypeLines(c, a[1..]), TypeLines(c, b));
    } else {
      EmptyAppend(b);
      EmptyAppend(TypeLines(c, b));
    }
  }

  /** main(): without a `db` directory the build stops with an error and
      writes nothing; otherwise it writes the manifest of `db` and prints the
      report of the statistics the scan gathered. */
  method RunBuild(db: Option<Dir>) returns (r: Option<(Node, seq<string>)>)
    ensures db.None? ==> r.None?
    ensures db.Some? ==> r.Some? && r.value.0 == ScanNode(db.value, "db", InitialCounts, ParseFolder, ParseFile).0
    ensures db.Some? ==> r.Some? && r.value.1 == Report(ScanNode(db.value, "db", InitialCounts, ParseFolder, ParseFile).1)
  {
    if db.None? {
      return None;
    }
    var stats := new Stats();
    var manifest := ScanDir(stats, db.value, "db", ParseFolder, ParseFile);
    var lines := PrintStats(stats);
    return Some((manifest, lines));
  }

  // ---------------------------------------------------------------------------
  // What the report says

  /** A list line: `  - ` followed by the item. */
  predicate Bullet(line: string) {
    |line| >= 4 && line[..4] == "  - "
  }

  /** A line printLevels writes: a title line, which starts a new paragraph,
      or a bucket line. */
  predicate SectionLine(line: string) {
    Bullet(line) || (|line| > 0 && line[0] == '\n')
  }

  lemma TypeLineBullet(t: string, count: nat)
    ensures Bullet(TypeLine(t, count))
  {
    assert TypeLine(t, count)[..4] == "  - ";
  }

  lemma LevelLineBullet(i: nat, prefix: string, count: nat)
    requires 1 <= i <= 6
    ensures Bullet(LevelLine(i, prefix, count))
  {
    assert LevelLine(i, prefix, count)[..4] == "  - ";
  }

  /** A type is listed exactly when it has a file, in the order given, and
      the listing is empty exactly when no type has one. */
  lemma {:induction false} TypeLinesSpec(c: Counts, types: seq<string>)
    ensures forall line <- TypeLines(c, types) :: Bullet(line)
    ensures TypeLines(c, types) == [] <==> forall k :: 0 <= k < |types| ==> TypeCount(c, types[k]) == 0
    ensures forall k :: 0 <= k < |types| && TypeCount(c, types[k]) > 0 ==>
              TypeLine(types[k], TypeCount(c, types[k])) in TypeLines(c, types)
  {
    if types != [] {
      TypeLinesSpec(c, types[1..]);
      TypeLineBullet(types[0], TypeCount(c, types[0]));
      forall k | 1 <= k < |types| && TypeCount(c, types[k]) > 0
        ensures TypeLine(types[k], TypeCount(c, types[k])) in TypeLines(c, types)
      {
        assert types[k] == types[1..][k - 1];
      }
      if TypeLines(c, types) == [] {
        forall k | 0 <= k < |types| ensures TypeCount(c, types[k]) == 0 {
          if k > 0 {
            assert types[k] == types[1..][k - 1];
          }
        }
      }
    }
  }

  /** The bucket lines are the non-empty buckets from `i` on: each such bucket
      has its line, with its displayed level, and every line is one of them. */
  lemma {:induction false} LevelLinesSpec(t: Tally, prefix: string, i: nat)
    requires 1 <= i <= 7 && |t.levels| == 7
    ensures forall line <- LevelLines(t, prefix, i) :: Bullet(line)
    ensures forall j :: i <= j <= 6 && t.levels[j] > 0 ==> LevelLine(j, prefix, t.levels[j]) in LevelLines(t, prefix, i)
    ensures forall line <- LevelLines(t, prefix, i) ::
              exists j :: i <= j <= 6 && t.levels[j] > 0 && line == LevelLine(j, prefix, t.levels[j])
    ensures LevelLines(t, prefix, i) == [] <==> forall j :: i <= j <= 6 ==> t.levels[j] == 0
    decreases 7 - i
  {
    if i <= 6 {
      LevelLinesSpec(t, prefix, i + 1);
      LevelLineBullet(i, prefix, t.levels[i]);
      var rest := LevelLines(t, prefix, i + 1);
      var h := if t.levels[i] > 0 then [LevelLine(i, prefix, t.levels[i])] else [];
      assert LevelLines(t, prefix, i) == h + rest;
      forall line | line in h + rest
        ensures exists j :: i <= j <= 6 && t.levels[j] > 0 && line == LevelLine(j, prefix, t.levels[j])
      {
        if line in h {
          assert line == LevelLine(i, prefix, t.levels[i]);
        }
      }
    }
  }

  lemma {:induction false} SumZero(s: seq<nat>)
    ensures Sum(s) == 0 <==> forall k :: 0 <= k < |s| ==> s[k] == 0
  {
    if s != [] {
      SumZero(s[1..]);
      assert forall k :: 1 <= k < |s| ==> s[k] == s[1..][k - 1];
    }
  }

  /** A histogram is reported exactly when one of its levels 1..6 has an
      entry, and then every line of its section is a title or bucket line. */
  lemma SectionSpec(title: string, t: Tally, prefix: string)
    requires t.WellFormed()
    ensures Section(title, t, prefix) != [] <==> exists j :: 1 <= j <= 6 && t.levels[j] > 0
    ensures forall line <- Section(title, t, prefix) :: SectionLine(line)
  {
    SumZero(t.levels);
    LevelLinesSpec(t, prefix, 1);
    if t.total > 0 {
      assert !(forall k :: 0 <= k < 7 ==> t.levels[k] == 0);
    }
  }

  lemma SectionLines(title: string, t: Tally, prefix: string)
    requires |t.levels| == 7
    ensures forall line <- Section(title, t, prefix) :: SectionLine(line)
  {
    LevelLinesSpec(t, prefix, 1);
  }

  /** "(none found)" is printed exactly when no tracked type has a file. */
  lemma NoneFoundSpec(c: Counts)
    requires Shaped(c)
    ensures NoneFound in Report(c) <==> forall k :: 0 <= k < |TrackedTypes| ==> TypeCount(c, TrackedTypes[k]) == 0
  {
    TypeLinesSpec(c, TrackedTypes);
    SectionLines("Hidden folders", c.hiddenFolders, "hidden");
    SectionLines("Hidden files", c.hiddenFiles, "hidden");
    SectionLines("Locked files", c.lockedFiles, "locked");
    assert NoneFound[2] == '(' && NoneFound[0] == ' ';
    assert !SectionLine(NoneFound);
    assert !Bullet(NoneFound);
    assert NoneFound !in Header(c) by {
      assert ("Total folders: " + NatStr(c.folders))[0] == 'T';
      assert ("Total files: " + NatStr(c.files))[0] == 'T';
    }
  }

  /** The report opens with the banner and the two totals and ends with the
      closing rule. */
  lemma ReportFrame(c: Counts)
    requires Shaped(c)
    ensures |Report(c)| >= 6
    ensures Report(c)[0] == Banner && Report(c)[|Report(c)| - 1] == Closing
    ensures Report(c)[1] == "Total folders: " + NatStr(c.folders)
    ensures Report(c)[2] == "Total files: " + NatStr(c.files)
  {
    Framed(Header(c), Body(c), Closing);
  }

  lemma Framed<T>(h: seq<T>, b: seq<T>, z: T)
    ensures |h + b + [z]| == |h| + |b| + 1
    ensures forall k :: 0 <= k < |h| ==> (h + b + [z])[k] == h[k]
    ensures (h + b + [z])[|h| + |b|] == z
  {
  }

  /** The statistics start well formed: the four tracked types, and empty
      histograms. */
  lemma InitialWellFormed()
    ensures WellFormedCounts(InitialCounts)
  {
    assert (set t | t in TrackedTypes) == {"txt", "md", "png", "mp3"};
  }

  /** The report of a build counts what the manifest holds: the folder total
      is the number of nodes; the hidden-folder section appears exactly when
      some folder link, at any depth, is hidden; the histograms stay well
      formed. */
  lemma BuildReportCounts(d: Dir, pf: Entry -> FolderInfo, pl: Entry -> FileInfo)
    ensures var r := ScanNode(d, "db", InitialCounts, pf, pl);
            && WellFormedCounts(r.1)
            && Report(r.1)[1] == "Total folders: " + NatStr(NodeCount(r.0))
            && (Section("Hidden folders", r.1.hiddenFolders, "hidden") != [] <==> HiddenCount(r.0) > 0)
  {
    ScanNodeCounts(d, "db", InitialCounts, pf, pl);
    ReportFrame(ScanNode(d, "db", InitialCounts, pf, pl).1);
    InitialWellFormed();
    ScanNodeWellFormed(d, "db", InitialCounts, pf, pl);
  }
}
