/**
 * The catalog's tag micro-language: a raw label "name:tag:tag,tag" is split at
 * its first colon into a display name and a list of tags; graded `hiddenN` /
 * `lockedN` tags give an entry its hidden and locked level, and a colour tag
 * gives a folder its theme. script.js and build-manifest.js carry the same
 * code twice; it is defined once here.
 */
module Tags {
  import opened Maybe
  import opened Text

  // ---------------------------------------------------------------------------
  // Raw entries, as they appear in folders.json / files.json

  /** One element of a descriptor array: a bare label string, an object with
      `label` and/or `name` string fields, or any other JSON value (number,
      boolean, array), on which both fields read as undefined. */
  datatype Entry =
    | Plain(text: string)
    | Record(labelField: Option<string>, nameField: Option<string>)
    | OtherValue

  /** `v || w` on optional strings: the empty string and a missing field are falsy. */
  function OrElse(v: Option<string>, w: string): string {
    if v.Some? && v.value != "" then v.value else w
  }

  /** The text a folder entry is parsed from: `label`, then `name`, then ''. */
  function FolderText(e: Entry): (s: string)
    ensures e.Plain? ==> s == e.text
    ensures e.Record? && e.labelField.Some? && e.labelField.value != "" ==> s == e.labelField.value
    ensures e.Record? && !(e.labelField.Some? && e.labelField.value != "") ==>
              s == if e.nameField.Some? then e.nameField.value else ""
    ensures e.OtherValue? ==> s == ""
  {
    match e
    case Plain(t) => t
    case Record(lbl, nm) => OrElse(lbl, OrElse(nm, ""))
    case OtherValue => ""
  }

  /** The text a file entry is parsed from: `name`, then `label`, then ''. */
  function FileText(e: Entry): (s: string)
    ensures e.Plain? ==> s == e.text
    ensures e.Record? && e.nameField.Some? && e.nameField.value != "" ==> s == e.nameField.value
    ensures e.Record? && !(e.nameField.Some? && e.nameField.value != "") ==>
              s == if e.labelField.Some? then e.labelField.value else ""
    ensures e.OtherValue? ==> s == ""
  {
    match e
    case Plain(t) => t
    case Record(lbl, nm) => OrElse(nm, OrElse(lbl, ""))
    case OtherValue => ""
  }

  // ---------------------------------------------------------------------------
  // parseTags

  /** `pieces.map(p => p.trim()).filter(Boolean)` */
  function TrimmedPieces(pieces: seq<string>): seq<string> {
    if pieces == [] then []
    else
      var t := Trim(pieces[0]);
      (if t == "" then [] else [t]) + TrimmedPieces(pieces[1..])
  }

  /** The loop of parseTags over the non-empty, trimmed colon parts. */
  function ExpandParts(parts: seq<string>): seq<string> {
    if parts == [] then []
    else
      var part := parts[0];
      (if ',' in part then TrimmedPieces(Split(part, ','))
       else if part != "" then [part]
       else [])
      + ExpandParts(parts[1..])
  }

  /** parseTags: split on ':', trim, drop empties, then split the parts that
      hold a comma on ','. */
  function ParseTags(s: string): seq<string> {
    ExpandParts(TrimmedPieces(Split(s, ':')))
  }

  /** A well-formed tag: non-empty, already trimmed, free of both separators. */
  predicate CleanTag(t: string) {
    t != "" && Trim(t) == t && ':' !in t && ',' !in t
  }

  predicate AllClean(tags: seq<string>) {
    forall i :: 0 <= i < |tags| ==> CleanTag(tags[i])
  }

  predicate SeparatorFree(pieces: seq<string>) {
    forall i :: 0 <= i < |pieces| ==> ':' !in pieces[i] && ',' !in pieces[i]
  }

  /** Reference reading of the grammar: cut the text at every ':' and every ',',
      in one pass. */
  function Fields(s: string): (parts: seq<string>)
    ensures |parts| >= 1
  {
    if s == [] then [""]
    else
      var rest := Fields(s[1..]);
      if s[0] == ':' || s[0] == ',' then [""] + rest else [[s[0]] + rest[0]] + rest[1..]
  }

  /** Splitting each ':'-segment on ',' and concatenating. */
  function CommaPieces(segments: seq<string>): seq<string> {
    if segments == [] then [] else Split(segments[0], ',') + CommaPieces(segments[1..])
  }

  lemma FieldsColon(r: string)
    ensures Fields([':'] + r) == [""] + Fields(r)
    ensures Split([':'] + r, ':') == [""] + Split(r, ':')
  {
    assert ([':'] + r)[1..] == r;
  }

  lemma FieldsOther(c: char, r: string)
    requires c != ':'
    ensures var segs := Split(r, ':');
            Split([c] + r, ':') == [[c] + segs[0]] + segs[1..]
  {
    assert ([c] + r)[1..] == r;
  }

  lemma CommaPiecesCons(seg: string, segs: seq<string>)
    ensures CommaPieces([seg] + segs) == Split(seg, ',') + CommaPieces(segs)
  {
    assert ([seg] + segs)[1..] == segs;
  }

  lemma CommaPiecesLeadingComma(seg: string, segs: seq<string>)
    ensures CommaPieces([[','] + seg] + segs) == [""] + CommaPieces([seg] + segs)
  {
    CommaPiecesCons([','] + seg, segs);
    CommaPiecesCons(seg, segs);
    SplitCons(',', seg, ',');
  }

  /** Replacing the head of `p` commutes with appending `rest`. */
  lemma HeadAppend<T>(x: T, p: seq<T>, rest: seq<T>)
    requires |p| >= 1
    ensures ([x] + p[1..]) + rest == [x] + (p + rest)[1..]
    ensures (p + rest)[0] == p[0]
  {
    assert (p + rest)[1..] == p[1..] + rest;
  }

  lemma CommaPiecesLeadingChar(c: char, seg: string, segs: seq<string>)
    requires c != ','
    ensures CommaPieces([[c] + seg] + segs) ==
              [[c] + CommaPieces([seg] + segs)[0]] + CommaPieces([seg] + segs)[1..]
  {
    CommaPiecesCons([c] + seg, segs);
    CommaPiecesCons(seg, segs);
    SplitCons(c, seg, ',');
    var p := Split(seg, ',');
    HeadAppend([c] + p[0], p, CommaPieces(segs));
  }

  lemma {:induction false} FieldsAreCommaPieces(s: string)
    ensures Fields(s) == CommaPieces(Split(s, ':'))
  {
    if s == [] {
      CommaPiecesCons("", []);
    } else {
      var r := s[1..];
      assert s == [s[0]] + r;
      FieldsAreCommaPieces(r);
      var segs := Split(r, ':');
      assert segs == [segs[0]] + segs[1..];
      if s[0] == ':' {
        FieldsColon(r);
        CommaPiecesCons("", segs);
      } else {
        FieldsOther(s[0], r);
        if s[0] == ',' {
          CommaPiecesLeadingComma(segs[0], segs[1..]);
        } else {
          CommaPiecesLeadingChar(s[0], segs[0], segs[1..]);
        }
      }
    }
  }

  lemma {:induction false} TrimmedPiecesAppend(a: seq<string>, b: seq<string>)
    ensures TrimmedPieces(a + b) == TrimmedPieces(a) + TrimmedPieces(b)
  {
    if a != [] {
      SplitOffHead(a, b);
      TrimmedPiecesAppend(a[1..], b);
      var t := Trim(a[0]);
      var h: seq<string> := if t == "" then [] else [t];
      AppendAssoc(h, TrimmedPieces(a[1..]), TrimmedPieces(b));
    } else {
      EmptyAppend(b);
    }
  }

  /** The head and tail of a concatenation with a non-empty left part. */
  lemma SplitOffHead<T>(a: seq<T>, b: seq<T>)
    requires a != []
    ensures (a + b)[0] == a[0] && (a + b)[1..] == a[1..] + b
  {
  }

  lemma AppendAssoc<T>(x: seq<T>, y: seq<T>, z: seq<T>)
    ensures x + (y + z) == (x + y) + z
  {
  }

  lemma EmptyAppend<T>(b: seq<T>)
    ensures [] + b == b
  {
  }

  lemma {:induction false} ExpandAppend(a: seq<string>, b: seq<string>)
    ensures ExpandParts(a + b) == ExpandParts(a) + ExpandParts(b)
  {
    if a != [] {
      SplitOffHead(a, b);
      ExpandAppend(a[1..], b);
      var part := a[0];
      var h := if ',' in part then TrimmedPieces(Split(part, ','))
               else if part != "" then [part]
               else [];
      AppendAssoc(h, ExpandParts(a[1..]), ExpandParts(b));
    } else {
      EmptyAppend(b);
    }
  }

  /** Two lists whose elements trim alike give the same trimmed pieces. */
  lemma {:induction false} TrimmedPiecesAgree(a: seq<string>, b: seq<string>)
    requires |a| == |b|
    requires forall i :: 0 <= i < |a| ==> Trim(a[i]) == Trim(b[i])
    ensures TrimmedPieces(a) == TrimmedPieces(b)
  {
    if a != [] {
      TrimmedPiecesAgree(a[1..], b[1..]);
    }
  }

  lemma PadLast(p: seq<string>, w: string)
    requires |p| >= 1 && AllSpace(w)
    ensures TrimmedPieces(ExtendLast(p, w)) == TrimmedPieces(p)
  {
    var q := ExtendLast(p, w);
    forall i | 0 <= i < |p| ensures Trim(q[i]) == Trim(p[i]) {
      PadLastPiece(p, w, i);
    }
    TrimmedPiecesAgree(q, p);
  }

  lemma PadLastPiece(p: seq<string>, w: string, i: nat)
    requires i < |p| && AllSpace(w)
    ensures Trim(ExtendLast(p, w)[i]) == Trim(p[i])
  {
    var q := ExtendLast(p, w);
    if i == |p| - 1 {
      assert q[i] == "" + p[i] + w;
      TrimPadded("", p[i], w);
    } else {
      assert q[i] == p[i];
    }
  }

  lemma PadFirst(p: seq<string>, w: string)
    requires |p| >= 1 && AllSpace(w)
    ensures TrimmedPieces([w + p[0]] + p[1..]) == TrimmedPieces(p)
  {
    var q := [w + p[0]] + p[1..];
    forall i | 0 <= i < |p| ensures Trim(q[i]) == Trim(p[i]) {
      PadFirstPiece(p, w, i);
    }
    TrimmedPiecesAgree(q, p);
  }

  lemma PadFirstPiece(p: seq<string>, w: string, i: nat)
    requires 1 <= |p| && i < |p| && AllSpace(w)
    ensures Trim(([w + p[0]] + p[1..])[i]) == Trim(p[i])
  {
    var q := [w + p[0]] + p[1..];
    if i == 0 {
      assert q[i] == w + p[0] + "";
      TrimPadded(w, p[0], "");
    } else {
      assert q[i] == p[i];
    }
  }

  /** Whitespace around a segment only lands on its first and last comma piece,
      where trimming removes it again. */
  lemma PaddedCommaPieces(w1: string, t: string, w2: string)
    requires AllSpace(w1) && AllSpace(w2)
    ensures TrimmedPieces(Split(w1 + t + w2, ',')) == TrimmedPieces(Split(t, ','))
  {
    assert ',' !in w1 && ',' !in w2 by {
      assert !IsSpace(',');
    }
    var p := Split(t, ',');
    SplitSuffixFree(t, w2, ',');
    var q := ExtendLast(p, w2);
    SplitPrefixFree(w1, t + w2, ',');
    assert w1 + t + w2 == w1 + (t + w2);
    PadFirst(q, w1);
    PadLast(p, w2);
  }

  lemma SegmentTagsEmpty()
    ensures TrimmedPieces(Split("", ',')) == []
  {
    assert Split("", ',') == [""];
    assert TrimmedPieces([""]) == [] + TrimmedPieces([]);
  }

  lemma SegmentTagsPlain(t: string)
    requires t != "" && Trim(t) == t && ',' !in t
    ensures TrimmedPieces(Split(t, ',')) == [t]
    ensures ExpandParts([t]) == [t]
  {
    SplitFree(t, ',');
    assert TrimmedPieces([t]) == [t] + TrimmedPieces([]);
    assert ExpandParts([t]) == [t] + ExpandParts([]);
  }

  lemma SegmentTagsComma(t: string)
    requires ',' in t
    ensures ExpandParts([t]) == TrimmedPieces(Split(t, ','))
  {
    assert ExpandParts([t]) == TrimmedPieces(Split(t, ',')) + ExpandParts([]);
  }

  /** What one ':'-segment contributes to parseTags. */
  lemma SegmentTags(seg: string)
    ensures var t := Trim(seg);
            TrimmedPieces(Split(seg, ',')) ==
              ExpandParts(if t == "" then [] else [t])
  {
    var t := Trim(seg);
    var w1, w2 := TrimSplits(seg);
    PaddedCommaPieces(w1, t, w2);
    if t == "" {
      SegmentTagsEmpty();
    } else if ',' in t {
      SegmentTagsComma(t);
    } else {
      TrimIdempotent(seg);
      SegmentTagsPlain(t);
    }
  }

  lemma {:induction false} ExpandCommaPieces(segs: seq<string>)
    ensures TrimmedPieces(CommaPieces(segs)) == ExpandParts(TrimmedPieces(segs))
  {
    if segs != [] {
      ExpandCommaPieces(segs[1..]);
      TrimmedPiecesAppend(Split(segs[0], ','), CommaPieces(segs[1..]));
      SegmentTags(segs[0]);
      var t := Trim(segs[0]);
      var head := if t == "" then [] else [t];
      assert TrimmedPieces(segs) == head + TrimmedPieces(segs[1..]);
      ExpandAppend(head, TrimmedPieces(segs[1..]));
    }
  }

  /** parseTags cuts the text at every ':' and every ',', trims each piece and
      drops the empty ones, keeping order and duplicates. */
  lemma ParseTagsIsFieldSplit(s: string)
    ensures ParseTags(s) == TrimmedPieces(Fields(s))
  {
    FieldsAreCommaPieces(s);
    ExpandCommaPieces(Split(s, ':'));
  }

  /** Every tag parseTags yields is non-empty, trimmed, and free of ':' and ','. */
  lemma ParseTagsClean(s: string)
    ensures AllClean(ParseTags(s))
  {
    ParseTagsIsFieldSplit(s);
    FieldsFree(s);
    FieldsCleanPieces(Fields(s));
  }

  lemma {:induction false} FieldsFree(s: string)
    ensures SeparatorFree(Fields(s))
  {
    if s != [] {
      var rest := Fields(s[1..]);
      FieldsFree(s[1..]);
      var f := Fields(s);
      if s[0] == ':' || s[0] == ',' {
        assert f == [""] + rest;
        forall i | 1 <= i < |f| ensures ':' !in f[i] && ',' !in f[i] {
          assert f[i] == rest[i - 1];
        }
      } else {
        var head := [s[0]] + rest[0];
        assert f == [head] + rest[1..];
        assert ':' !in head && ',' !in head;
        forall i | 1 <= i < |f| ensures ':' !in f[i] && ',' !in f[i] {
          assert f[i] == rest[i];
        }
      }
    }
  }

  /** Trimming a separator-free piece leaves a clean tag unless it empties it. */
  lemma CleanPiece(p: string)
    requires ':' !in p && ',' !in p && Trim(p) != ""
    ensures CleanTag(Trim(p))
  {
    TrimIdempotent(p);
    TrimKeeps(p, ':');
    TrimKeeps(p, ',');
  }

  lemma AllCleanAppend(a: seq<string>, b: seq<string>)
    requires AllClean(a) && AllClean(b)
    ensures AllClean(a + b)
  {
    forall i | 0 <= i < |a + b| ensures CleanTag((a + b)[i]) {
      if i < |a| {
        assert (a + b)[i] == a[i];
      } else {
        assert (a + b)[i] == b[i - |a|];
      }
    }
  }

  lemma {:induction false} FieldsCleanPieces(pieces: seq<string>)
    requires SeparatorFree(pieces)
    ensures AllClean(TrimmedPieces(pieces))
  {
    if pieces != [] {
      assert SeparatorFree(pieces[1..]) by {
        forall i | 0 <= i < |pieces[1..]| ensures ':' !in pieces[1..][i] && ',' !in pieces[1..][i] {
          assert pieces[1..][i] == pieces[i + 1];
        }
      }
      FieldsCleanPieces(pieces[1..]);
      var t := Trim(pieces[0]);
      if t != "" {
        CleanPiece(pieces[0]);
      }
      var head := if t == "" then [] else [t];
      assert AllClean(head);
      AllCleanAppend(head, TrimmedPieces(pieces[1..]));
    }
  }

  // ---------------------------------------------------------------------------
  // Splitting a label at its first colon

  datatype Label = Label(name: string, tags: seq<string>)

  /** The common head of parseFolder and parseFile: without a colon the whole
      text is the name, untrimmed, and there are no tags; otherwise the name is
      the trimmed text before the first colon and the tags are parsed from the
      rest. */
  function SplitLabel(str: string): (l: Label)
    ensures ':' !in str ==> l == Label(str, [])
  {
    LabelAt(str, IndexOf(str, ':'))
  }

  /** The label read with its first colon at `i`, or with none when `i` is -1. */
  function LabelAt(str: string, i: int): Label
    requires -1 <= i < |str|
  {
    if i == -1 then Label(str, []) else Label(Trim(str[..i]), ParseTags(str[i + 1..]))
  }

  /** With its first colon at `i`, a label is the trimmed text before the
      colon and the tags of the text after it. */
  lemma SplitLabelAtFirstColon(str: string, i: nat)
    requires i < |str| && str[i] == ':' && ':' !in str[..i]
    ensures SplitLabel(str) == Label(Trim(str[..i]), ParseTags(str[i + 1..]))
  {
    IndexOfFirst(str, ':', i);
  }

  lemma LabelAtClean(str: string, i: int)
    requires 0 <= i < |str| && ':' !in str[..i]
    ensures ':' !in LabelAt(str, i).name
    ensures Trim(LabelAt(str, i).name) == LabelAt(str, i).name
    ensures AllClean(LabelAt(str, i).tags)
  {
    NameClean(str[..i]);
    ParseTagsClean(str[i + 1..]);
  }

  /** With a colon present, the name is trimmed and colon-free, and the tags
      are clean. */
  lemma SplitLabelClean(str: string)
    requires ':' in str
    ensures ':' !in SplitLabel(str).name
    ensures Trim(SplitLabel(str).name) == SplitLabel(str).name
    ensures AllClean(SplitLabel(str).tags)
  {
    LabelAtClean(str, IndexOf(str, ':'));
  }

  lemma NameClean(x: string)
    requires ':' !in x
    ensures ':' !in Trim(x) && Trim(Trim(x)) == Trim(x)
  {
    TrimIdempotent(x);
    TrimKeeps(x, ':');
  }

  /** Writes a label back as text: the name, then each tag after a colon. */
  function FormatLabel(l: Label): string {
    if l.tags == [] then l.name else l.name + ":" + Join(l.tags, ":")
  }

  /** A label that the text form carries without loss. */
  predicate Representable(l: Label) {
    && ':' !in l.name
    && (l.tags != [] ==> Trim(l.name) == l.name)
    && AllClean(l.tags)
  }

  lemma {:induction false} TrimmedPiecesOfClean(pieces: seq<string>)
    requires forall i :: 0 <= i < |pieces| ==> pieces[i] != "" && Trim(pieces[i]) == pieces[i]
    ensures TrimmedPieces(pieces) == pieces
  {
    if pieces != [] {
      TrimmedPiecesOfClean(pieces[1..]);
    }
  }

  lemma {:induction false} ExpandCommaFree(parts: seq<string>)
    requires forall i :: 0 <= i < |parts| ==> parts[i] != "" && ',' !in parts[i]
    ensures ExpandParts(parts) == parts
  {
    if parts != [] {
      ExpandCommaFree(parts[1..]);
    }
  }

  /** Parsing the text form of a representable label gives the label back. */
  lemma LabelRoundTrip(l: Label)
    requires Representable(l)
    ensures SplitLabel(FormatLabel(l)) == l
  {
    if l.tags != [] {
      var rest := Join(l.tags, ":");
      var str := l.name + ":" + rest;
      var i := |l.name|;
      assert str[i] == ':';
      assert str[..i] == l.name;
      assert IndexOf(str, ':') == i;
      assert str[i + 1..] == rest;
      SplitJoin(l.tags, ':');
      TrimmedPiecesOfClean(l.tags);
      ExpandCommaFree(l.tags);
    }
  }

  // ---------------------------------------------------------------------------
  // Levels

  /** `keyword + i`, e.g. "hidden3". */
  function Graded(keyword: string, i: nat): string
    requires i <= 9
  {
    keyword + [Digit(i)]
  }

  /** The first graded tag found scanning i, i+1, …, 6, or 0. */
  function FirstGradedFrom(tags: seq<string>, keyword: string, i: nat): (r: nat)
    requires 1 <= i
    ensures r == 0 || i <= r <= 6
    decreases 7 - i
  {
    if i > 6 then 0
    else if Graded(keyword, i) in tags then i
    else FirstGradedFrom(tags, keyword, i + 1)
  }

  /** hiddenLevel / lockedLevel: the lowest graded level present, else 1 for
      the bare keyword, else 0. */
  function Level(tags: seq<string>, keyword: string): (r: nat)
    ensures r <= 6
  {
    var g := FirstGradedFrom(tags, keyword, 1);
    if g == 0 && keyword in tags then 1 else g
  }

  predicate HasGraded(tags: seq<string>, keyword: string) {
    exists i :: 1 <= i <= 6 && Graded(keyword, i) in tags
  }

  lemma {:induction false} FirstGradedFromSpec(tags: seq<string>, keyword: string, i: nat)
    requires 1 <= i <= 7
    ensures var g := FirstGradedFrom(tags, keyword, i);
            && (g == 0 || i <= g <= 6)
            && (g == 0 <==> forall j :: i <= j <= 6 ==> Graded(keyword, j) !in tags)
            && (g != 0 ==> Graded(keyword, g) in tags && forall j :: i <= j < g ==> Graded(keyword, j) !in tags)
    decreases 7 - i
  {
    if i <= 6 && Graded(keyword, i) !in tags {
      FirstGradedFromSpec(tags, keyword, i + 1);
    }
  }

  /** The level is in 0..6 and is the least graded level present; failing
      that, 1 when the bare keyword is present, else 0. */
  lemma LevelSpec(tags: seq<string>, keyword: string)
    ensures 0 <= Level(tags, keyword) <= 6
    ensures HasGraded(tags, keyword) ==>
              var r := Level(tags, keyword);
              1 <= r && Graded(keyword, r) in tags &&
              forall j :: 1 <= j < r ==> Graded(keyword, j) !in tags
    ensures !HasGraded(tags, keyword) ==>
              Level(tags, keyword) == (if keyword in tags then 1 else 0)
  {
    FirstGradedFromSpec(tags, keyword, 1);
  }

  /** The scan of parseFolder/parseFile: `for (i = 1; i <= 6; i++) if
      (tags.includes(kw + i)) { level = i; break; }`, then the bare keyword. */
  method ScanLevel(tags: seq<string>, keyword: string) returns (level: nat)
    ensures level == Level(tags, keyword)
  {
    level := 0;
    var i := 1;
    while i <= 6
      invariant 1 <= i <= 7
      invariant level == 0
      invariant FirstGradedFrom(tags, keyword, 1) == FirstGradedFrom(tags, keyword, i)
    {
      if Graded(keyword, i) in tags {
        level := i;
        break;
      }
      i := i + 1;
    }
    if keyword in tags && level == 0 {
      level := 1;
    }
  }

  /** getActualAccessLevel: internal level 1..6 to the displayed access level. */
  function AccessLevel(level: int): (r: int)
    ensures level == 0 ==> r == 0
    ensures 1 <= level <= 6 ==> 6 <= r <= 13
    ensures (level < 0 || level > 6) ==> r == level
  {
    if level == 0 then 0
    else if level == 1 then 6
    else if level == 2 then 9
    else if level == 3 then 10
    else if level == 4 then 11
    else if level == 5 then 12
    else if level == 6 then 13
    else level
  }

  /** The table is strictly increasing on 0..6, so distinct levels display differently. */
  lemma AccessLevelIncreasing(a: int, b: int)
    requires 0 <= a < b <= 6
    ensures AccessLevel(a) < AccessLevel(b)
  {
  }

  // ---------------------------------------------------------------------------
  // Themes

  const ThemeNames: set<string> :=
    {"red", "red2", "red3", "orange", "yellow", "green", "cyan", "blue", "purple", "pink", "white"}

  /** The lowercased first tag naming a theme colour, or None. */
  function ThemeOf(tags: seq<string>): (r: Option<string>)
    ensures r.Some? ==> r.value in ThemeNames
    ensures r.None? <==> forall t <- tags :: Lower(t) !in ThemeNames
  {
    if tags == [] then None
    else if Lower(tags[0]) in ThemeNames then Some(Lower(tags[0]))
    else ThemeOf(tags[1..])
  }

  /** The theme comes from the first tag that names one: `tags.find(...)`. */
  lemma {:induction false} ThemeOfIsFirst(tags: seq<string>, i: nat)
    requires i < |tags| && Lower(tags[i]) in ThemeNames
    requires forall j :: 0 <= j < i ==> Lower(tags[j]) !in ThemeNames
    ensures ThemeOf(tags) == Some(Lower(tags[i]))
  {
    if i > 0 {
      assert Lower(tags[0]) !in ThemeNames;
      var rest := tags[1..];
      assert forall j :: 0 <= j < i - 1 ==> Lower(rest[j]) !in ThemeNames by {
        forall j | 0 <= j < i - 1 ensures Lower(rest[j]) !in ThemeNames {
          assert rest[j] == tags[j + 1];
        }
      }
      ThemeOfIsFirst(rest, i - 1);
    }
  }

  // ---------------------------------------------------------------------------
  // parseFolder / parseFile

  /** A hidden or locked level: 0 for none, else 1..6. */
  type Grade = n: nat | n <= 6

  datatype FolderInfo = FolderInfo(name: string, theme: Option<string>, hiddenLevel: Grade) {
    predicate IsHidden() { hiddenLevel > 0 }
  }

  datatype FileInfo = FileInfo(name: string, hiddenLevel: Grade, lockedLevel: Grade) {
    predicate IsHidden() { hiddenLevel > 0 }
    predicate IsLocked() { lockedLevel > 0 }
  }

  function ParseFolder(e: Entry): FolderInfo {
    var l := SplitLabel(FolderText(e));
    FolderInfo(l.name, ThemeOf(l.tags), Level(l.tags, "hidden"))
  }

  function ParseFile(e: Entry): FileInfo {
    var l := SplitLabel(FileText(e));
    FileInfo(l.name, Level(l.tags, "hidden"), Level(l.tags, "locked"))
  }

  /** A parsed folder: its name and tags come from the label as SplitLabel
      reads it, its levels lie in 0..6 and its theme is a theme name. */
  lemma ParseFolderSpec(e: Entry)
    ensures var f := ParseFolder(e);
            var l := SplitLabel(FolderText(e));
            && f.name == l.name
            && 0 <= f.hiddenLevel <= 6
            && (f.theme.Some? ==> f.theme.value in ThemeNames)
            && (':' !in FolderText(e) ==> f.name == FolderText(e) && f.hiddenLevel == 0 && f.theme.None?)
  {
    LevelSpec(SplitLabel(FolderText(e)).tags, "hidden");
  }

  lemma ParseFileSpec(e: Entry)
    ensures var f := ParseFile(e);
            && f.name == SplitLabel(FileText(e)).name
            && 0 <= f.hiddenLevel <= 6 && 0 <= f.lockedLevel <= 6
            && (':' !in FileText(e) ==> f.name == FileText(e) && f.hiddenLevel == 0 && f.lockedLevel == 0)
  {
    var tags := SplitLabel(FileText(e)).tags;
    LevelSpec(tags, "hidden");
    LevelSpec(tags, "locked");
  }

  // ---------------------------------------------------------------------------
  // Access policy

  /** `!isHidden || hiddenLevel <= specialAccessLevel` */
  predicate Visible(hiddenLevel: nat, access: nat) {
    hiddenLevel == 0 || hiddenLevel <= access
  }

  /** `!isLocked || lockedLevel <= specialAccessLevel` */
  predicate Unlocked(lockedLevel: nat, access: nat) {
    lockedLevel == 0 || lockedLevel <= access
  }

  /** Raising the special access level never hides or locks anything. */
  lemma AccessMonotone(level: nat, a: nat, b: nat)
    requires a <= b
    ensures Visible(level, a) ==> Visible(level, b)
    ensures Unlocked(level, a) ==> Unlocked(level, b)
  {
  }
}
