/**
 * The part of the file system the manifest builders look at: a directory is
 * the list of its entries, each a subdirectory, a regular file or something
 * else (a link, a socket, a device). A regular file that may serve as a
 * `folders.json` / `files.json` descriptor carries its already-parsed content.
 */
module Fs {
  import opened Maybe
  import opened Tags

  /** One element of a descriptor array after `JSON.parse`: a value the parse
      helpers accept, or `null`, on which they throw. */
  datatype Item = Value(entry: Entry) | NullItem

  /** What reading and parsing a descriptor file yields. */
  datatype Content =
    | Unreadable          // readFileSync throws
    | Blank               // nothing but whitespace after trim()
    | Malformed           // JSON.parse throws
    | NonArray            // valid JSON, but not an array
    | JsonArray(items: seq<Item>)

  datatype Kind = Subdir(dir: Dir) | RegularFile(content: Content) | Special

  datatype DirEntry = DirEntry(name: string, kind: Kind)

  datatype Dir = Dir(entries: seq<DirEntry>)

  /** A name that `path.join(dir, name)` resolves to a direct child of `dir`. */
  predicate SimpleName(name: string) {
    name != "" && name != "." && name != ".." && '/' !in name
  }

  /** The index of the subdirectory `name` of `d`, if `fs.existsSync` and
      `isDirectory()` both hold for `path.join(dir, name)`. */
  function LookupDir(d: Dir, name: string): (r: Option<nat>)
    ensures r.Some? ==> r.value < |d.entries| && d.entries[r.value].kind.Subdir?
  {
    if SimpleName(name) then FindSubdir(d.entries, name, 0) else None
  }

  /** A subdirectory is found exactly when the name is simple and some entry
      of that name is a subdirectory; the first such entry is the one found. */
  lemma LookupDirSpec(d: Dir, name: string)
    ensures LookupDir(d, name).Some? ==>
              var k := LookupDir(d, name).value;
              && SimpleName(name) && d.entries[k].name == name
              && forall i :: 0 <= i < k ==> !(d.entries[i].name == name && d.entries[i].kind.Subdir?)
    ensures LookupDir(d, name).None? <==>
              !SimpleName(name) ||
              forall i :: 0 <= i < |d.entries| && d.entries[i].name == name ==> !d.entries[i].kind.Subdir?
  {
    if SimpleName(name) {
      FindSubdirSpec(d.entries, name, 0);
    }
  }

  function FindSubdir(entries: seq<DirEntry>, name: string, from: nat): (r: Option<nat>)
    requires from <= |entries|
    ensures r.Some? ==> from <= r.value < |entries| && entries[r.value].kind.Subdir?
    decreases |entries| - from
  {
    if from == |entries| then None
    else if entries[from].name == name && entries[from].kind.Subdir? then Some(from)
    else FindSubdir(entries, name, from + 1)
  }

  lemma {:induction false} FindSubdirSpec(entries: seq<DirEntry>, name: string, from: nat)
    requires from <= |entries|
    ensures FindSubdir(entries, name, from).Some? ==>
              var k := FindSubdir(entries, name, from).value;
              && entries[k].name == name
              && forall i :: from <= i < k ==> !(entries[i].name == name && entries[i].kind.Subdir?)
    ensures FindSubdir(entries, name, from).None? <==>
              forall i :: from <= i < |entries| && entries[i].name == name ==> !entries[i].kind.Subdir?
    decreases |entries| - from
  {
    if from < |entries| {
      FindSubdirSpec(entries, name, from + 1);
    }
  }

  /** The array a descriptor contributes: its items when the file exists, is
      readable, non-blank, valid JSON and an array; otherwise none. */
  function Descriptor(d: Dir, fileName: string): seq<Item> {
    DescriptorFrom(d.entries, fileName)
  }

  /** `fs.existsSync` finds the first entry of that name; only a regular file
      holding a JSON array yields items. */
  function DescriptorFrom(entries: seq<DirEntry>, fileName: string): seq<Item> {
    if entries == [] then []
    else if entries[0].name == fileName then
      match entries[0].kind
      case RegularFile(JsonArray(items)) => items
      case _ => []
    else DescriptorFrom(entries[1..], fileName)
  }

  /** A directory without an entry of that name contributes no items. */
  lemma {:induction false} DescriptorAbsent(entries: seq<DirEntry>, fileName: string)
    requires forall i :: 0 <= i < |entries| ==> entries[i].name != fileName
    ensures DescriptorFrom(entries, fileName) == []
  {
    if entries != [] {
      assert entries[0].name != fileName;
      DescriptorAbsent(entries[1..], fileName);
    }
  }

  /** The items come from the first entry of that name, and only when it is a
      regular file holding an array. */
  lemma {:induction false} DescriptorFirst(entries: seq<DirEntry>, fileName: string, k: nat)
    requires k < |entries| && entries[k].name == fileName
    requires forall i :: 0 <= i < k ==> entries[i].name != fileName
    ensures DescriptorFrom(entries, fileName) ==
              if entries[k].kind.RegularFile? && entries[k].kind.content.JsonArray?
              then entries[k].kind.content.items else []
  {
    if k > 0 {
      assert entries[0].name != fileName;
      DescriptorFirst(entries[1..], fileName, k - 1);
    }
  }
}
