/**
 * The archive-access layer of helper/zipService.py. An archive is the sequence
 * of its entries in stored order; what `zipfile` does with the container format
 * (compression, CRCs, `ZipInfo` metadata) is not part of this model. Text
 * decoding, `ET.parse`, `json.dumps` and text encoding are foreign and enter
 * as function parameters; whether the destination file can be created enters
 * as a flag.
 */
module ZipService {
  import opened Wrappers
  import opened PyStr
  import opened Xml
  import Sorting

  newtype byte = x: int | 0 <= x < 256

  datatype Entry = Entry(name: string, data: seq<byte>)

  /**
   * What lies at an archive path: nothing (`os.path.exists` is false), a file
   * `zipfile.ZipFile` cannot open, or a readable archive.
   */
  datatype ArchiveFile = Absent | Unreadable | Readable(entries: seq<Entry>)

  const DecodeErrorMessage := "Error: Could not decode file content."
  const NotFound := "NOT_FOUND"
  const DefaultConfigFileName := "config.json"

  /** `namelist()`: the entry names in stored order, repeats included. */
  function Names(entries: seq<Entry>): (names: seq<string>)
    ensures |names| == |entries|
    ensures forall i :: 0 <= i < |entries| ==> names[i] == entries[i].name
  {
    seq(|entries|, i requires 0 <= i < |entries| => entries[i].name)
  }

  /**
   * `open(name).read()` / `read(name)`: the content of the entry with that
   * name; when several entries share it, `zipfile`'s name index holds the last.
   */
  function Member(entries: seq<Entry>, name: string): (r: Option<seq<byte>>)
    ensures r.None? <==> name !in Names(entries)
    ensures r.Some? ==> exists i :: 0 <= i < |entries| && entries[i] == Entry(name, r.value)
                                   && forall j :: i < j < |entries| ==> entries[j].name != name
  {
    if |entries| == 0 then None
    else
      var n := |entries| - 1;
      if entries[n].name == name then Some(entries[n].data)
      else
        var r := Member(entries[..n], name);
        assert Names(entries) == Names(entries[..n]) + [entries[n].name];
        if r.Some? then
          ghost var i :| 0 <= i < n && entries[..n][i] == Entry(name, r.value)
                         && forall j :: i < j < n ==> entries[..n][j].name != name;
          assert entries[i] == Entry(name, r.value);
          r
        else
          r
  }

  /** Whether some target folder is a prefix of `name` (the `any(startswith ...)` test). */
  predicate InAnyFolder(name: string, folders: seq<string>) {
    exists k :: 0 <= k < |folders| && StartsWith(name, folders[k])
  }

  /** A folder marker: a name ending in `/`. */
  predicate IsDirectory(name: string) {
    EndsWith(name, "/")
  }

  /** `name.lower().endswith('.xml')` */
  predicate IsXmlName(name: string) {
    EndsWith(Lower(name), ".xml")
  }

  /** The loop over the target folders in `readContentFromZip`, stopping at the first match. */
  method StartsWithAny(name: string, folders: seq<string>) returns (found: bool)
    ensures found <==> InAnyFolder(name, folders)
  {
    found := false;
    var k := 0;
    while k < |folders| && !found
      invariant 0 <= k <= |folders|
      invariant !found ==> forall j :: 0 <= j < k ==> !StartsWith(name, folders[j])
      invariant found ==> InAnyFolder(name, folders)
    {
      if StartsWith(name, folders[k]) {
        found := true;
      }
      k := k + 1;
    }
  }

  // ---------------------------------------------------------------------------
  // readContentFromZip

  /** A member `readContentFromZip` reports: in a target folder and not a folder marker. */
  predicate IsTargetFile(name: string, folders: seq<string>) {
    InAnyFolder(name, folders) && !IsDirectory(name)
  }

  /** The text reported for a member: its decoded content, or the error message when decoding fails. */
  function DecodedOrError(entries: seq<Entry>, name: string, decode: seq<byte> -> Option<string>): (text: string)
    requires name in Names(entries)
    ensures decode(Member(entries, name).value).Some? ==> text == decode(Member(entries, name).value).value
    ensures decode(Member(entries, name).value).None? ==> text == DecodeErrorMessage
  {
    match decode(Member(entries, name).value)
    case Some(text) => text
    case None => DecodeErrorMessage
  }

  /** The map `readContentFromZip` has built after the names `seen`: exactly their target files, each with its text. */
  ghost predicate ContentsOf(contents: map<string, string>, seen: seq<string>, entries: seq<Entry>,
                       folders: seq<string>, decode: seq<byte> -> Option<string>)
  {
    && (forall n :: n in contents <==> n in seen && IsTargetFile(n, folders))
    && (forall n :: n in contents ==> n in Names(entries) && contents[n] == DecodedOrError(entries, n, decode))
  }

  /** One more name: a target file is added with its text, any other name leaves the map as it is. */
  lemma ContentsStep(before: map<string, string>, after: map<string, string>, names: seq<string>, i: nat,
                     entries: seq<Entry>, folders: seq<string>, decode: seq<byte> -> Option<string>)
    requires i < |names| && names[i] in Names(entries)
    requires ContentsOf(before, names[..i], entries, folders, decode)
    requires after == if IsTargetFile(names[i], folders)
                      then before[names[i] := DecodedOrError(entries, names[i], decode)] else before
    ensures ContentsOf(after, names[..i + 1], entries, folders, decode)
  {
    var name, seen := names[i], names[..i + 1];
    assert seen == names[..i] + [name];
    forall n ensures n in after <==> n in seen && IsTargetFile(n, folders) {
      assert n in seen <==> n in names[..i] || n == name;
    }
    forall n | n in after ensures n in Names(entries) && after[n] == DecodedOrError(entries, n, decode) {
      if n != name || !IsTargetFile(name, folders) {
        assert after[n] == before[n];
      }
    }
  }

  method ReadContentFromZip(file: ArchiveFile, targetFolders: seq<string>, decode: seq<byte> -> Option<string>)
    returns (contents: map<string, string>)
    ensures !file.Readable? ==> contents == map[]
    ensures file.Readable? ==> forall n :: n in contents <==> n in Names(file.entries) && IsTargetFile(n, targetFolders)
    ensures file.Readable? ==> forall n :: n in contents ==> contents[n] == DecodedOrError(file.entries, n, decode)
  {
    contents := map[];
    if !file.Readable? {
      return;
    }
    var entries := file.entries;
    var sortedNames := Sorting.Sort(Names(entries));
    Sorting.SortSameElements(Names(entries));
    for i := 0 to |sortedNames|
      invariant ContentsOf(contents, sortedNames[..i], entries, targetFolders, decode)
    {
      var name := sortedNames[i];
      ghost var before := contents;
      var isTargetFile := StartsWithAny(name, targetFolders);
      var isDirectory := EndsWith(name, "/");
      if isTargetFile && !isDirectory {
        var text := match decode(Member(entries, name).value)
          case Some(t) => t
          case None => DecodeErrorMessage;
        contents := contents[name := text];
      }
      ContentsStep(before, contents, sortedNames, i, entries, targetFolders, decode);
    }
    assert sortedNames[..|sortedNames|] == sortedNames;
  }

  // ---------------------------------------------------------------------------
  // readSingleFile

  /** `readSingleFile` with a lenient decoder (`errors='ignore'`), which cannot fail. */
  function ReadSingleFile(file: ArchiveFile, targetFileName: string, decode: seq<byte> -> string): (text: string)
    ensures !file.Readable? ==> text == ""
    ensures file.Readable? && targetFileName !in Names(file.entries) ==> text == ""
    ensures file.Readable? && targetFileName in Names(file.entries) ==>
              text == decode(Member(file.entries, targetFileName).value)
  {
    match file
    case Readable(entries) =>
      (match Member(entries, targetFileName)
       case Some(data) => decode(data)
       case None => "")
    case _ => ""
  }

  // ---------------------------------------------------------------------------
  // extractXmlDataFromFolders

  /**
   * The value recorded for one tag: the root's attribute of that name if
   * present; otherwise the text (possibly none) of the first proper descendant
   * with that tag in document order; otherwise "NOT_FOUND".
   */
  function FieldValue(root: Element, tag: string): (v: Option<string>)
    ensures tag in root.attrib ==> v == Some(root.attrib[tag])
    ensures (tag !in root.attrib && forall k :: 0 <= k < |Descendants(root)| ==> Descendants(root)[k].tag != tag)
            ==> v == Some(NotFound)
    ensures (tag !in root.attrib && FirstTagged(Descendants(root), tag).Some?)
            ==> v == FirstTagged(Descendants(root), tag).value.text
  {
    if tag in root.attrib then Some(root.attrib[tag])
    else
      match Find(root, tag)
      case Some(element) => element.text
      case None => Some(NotFound)
  }

  /** The value map recorded for a parsed member: one key per requested tag. */
  function FieldMap(root: Element, tagsToFind: seq<string>): (fields: map<string, Option<string>>)
    ensures fields.Keys == set t | t in tagsToFind
    ensures forall t :: t in fields ==> fields[t] == FieldValue(root, t)
  {
    map t | t in tagsToFind :: FieldValue(root, t)
  }

  /** The loop over `tagsToFind` for one parsed member. */
  method ReadFields(root: Element, tagsToFind: seq<string>) returns (fields: map<string, Option<string>>)
    ensures fields == FieldMap(root, tagsToFind)
  {
    fields := map[];
    for i := 0 to |tagsToFind|
      invariant forall t :: t in fields <==> t in tagsToFind[..i]
      invariant forall t :: t in fields ==> fields[t] == FieldValue(root, t)
    {
      var tag := tagsToFind[i];
      var value: Option<string>;
      if tag in root.attrib {
        value := Some(root.attrib[tag]);
      } else {
        var element := Find(root, tag);
        value := if element.Some? then element.value.text else Some(NotFound);
      }
      fields := fields[tag := value];
      assert tagsToFind[..i + 1] == tagsToFind[..i] + [tag];
    }
    assert tagsToFind[..|tagsToFind|] == tagsToFind;
    assert fields.Keys == FieldMap(root, tagsToFind).Keys;
  }

  /** A member `extractXmlDataFromFolders` tries to parse. */
  predicate IsTargetXml(name: string, folders: seq<string>) {
    InAnyFolder(name, folders) && IsXmlName(name)
  }

  /** `ET.parse` applied to a member's content; None when it fails. */
  function ParsedMember(entries: seq<Entry>, name: string, parse: seq<byte> -> Option<Element>): Option<Element>
    requires name in Names(entries)
  {
    parse(Member(entries, name).value)
  }

  method ExtractXmlDataFromFolders(file: ArchiveFile, targetFolders: seq<string>, tagsToFind: seq<string>,
                                   parse: seq<byte> -> Option<Element>)
    returns (extracted: map<string, map<string, Option<string>>>)
    ensures !file.Readable? ==> extracted == map[]
    ensures file.Readable? ==> forall n :: n in extracted <==>
              n in Names(file.entries) && IsTargetXml(n, targetFolders) && ParsedMember(file.entries, n, parse).Some?
    ensures file.Readable? ==> forall n :: n in extracted ==>
              extracted[n] == FieldMap(ParsedMember(file.entries, n, parse).value, tagsToFind)
  {
    extracted := map[];
    if !file.Readable? {
      return;
    }
    var entries := file.entries;
    var names := Names(entries);
    for i := 0 to |names|
      invariant forall n :: n in extracted ==> n in names
      invariant forall n :: n in extracted <==>
                  n in names[..i] && IsTargetXml(n, targetFolders) && ParsedMember(entries, n, parse).Some?
      invariant forall n :: n in extracted ==> extracted[n] == FieldMap(ParsedMember(entries, n, parse).value, tagsToFind)
    {
      var fileName := names[i];
      var isInTargetFolder := StartsWithAny(fileName, targetFolders);
      var isXmlFile := EndsWith(Lower(fileName), ".xml");
      if isInTargetFolder && isXmlFile {
        var tree := parse(Member(entries, fileName).value);
        if tree.Some? {
          var fileResults := ReadFields(tree.value, tagsToFind);
          extracted := extracted[fileName := fileResults];
        }
      }
      assert names[..i + 1] == names[..i] + [fileName];
    }
    assert names[..|names|] == names;
  }

  // ---------------------------------------------------------------------------
  // getFileNamesInFolder

  /** A path `getFileNamesInFolder` lists: inside the folder, not the folder itself, with a non-empty base name. */
  predicate Listed(path: string, folder: string) {
    StartsWith(path, folder) && path != folder && BaseName(path) != ""
  }

  /** The listed paths of `paths`, in their order. */
  function ListedPaths(paths: seq<string>, folder: string): seq<string> {
    if |paths| == 0 then []
    else
      var last := paths[|paths| - 1];
      ListedPaths(paths[..|paths| - 1], folder) + (if Listed(last, folder) then [last] else [])
  }

  /** The base name of each path, in order. */
  function BaseNames(paths: seq<string>): (names: seq<string>)
    ensures |names| == |paths|
    ensures forall i :: 0 <= i < |paths| ==> names[i] == BaseName(paths[i])
  {
    seq(|paths|, i requires 0 <= i < |paths| => BaseName(paths[i]))
  }

  lemma BaseNamesSnoc(a: seq<string>, x: string)
    ensures BaseNames(a + [x]) == BaseNames(a) + [BaseName(x)]
  {
    var l, r := BaseNames(a + [x]), BaseNames(a) + [BaseName(x)];
    forall k | 0 <= k < |l| ensures l[k] == r[k] {
      if k < |a| {
        assert (a + [x])[k] == a[k];
      }
    }
  }

  lemma ListedPathsStep(paths: seq<string>, i: nat, folder: string)
    requires i < |paths|
    ensures BaseNames(ListedPaths(paths[..i + 1], folder))
         == BaseNames(ListedPaths(paths[..i], folder)) + (if Listed(paths[i], folder) then [BaseName(paths[i])] else [])
  {
    var before := ListedPaths(paths[..i], folder);
    assert paths[..i + 1][..i] == paths[..i];
    if Listed(paths[i], folder) {
      assert ListedPaths(paths[..i + 1], folder) == before + [paths[i]];
      BaseNamesSnoc(before, paths[i]);
    } else {
      assert ListedPaths(paths[..i + 1], folder) == before + [];
      assert before + [] == before;
    }
  }

  /** Every listed path passes the filter, and each passing path keeps its multiplicity. */
  lemma {:induction false} ListedPathsCount(paths: seq<string>, folder: string, p: string)
    ensures multiset(ListedPaths(paths, folder))[p] == if Listed(p, folder) then multiset(paths)[p] else 0
  {
    if |paths| > 0 {
      var n := |paths| - 1;
      ListedPathsCount(paths[..n], folder, p);
      assert paths == paths[..n] + [paths[n]];
    }
  }

  lemma {:induction false} ListedPathsLength(paths: seq<string>, folder: string)
    ensures |ListedPaths(paths, folder)| <= |paths|
  {
    if |paths| > 0 {
      ListedPathsLength(paths[..|paths| - 1], folder);
    }
  }

  /** Every path the filter keeps comes from the input. */
  lemma ListedPathsFrom(paths: seq<string>, folder: string, k: nat)
    requires k < |ListedPaths(paths, folder)|
    ensures exists i :: 0 <= i < |paths| && paths[i] == ListedPaths(paths, folder)[k]
  {
    var x := ListedPaths(paths, folder)[k];
    ListedPathsCount(paths, folder, x);
    assert x in multiset(ListedPaths(paths, folder));
    assert x in multiset(paths);
  }

  /** Filtering keeps ascending order. */
  lemma {:induction false} ListedPathsSorted(paths: seq<string>, folder: string)
    requires Sorting.Sorted(paths)
    ensures Sorting.Sorted(ListedPaths(paths, folder))
  {
    if |paths| > 0 {
      var n := |paths| - 1;
      var last := paths[n];
      var init := paths[..n];
      var before := ListedPaths(init, folder);
      assert Sorting.Sorted(init) by {
        forall i, j | 0 <= i < j < |init| ensures Sorting.Below(init[i], init[j]) {
          assert init[i] == paths[i] && init[j] == paths[j];
        }
      }
      ListedPathsSorted(init, folder);
      if Listed(last, folder) {
        forall k | 0 <= k < |before| ensures Sorting.Below(before[k], last) {
          ListedPathsFrom(init, folder, k);
          var i :| 0 <= i < |init| && init[i] == before[k];
          assert paths[i] == before[k];
        }
        Sorting.SortedSnoc(before, last);
      }
    }
  }

  /** What `getFileNamesInFolder` returns: the base names of the listed paths, in ascending order of full path. */
  function FolderListing(file: ArchiveFile, folder: string): seq<string> {
    if file.Readable? then BaseNames(ListedPaths(Sorting.Sort(Names(file.entries)), folder)) else []
  }

  method GetFileNamesInFolder(file: ArchiveFile, folderName: string) returns (fileList: seq<string>)
    ensures fileList == FolderListing(file, folderName)
  {
    fileList := [];
    if !file.Readable? {
      return;
    }
    var allFilesSorted := Sorting.Sort(Names(file.entries));
    for i := 0 to |allFilesSorted|
      invariant fileList == BaseNames(ListedPaths(allFilesSorted[..i], folderName))
    {
      var fullPath := allFilesSorted[i];
      ListedPathsStep(allFilesSorted, i, folderName);
      if StartsWith(fullPath, folderName) && fullPath != folderName {
        var cleanFileName := BaseName(fullPath);
        if |cleanFileName| > 0 {
          fileList := fileList + [cleanFileName];
        }
      }
    }
    assert allFilesSorted[..|allFilesSorted|] == allFilesSorted;
  }

  /**
   * The listing holds the base names of exactly the archive's paths under the
   * folder (the folder itself and paths ending in `/` excluded), each as often
   * as it is stored, in ascending order of full path; no listed name is empty
   * or holds a `/`.
   */
  lemma FolderListingSpec(entries: seq<Entry>, folder: string)
    ensures var paths := ListedPaths(Sorting.Sort(Names(entries)), folder);
            && FolderListing(Readable(entries), folder) == BaseNames(paths)
            && Sorting.Sorted(paths)
            && (forall p :: multiset(paths)[p] == if Listed(p, folder) then multiset(Names(entries))[p] else 0)
            && (forall i :: 0 <= i < |paths| ==> StartsWith(paths[i], folder) && paths[i] != folder)
            && (forall i :: 0 <= i < |paths| ==> BaseName(paths[i]) != "" && '/' !in BaseName(paths[i]))
            && |FolderListing(Readable(entries), folder)| <= |entries|
  {
    var sorted := Sorting.Sort(Names(entries));
    ListedPathsSorted(sorted, folder);
    SortedListedPathsCounts(entries, folder);
    SortedListedPathsLength(entries, folder);
    ListedPathsAreListed(sorted, folder);
  }

  lemma SortedListedPathsCounts(entries: seq<Entry>, folder: string)
    ensures var paths := ListedPaths(Sorting.Sort(Names(entries)), folder);
            forall p :: multiset(paths)[p] == if Listed(p, folder) then multiset(Names(entries))[p] else 0
  {
    var sorted := Sorting.Sort(Names(entries));
    forall p ensures multiset(ListedPaths(sorted, folder))[p] == if Listed(p, folder) then multiset(Names(entries))[p] else 0 {
      ListedPathsCount(sorted, folder, p);
    }
  }

  lemma SortedListedPathsLength(entries: seq<Entry>, folder: string)
    ensures |ListedPaths(Sorting.Sort(Names(entries)), folder)| <= |entries|
  {
    var sorted := Sorting.Sort(Names(entries));
    ListedPathsLength(sorted, folder);
    assert |sorted| == |multiset(sorted)| == |multiset(Names(entries))| == |entries|;
  }

  /** Every path the filter keeps is listed. */
  lemma {:induction false} ListedPathsAreListed(paths: seq<string>, folder: string)
    ensures forall i :: 0 <= i < |ListedPaths(paths, folder)| ==> Listed(ListedPaths(paths, folder)[i], folder)
  {
    if |paths| > 0 {
      ListedPathsAreListed(paths[..|paths| - 1], folder);
    }
  }

  /** A folder that no stored name starts with lists nothing. */
  lemma FolderListingEmptyFolder(file: ArchiveFile, folder: string)
    requires file.Readable? ==> forall i :: 0 <= i < |file.entries| ==> !StartsWith(file.entries[i].name, folder)
    ensures FolderListing(file, folder) == []
  {
    if file.Readable? {
      var paths := ListedPaths(Sorting.Sort(Names(file.entries)), folder);
      FolderListingSpec(file.entries, folder);
      forall p ensures multiset(paths)[p] == 0 {
        if Listed(p, folder) {
          assert p !in Names(file.entries);
        }
      }
      assert multiset(paths) == multiset{};
      assert |paths| == |multiset(paths)|;
    }
  }

  // ---------------------------------------------------------------------------
  // createNewZipWithChanges and createZipWithAddedConfig

  /** What the copy writes for the entry at stored position i. */
  function CopyOf(entries: seq<Entry>, i: nat, edited: map<string, string>, encode: string -> seq<byte>): (e: Entry)
    requires i < |entries|
    ensures e.name == entries[i].name
    ensures entries[i].name in edited ==> e.data == encode(edited[entries[i].name])
    ensures entries[i].name !in edited ==> Some(e.data) == Member(entries, entries[i].name)
  {
    var name := entries[i].name;
    assert Names(entries)[i] == name;
    Entry(name, if name in edited then encode(edited[name]) else Member(entries, name).value)
  }

  /** The entries of the rewritten archive: one per source entry, in stored order. */
  function Rewritten(entries: seq<Entry>, edited: map<string, string>, encode: string -> seq<byte>): (out: seq<Entry>)
    ensures |out| == |entries| && forall i :: 0 <= i < |entries| ==> out[i].name == entries[i].name
  {
    seq(|entries|, i requires 0 <= i < |entries| => CopyOf(entries, i, edited, encode))
  }

  method CreateNewZipWithChanges(source: ArchiveFile, editedDataMap: map<string, string>,
                                 encode: string -> seq<byte>, targetWritable: bool)
    returns (written: Option<seq<Entry>>)
    ensures written.Some? <==> source.Readable? && targetWritable
    ensures written.Some? ==> written.value == Rewritten(source.entries, editedDataMap, encode)
  {
    if !source.Readable? || !targetWritable {
      return None;
    }
    var entries := source.entries;
    var target: seq<Entry> := [];
    for i := 0 to |entries|
      invariant |target| == i
      invariant forall k :: 0 <= k < i ==> target[k] == CopyOf(entries, k, editedDataMap, encode)
    {
      var currentFileName := entries[i].name;
      assert Names(entries)[i] == currentFileName;
      if currentFileName in editedDataMap {
        target := target + [Entry(currentFileName, encode(editedDataMap[currentFileName]))];
      } else {
        target := target + [Entry(currentFileName, Member(entries, currentFileName).value)];
      }
    }
    return Some(target);
  }

  method CreateZipWithAddedConfig<D>(source: ArchiveFile, configurationData: D, dumps: D -> Option<string>,
                                     encode: string -> seq<byte>, targetWritable: bool,
                                     configFileName: string := DefaultConfigFileName)
    returns (written: Option<seq<Entry>>)
    ensures written.Some? <==> source.Readable? && dumps(configurationData).Some? && targetWritable
    ensures written.Some? ==> written.value == Rewritten(source.entries, map[], encode)
                                                + [Entry(configFileName, encode(dumps(configurationData).value))]
  {
    if !source.Readable? {
      return None;
    }
    var json := dumps(configurationData);
    if json.None? || !targetWritable {
      return None;
    }
    var entries := source.entries;
    var target: seq<Entry> := [];
    for i := 0 to |entries|
      invariant |target| == i
      invariant forall k :: 0 <= k < i ==> target[k] == CopyOf(entries, k, map[], encode)
    {
      assert Names(entries)[i] == entries[i].name;
      var originalContent := Member(entries, entries[i].name);
      target := target + [Entry(entries[i].name, originalContent.value)];
    }
    target := target + [Entry(configFileName, encode(json.value))];
    return Some(target);
  }

  /** No two entries share a name. */
  predicate DistinctNames(entries: seq<Entry>) {
    forall i, j :: 0 <= i < j < |entries| ==> entries[i].name != entries[j].name
  }

  /** With distinct names, reading an entry's name gives that entry's content. */
  lemma MemberOfDistinct(entries: seq<Entry>, i: nat)
    requires DistinctNames(entries) && i < |entries|
    ensures Member(entries, entries[i].name) == Some(entries[i].data)
  {
    var name := entries[i].name;
    assert Names(entries)[i] == name;
    var r := Member(entries, name);
    var k :| 0 <= k < |entries| && entries[k] == Entry(name, r.value)
             && forall j :: k < j < |entries| ==> entries[j].name != name;
    SameNameSameIndex(entries, i, k);
  }

  /** With distinct names, an index is determined by its entry's name. */
  lemma SameNameSameIndex(entries: seq<Entry>, i: nat, k: nat)
    requires DistinctNames(entries) && i < |entries| && k < |entries| && entries[k].name == entries[i].name
    ensures k == i
  {
  }

  /**
   * The rewritten archive keeps every name in its stored position; an edited
   * name carries the encoded new text, any other name the content `read`
   * returns for it.
   */
  lemma RewrittenEntries(entries: seq<Entry>, edited: map<string, string>, encode: string -> seq<byte>)
    ensures var out := Rewritten(entries, edited, encode);
            && Names(out) == Names(entries)
            && (forall i :: 0 <= i < |entries| && entries[i].name in edited ==>
                  out[i].data == encode(edited[entries[i].name]))
            && (forall i :: 0 <= i < |entries| && entries[i].name !in edited ==>
                  Some(out[i].data) == Member(entries, entries[i].name))
  {
    var out := Rewritten(entries, edited, encode);
    forall i | 0 <= i < |entries| ensures Names(entries)[i] == entries[i].name {}
    assert Names(out) == Names(entries);
  }

  /** With distinct names and no edit that matches a stored name, the copy is the source itself. */
  lemma UneditedCopyIsIdentical(entries: seq<Entry>, edited: map<string, string>, encode: string -> seq<byte>)
    requires DistinctNames(entries)
    requires forall i :: 0 <= i < |entries| ==> entries[i].name !in edited
    ensures Rewritten(entries, edited, encode) == entries
  {
    forall i | 0 <= i < |entries| ensures Rewritten(entries, edited, encode)[i] == entries[i] {
      MemberOfDistinct(entries, i);
    }
  }

  /**
   * Entries that share a name and are not edited are all written with the
   * content of the last of them: the copy reads by name.
   */
  lemma DuplicateNamesShareLastContent(entries: seq<Entry>, edited: map<string, string>, encode: string -> seq<byte>,
                                       i: nat, j: nat)
    requires i < j < |entries| && entries[i].name == entries[j].name && entries[j].name !in edited
    requires forall k :: j < k < |entries| ==> entries[k].name != entries[j].name
    ensures Rewritten(entries, edited, encode)[i] == Rewritten(entries, edited, encode)[j] == entries[j]
  {
    var name := entries[j].name;
    assert Names(entries)[j] == name;
    var r := Member(entries, name);
    var m :| 0 <= m < |entries| && entries[m] == Entry(name, r.value)
             && forall k :: m < k < |entries| ==> entries[k].name != name;
    assert m == j;
  }
}
