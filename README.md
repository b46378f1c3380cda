# Machine sequence configurator: session logic and archive layer

This project models the engine of a desktop tool that prepares machine test
sequences. A user uploads a ZIP archive. The tool then reads the machine
identity from the archive's configuration member, validates a mount count,
toggles machine features, lists and reorders test files, and writes a new
archive with an added `config.json`.

The model has two parts.

- `Logic` (logic.dfy) models helper/logic.py. The class `MachineBusinessLogic`
  has the session fields. Its methods update those fields step by step, as the
  Python methods do. Next to the class are the specification functions the
  methods are proved against: the configuration scan, the mount range, the
  feature-toggle table, the list move and the `Features` list. The lemmas
  about those functions state what the session promises.
- `ZipService` (zipservice.dfy) models helper/zipService.py. An archive is
  `Absent`, `Unreadable`, or `Readable` with its entries in stored order. The
  operations that loop over the name list or the entry list are methods with
  those loops, proved against a function of the entries. `readSingleFile`,
  which reads one member by name, is a function.

Four support modules model the Python behaviour the core relies on:

- `PyStr`: `strip`, `split`, `splitlines`, `replace`, ASCII `lower`,
  `basename`, `int()` and `str()`.
- `Sorting`: `sorted()` on strings.
- `Xml`: an element tree and the `.//tag` lookup.
- `Wrappers`: `Option`.

Foreign calls are function-typed parameters:

- strict UTF-8 decoding: `seq<byte> -> Option<string>`;
- lenient decoding with `errors='ignore'`: `seq<byte> -> string`;
- text encoding for `writestr`: `string -> seq<byte>`;
- `ET.parse`: `seq<byte> -> Option<Element>`;
- `json.dumps`: `D -> Option<string>`.

Whether the destination archive can be created is a `bool` parameter.

Three facts about helper/logic.py that the model keeps:

- No rule switches `RobotMode` off when both shelves are off;
  `ShelfOffKeepsRobotMode` states this. The user interface only blocks the
  RobotMode button while no shelf is active (ui/views.py:211-216); the
  session itself keeps the flag.
- `ShiftCutDevice` has no effect on the bars/profiles mode.
- Toggling a key that is not one of the four standard keys adds that key to
  `feature_state`, in insertion order (`Registered`).

## Model

| member | source | states |
|---|---|---|
| Logic.MachineBusinessLogic.constructor | helper/logic.py:23-38 | Starts with no archive ("" path), model "UNKNOWN", display "Unknown Machine", mount count 0, folder "Bars/" in bars mode, an empty file order, and the four feature keys in order, all false. |
| Logic.MachineBusinessLogic.HandleUpload | helper/logic.py:42-48 | The uploaded archive becomes the session's archive, and the file name is returned. |
| Logic.ScanConfigLines | helper/logic.py:60-73 | The loop over the lines returns the table `DefinitionTable` and the real id `LastRealId` of the lines' directives. |
| Logic.Classify | helper/logic.py:63-73 | A definition comes from a stripped line with the `;MACHINE_TYPE_` prefix, and neither its id nor its name holds `=`. A real id comes from a stripped `REAL_MACHINE_TYPE:` line and holds no `:`. A line with neither prefix is ignored. |
| Logic.DefinitionTableSpec | helper/logic.py:63-69 | An id is in the table iff some line defines it. Its name is the one from the last line that defines it. |
| Logic.LastRealIdSpec | helper/logic.py:70-73 | The real id is absent iff no line is a `REAL_MACHINE_TYPE:` line. Otherwise it is the value of the last such line. |
| Logic.DefinitionLine | helper/logic.py:64-69 | A stripped `;MACHINE_TYPE_<name>=<id>` line with a single `=` defines `<id>` as `<name>`. |
| Logic.RealIdLine | helper/logic.py:70-73 | A `REAL_MACHINE_TYPE:<id>` line names `<id>` as the real id. |
| Logic.ResolveIdentity | helper/logic.py:75-81 | With no real id, or an empty one, model and display stay as they were. A known id gives the table's name for it, displayed with `_` as a space. An unknown id gives the id itself, displayed as "ID `<id>`". |
| Logic.KnownIdResolution | helper/logic.py:63-78 | A definition of `<id>` followed by the real id `<id>` gives model `<name>` and display `<name>` with `_` replaced by a space. |
| Logic.UnknownIdResolution | helper/logic.py:70-81 | A real id without a definition gives model `<id>` and display "ID `<id>`". |
| Logic.ResolveMachine | helper/logic.py:59-81 | The line loop and the resolution give `ConfigIdentity` of the text and the previous identity. That is the known id's name (display with `_` as a space), the id itself for an unknown id (display "ID `<id>`"), or the previous identity when there is no non-empty id. |
| Logic.InitialMountCount | helper/logic.py:83-86 | The count is 1 iff the model is AF500, AF510 or AS100, and 0 otherwise. |
| Logic.MachineBusinessLogic.ParseConfig | helper/logic.py:51-86 | Empty configuration text changes nothing. Otherwise model and display follow the scan's resolution (unchanged if there is no id), and the mount count is `InitialMountCount` of the new model. |
| Logic.MachineBusinessLogic.ApplyConfigText | helper/logic.py:56-86 | Empty text leaves the three fields as they were. Otherwise model and display become `ConfigIdentity` of the text, and the mount count becomes `InitialMountCount` of the new model. |
| Logic.MountRange | helper/logic.py:94-107 | The range is chosen by priority: small shelf [1,9], big shelf [1,25], AS100 [1,10], otherwise [0,25] with no description. The minimum is 1 iff a shelf is on or the model is AS100. Always 0 <= min <= max <= 25. |
| Logic.InputValue | helper/logic.py:109-112 | The value is what `int()` makes of the text, or 0 when `int()` fails. The source's separate empty-text case agrees with this, because `int("")` fails. |
| Logic.Clamp | helper/logic.py:115 | The result lies in [lo, hi]. It equals v inside the range, lo below it and hi above it. |
| Logic.RangeHint | helper/logic.py:119 | The hint starts with "Range: " and ends with the range's description. |
| Logic.MachineBusinessLogic.ValidateMountCount | helper/logic.py:89-121 | The stored and returned count is the clamp of the parsed input into the range (empty or unparsable input counts as 0). The error flag is true iff the input lies outside the range. The hint is "Range: min - max description". |
| Logic.RevalidationIsStable | helper/logic.py:109-121 | The returned text parses back to the stored count, which lies in range, so validating it again reports no error. |
| Logic.ValidateTooManyDigits | helper/logic.py:109-118 | A digit run with more than 4300 digits (underscores not counted) makes `int()` fail, so it reads as 0. The count becomes the range's minimum, and it is flagged iff that minimum is above 0. |
| Logic.ValidateExampleTooLarge | helper/logic.py:94-118 | "100" with no shelf, on a model other than AS100, is clamped to 25 and flagged. |
| Logic.ValidateExampleSeparator | helper/logic.py:94-118 | "\x1c5" with no shelf, on a model other than AS100, reads as 0 because `int()` fails on it. It is stored as 0 and not flagged. |
| Logic.ValidateExampleSmallShelf | helper/logic.py:99-118 | "5" with the small shelf on stays 5 and is not flagged. |
| Logic.Toggled | helper/logic.py:124-136 | The toggled key ends up on iff it was off, except that ShiftCutDevice stays off beside an active shelf. |
| Logic.ToggleLeavesOtherKeys | helper/logic.py:124-136 | A toggle keeps every key it finds and adds the toggled one. It changes no flag other than its own, the two shelves, RobotMode and ShiftCutDevice. |
| Logic.ShelfOnForcesRules | helper/logic.py:126-132 | Switching a shelf on turns the other shelf off, RobotMode on and ShiftCutDevice off. |
| Logic.ShiftCutBlockedByShelf | helper/logic.py:134-136 | Switching ShiftCutDevice on beside an active shelf leaves it off. No other key changes and no key is added. |
| Logic.ShiftCutWithoutShelf | helper/logic.py:126-136 | Switching ShiftCutDevice on with no active shelf turns it on and changes no other key. |
| Logic.PlainToggleFlipsOnlyItsKey | helper/logic.py:126-136 | Toggling RobotMode or a non-standard key, or switching any key off, flips that key alone. |
| Logic.ShelfOffKeepsRobotMode | helper/logic.py:126-136 | Switching a shelf off turns it off, leaves the other shelf as it was, and leaves RobotMode on. |
| Logic.ToggleKeepsConsistent | helper/logic.py:124-136 | Every toggle keeps both rules: never both shelves, and never a shelf together with ShiftCutDevice. |
| Logic.ToggleAllKeepsConsistent | helper/logic.py:124-136 | A sequence of toggles from consistent flags ends with consistent flags. |
| Logic.ReachableFlagsConsistent | helper/logic.py:124-136 | Every sequence of toggles from the all-false initial flags keeps both rules. |
| Logic.Registered | helper/logic.py:126 | After the toggle the key is in the insertion order. The order grows by one exactly when the key was new. |
| Logic.RegisteredKeepsOrder | helper/logic.py:126 | Registering a key keeps the existing order in front of it. |
| Logic.ToggleKeepsTable | helper/logic.py:124-136 | A toggle keeps `feature_state` in dict shape: the four standard keys first in insertion order, no key twice, and the order lists exactly the map's keys. |
| Logic.MachineBusinessLogic.ToggleFeature | helper/logic.py:124-136 | The new flags are `Toggled` of the old flags. The key order gains the key only if it was new. The session stays valid, which includes both rules. |
| Logic.MachineBusinessLogic.LoadFilesForMode | helper/logic.py:139-144 | The folder is "Bars/" in bars mode and "Profiles/" otherwise. The file order is that folder's listing. |
| Logic.PopIndex | helper/logic.py:150 | `pop(i)` with a negative index counts from the end and returns a valid position. |
| Logic.InsertIndex | helper/logic.py:151 | `insert(i, x)` clamps the position into [0, m] after counting negative indices from the end. |
| Logic.Moved | helper/logic.py:147-151 | A move keeps the length and puts `s[from]` at `to`. Elements outside the moved span keep their positions. |
| Logic.MovedIsPopInsert | helper/logic.py:149-151 | A move equals popping the element and inserting it at the target. |
| Logic.MovedIsPermutation | helper/logic.py:147-151 | A move keeps the same elements with the same multiplicities. |
| Logic.MovedBack | helper/logic.py:147-151 | Moving back from the target to the source restores the list. |
| Logic.MachineBusinessLogic.ReorderDragDrop | helper/logic.py:147-151 | With equal indices the list is unchanged. Otherwise it is `Moved` at Python's normalised pop and insert positions. |
| Logic.EntryFor | helper/logic.py:159-161 | Either shelf key becomes a `createShelf` object with a string value. Every other key keeps its name, with the value `true`. |
| Logic.FeatureEntries | helper/logic.py:156-161 | There is at most one object per key, and each object is the entry of an active key. |
| Logic.FeatureEntriesAppend | helper/logic.py:156-161 | The entries of a concatenation of keys are the concatenation of their entries. |
| Logic.FeatureEntriesOrder | helper/logic.py:156-161 | With the standard keys first, the list is: ShiftCutDevice, small shelf, big shelf, RobotMode (each only when on), then the later keys. The shelves appear as `{"createShelf": "smallShelf"/"bigShelf"}`. |
| Logic.ShelfEntrySource | helper/logic.py:159-160 | Every `createShelf` object comes from an active shelf key. |
| Logic.AtMostOneShelfEntry | helper/logic.py:156-161 | With consistent flags and distinct keys, the list holds at most one `createShelf` object. |
| Logic.MachineBusinessLogic.PrepareFinalData | helper/logic.py:154-168 | The descriptor carries the model, the bars mode, the file order, the mount count and `FeatureEntries` of the flags in key order. |
| PyStr.Strip | helper/logic.py:64 | The result has no whitespace at either end, and it is not longer than the input. |
| PyStr.StripKeepsAbsent | helper/logic.py:64-73 | Stripping, and then slicing off a prefix, never brings in a character the text did not hold. |
| PyStr.TrimLeft | helper/logic.py:64 | The result is the input minus its longest prefix of the given whitespace, and it does not start with that whitespace. The whitespace is that of `strip()` or that of `int()`. |
| PyStr.TrimRight | helper/logic.py:64 | The result is the input minus its longest suffix of the given whitespace, and it does not end with that whitespace. |
| PyStr.IntStrip | helper/logic.py:110 | What `int()` reads has none of the whitespace it skips at either end: space, `\t` to `\r`, and the `str.isspace()` characters from U+0085 up. The separators U+001C to U+001F are not skipped. |
| PyStr.Split | helper/logic.py:66 | There is at least one piece, and no piece holds the separator. |
| PyStr.JoinSplit | helper/logic.py:66 | Joining the pieces with the separator gives back the text. |
| PyStr.SplitJoin | helper/logic.py:71 | Splitting joined pieces that hold no separator gives back the pieces. |
| PyStr.SplitLines | helper/logic.py:63 | No line holds a line break. The text is empty iff there are no lines. |
| PyStr.SplitLinesJoin | helper/logic.py:63 | Lines without breaks (the last one non-empty), joined with "\n", split back into the same lines. |
| PyStr.ReplaceChar | helper/logic.py:78 | Each occurrence of the character is replaced, and nothing else changes. |
| PyStr.ParseInt | helper/logic.py:110 | Text made only of `str.isspace()` characters, including "", fails to parse. |
| PyStr.ParseNotNumeric | helper/logic.py:110-112 | Text that starts with neither a sign, a digit nor whitespace `int()` skips fails to parse. |
| PyStr.SeparatorIsNotIntSpace | helper/logic.py:110 | A separator U+001C to U+001F before a digit run is removed by `strip()`, but it makes `int()` fail. |
| PyStr.ParseSigned | helper/logic.py:110 | A successful parse of text that starts with a digit is non-negative. |
| PyStr.ParseRun | helper/logic.py:110 | A stripped digit run reads as the value of its digits, or fails when it has more than 4300 digits (underscores not counted). |
| PyStr.ParseSignedNatToString | helper/logic.py:110 | `int("-" + str(n)) == -n` and `int("+" + str(n)) == n`. |
| PyStr.ParseTooManyDigits | helper/logic.py:110-112 | A digit run with more than 4300 digits, underscores not counted, fails to parse. |
| PyStr.ParseUnderscores | helper/logic.py:110 | Removing the underscores of a digit run does not change what it parses to. |
| PyStr.ParseIntPadded | helper/logic.py:110 | Whitespace that `int()` skips (`str.isspace()` without U+001C to U+001F) around the text does not change what it parses to. |
| PyStr.NatToString | helper/logic.py:121 | `str(n)` is a non-empty run of decimal digits. |
| PyStr.ParseNatToString | helper/logic.py:110-121 | `int(str(n)) == n` for every natural n of at most 4300 digits. |
| PyStr.Lower | helper/zipService.py:129 | Each ASCII letter is lower-cased, and the length is kept. |
| PyStr.BaseName | helper/zipService.py:187 | The base name has no `/` and is not longer than the path. |
| PyStr.BaseNameIsLastPart | helper/zipService.py:187 | The base name is a suffix of the path. When it is shorter than the path, a `/` stands just before it. |
| Sorting.BelowTotal | helper/zipService.py:35 | Python's `<=` on strings is total. |
| Sorting.BelowTransitive | helper/zipService.py:35 | Python's `<=` on strings is transitive. |
| Sorting.SortSameElements | helper/zipService.py:35 | A name is in the sorted list iff it is in the input. |
| Sorting.Sort | helper/zipService.py:35 | `sorted()` returns an ascending permutation of its input. |
| Xml.FirstTagged | helper/zipService.py:142 | The result is the first element with the tag, or none if no element has it. |
| Xml.FindIn | helper/zipService.py:142 | A found element carries the tag. |
| Xml.Find | helper/zipService.py:142 | `root.find(".//tag")` is the first proper descendant of the root with the tag, in document order. |
| Xml.FindInIsFirstInDocumentOrder | helper/zipService.py:142 | The depth-first `.//tag` search returns the first element with the tag in document order. |
| ZipService.Names | helper/zipService.py:34 | The name list holds one name per entry, in stored order. |
| ZipService.Member | helper/zipService.py:54-55 | Reading a name gives nothing iff the name is absent. Otherwise it gives the content of the last entry with that name. |
| ZipService.StartsWithAny | helper/zipService.py:41-47 | The folder loop reports true iff some target folder is a prefix of the name. |
| ZipService.DecodedOrError | helper/zipService.py:53-63 | A target member's value is its decoded text when decoding succeeds. Otherwise it is "Error: Could not decode file content.". |
| ZipService.ReadContentFromZip | helper/zipService.py:13-68 | Without a readable archive the map is empty. Otherwise its keys are exactly the names in a target folder that do not end in `/`. Each value is the decoded content, or the error message when decoding fails. |
| ZipService.ReadSingleFile | helper/zipService.py:71-105 | The result is "" when there is no readable archive or no member of that name. Otherwise it is the leniently decoded content of the last member with that name, as `zipfile` opens it. |
| ZipService.FieldValue | helper/zipService.py:139-143 | A tag's value is the root attribute if present. Otherwise it is the text (possibly none) of the first proper descendant with the tag in document order. Otherwise it is "NOT_FOUND". |
| ZipService.FieldMap | helper/zipService.py:137-143 | The value map has one key per requested tag and no other, each with that tag's `FieldValue`. |
| ZipService.ReadFields | helper/zipService.py:137-143 | The value map has exactly the requested tags, each with its `FieldValue`. |
| ZipService.ExtractXmlDataFromFolders | helper/zipService.py:107-155 | Without a readable archive the map is empty. Otherwise its keys are exactly the names in a target folder, ending in `.xml` in lower case, whose content parses. Each value is the field map of that document. |
| ZipService.BaseNames | helper/zipService.py:187 | One base name per path, in order. |
| ZipService.ListedPathsCount | helper/zipService.py:180-192 | A path is kept exactly as often as it occurs if it is inside the folder, is not the folder and has a non-empty base name. Otherwise it is dropped. |
| ZipService.ListedPathsSorted | helper/zipService.py:177-192 | Filtering a sorted list keeps it sorted. |
| ZipService.ListedPathsAreListed | helper/zipService.py:180-192 | Every kept path is inside the folder, is not the folder, and has a non-empty base name. |
| ZipService.ListedPathsLength | helper/zipService.py:180-192 | Filtering never lengthens the list. |
| ZipService.GetFileNamesInFolder | helper/zipService.py:157-197 | The result is `FolderListing`: empty without a readable archive, otherwise the base names of the listed paths in sorted order. |
| ZipService.FolderListingSpec | helper/zipService.py:177-192 | The listing is the base names of exactly the archive's listed paths, each as often as stored, in ascending order of full path. No listed name is empty or holds `/`, and there are at most as many as entries. |
| ZipService.FolderListingEmptyFolder | helper/zipService.py:180-192 | A folder that no stored name starts with lists nothing. |
| ZipService.CreateNewZipWithChanges | helper/zipService.py:200-243 | The result is written iff the source is readable and the target can be created. Then it is `Rewritten`: one entry per source entry, in stored order, with edited content where the name is edited. |
| ZipService.CopyOf | helper/zipService.py:219-238 | A copied entry keeps its name. It carries the encoded edited text when the name is edited, and otherwise what `read` returns for that name. |
| ZipService.Rewritten | helper/zipService.py:217-238 | The copy has one entry per source entry, each with the source entry's name in the same position. |
| ZipService.RewrittenEntries | helper/zipService.py:217-238 | The copy keeps every name in its position and adds none. An edited name carries the encoded new text. Any other name carries what `read` returns for it. |
| ZipService.MemberOfDistinct | helper/zipService.py:232-233 | With distinct names, reading an entry's name gives that entry's content. |
| ZipService.UneditedCopyIsIdentical | helper/zipService.py:217-238 | With distinct names, and with no edit that matches a stored name, the copy equals the source. |
| ZipService.DuplicateNamesShareLastContent | helper/zipService.py:232-238 | Unedited entries that share a name are all written with the last one's content. |
| ZipService.CreateZipWithAddedConfig | helper/zipService.py:246-281 | The result is written iff the source is readable, the data serialises and the target can be created. Then it is the unchanged copy followed by exactly one entry named `configFileName` (default "config.json") holding the serialised data, even when that name already exists. |

## Left out

- The user interface (ui/views.py), the bootstrap (__main__.py) and the protocol in helper/interfaces.py are not part of this model. The protocol members with no implementation in helper/logic.py are not modelled.
- HandleUpload: does not model copying the file into the `uploads` directory, `os.makedirs`, or the joined destination path. The model records the uploaded archive as the session's archive.
- UTF-8 decoding, text encoding, `ET.parse` and `json.dumps` are parameters; their formats are not modelled.
- ZIP container internals are not modelled: `ZipInfo` metadata kept by `writestr(zinfo, ...)`, compression, CRCs, and duplicate-name warnings.
- CreateZipWithAddedConfig: a member whose `read` raises (bad CRC, unsupported compression, encryption) makes the source return False after the target was created and partly written. The model copies every member and returns the written archive, and it does not model a partly written target after any failure.
- CreateNewZipWithChanges: writing is all or nothing. A target file left partly written by a failure after it was created is not modelled. A failure to open one member while copying is not modelled either.
- ReadContentFromZip: a member that cannot be opened also maps to the error message in the source; the model covers this only when the decoder parameter reports the failure.
- ReadSingleFile: a member that cannot be opened makes the source return ""; the lenient decoder parameter cannot fail, so this path is not modelled.
- ExtractXmlDataFromFolders: a target member whose open or read raises (encryption, unsupported compression, a CRC error found while `ET.parse` reads it) is skipped by the catch-all handler (helper/zipService.py:149-150). The model has no such failure. It skips a member only when the parse parameter returns none, so that parameter stands for both failures.
- ReadContentFromZip, ExtractXmlDataFromFolders and ReadFields return Dafny maps, which have no order. The source's dicts keep insertion order: sorted name order in `readContentFromZip`, `namelist()` order in `extractXmlDataFromFolders`, and tag order in each `fileResults`. Nothing in the modelled core reads that order.
- FieldValue: treats the tag as a literal element name. ElementPath syntax inside a tag (`*`, `/`, predicates, `{namespace}`) is not interpreted.
- PyStr.Lower: folds ASCII letters only; Unicode case mapping is not modelled.
- PyStr.BaseName: splits on `/` only, as `os.path.basename` does on POSIX.
- PyStr.ParseSigned: accepts ASCII digits with single underscores between them, after stripping the whitespace `int()` skips (space, `\t` to `\r`, and the `str.isspace()` characters from U+0085 up, but not U+001C to U+001F), and an optional sign, up to CPython's default limit of 4300 digits. Non-ASCII decimal digits, which `int()` also accepts, are not modelled, and neither is a limit changed through `sys.set_int_max_str_digits`.
- PyStr.NatToString: is total. `str()` raises `ValueError` for more than 4300 digits, which never happens here because it only formats counts of at most 25.
- ReorderDragDrop: an out-of-range source index raises `IndexError` in the source, which nothing catches. The model states this as a precondition.
- PrepareFinalData: the descriptor holds a copy of the file order. In the source it shares the list object with the session, and this aliasing is not modelled.
- Logging through `print` is not modelled; exceptions become `Option` results or empty results.
