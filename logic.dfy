/**
 * The configuration session of helper/logic.py: the machine identity read from
 * the archive's configuration member, the mount count and its range, the four
 * feature flags and the rules that keep them consistent, the ordered list of
 * test files and the descriptor compiled at the end.
 */
module Logic {
  import opened Wrappers
  import opened PyStr
  import ZipService

  const MachineTypePrefix := ";MACHINE_TYPE_"
  const RealMachineIdPrefix := "REAL_MACHINE_TYPE:"
  const ConfigMemberName := "Configuration/MainKonfiguration.txt"

  const DefaultMinMountCount := 0
  const DefaultMaxMountCount := 25
  const SmallShelfLimit := 9
  const As100ModelLimit := 10
  const MinCountForEquippedModels := 1

  /** The models whose mount count starts at 1 once the configuration is parsed. */
  const EquippedModels := ["AF500", "AF510", "AS100"]

  const ShiftCutDevice := "ShiftCutDevice"
  const CreateShelf := "createShelf"
  const CreateBigShelf := "createBigShelf"
  const RobotMode := "RobotMode"

  /** The keys of `feature_state` in the order `__init__` inserts them. */
  const StandardFeatures := [ShiftCutDevice, CreateShelf, CreateBigShelf, RobotMode]

  const InitialFeatures: map<string, bool> :=
    map[ShiftCutDevice := false, CreateShelf := false, CreateBigShelf := false, RobotMode := false]

  // ===========================================================================
  // Configuration text: the id -> name table and the real machine id

  /** What one line of the configuration member contributes. */
  datatype Directive = Definition(id: string, name: string) | RealId(id: string) | Other

  /**
   * One iteration of the loop over `splitlines()`: the stripped line is a
   * definition `;MACHINE_TYPE_<name>=<id>` when it splits on `=` into exactly
   * two parts, or names the real id after `REAL_MACHINE_TYPE:`.
   */
  function Classify(rawLine: string): (d: Directive)
    ensures d.Definition? ==> StartsWith(Strip(rawLine), MachineTypePrefix) && '=' !in d.id && '=' !in d.name
    ensures d.RealId? ==> StartsWith(Strip(rawLine), RealMachineIdPrefix) && ':' !in d.id
    ensures !StartsWith(Strip(rawLine), MachineTypePrefix) && !StartsWith(Strip(rawLine), RealMachineIdPrefix) ==> d.Other?
  {
    var line := Strip(rawLine);
    if StartsWith(line, MachineTypePrefix) && '=' in line then
      var parts := Split(line, '=');
      if |parts| == 2 then
        StripKeepsAbsent(parts[1], '=', 0);
        StripKeepsAbsent(parts[0], '=', |MachineTypePrefix|);
        Definition(Strip(parts[1]), Drop(Strip(parts[0]), |MachineTypePrefix|))
      else Other
    else if StartsWith(line, RealMachineIdPrefix) then
      var parts := Split(line, ':');
      if |parts| > 1 then
        StripKeepsAbsent(parts[1], ':', 0);
        RealId(Strip(parts[1]))
      else Other
    else
      Other
  }

  /** The directives of the configuration lines, one per line. */
  function Directives(lines: seq<string>): (ds: seq<Directive>)
    ensures |ds| == |lines| && forall i :: 0 <= i < |lines| ==> ds[i] == Classify(lines[i])
  {
    seq(|lines|, i requires 0 <= i < |lines| => Classify(lines[i]))
  }

  /** `machine_definitions_map` after the loop has seen the lines with directives `ds`. */
  function DefinitionTable(ds: seq<Directive>): map<string, string> {
    if |ds| == 0 then map[]
    else
      var table := DefinitionTable(ds[..|ds| - 1]);
      match ds[|ds| - 1]
      case Definition(id, name) => table[id := name]
      case _ => table
  }

  /** `found_real_id` after the loop has seen the lines with directives `ds`: the id of the last `REAL_MACHINE_TYPE:` line. */
  function LastRealId(ds: seq<Directive>): Option<string> {
    if |ds| == 0 then None
    else
      match ds[|ds| - 1]
      case RealId(id) => Some(id)
      case _ => LastRealId(ds[..|ds| - 1])
  }

  /** One more line: its directive updates the table and the real id. */
  lemma ScanStep(ds: seq<Directive>, i: nat)
    requires i < |ds|
    ensures DefinitionTable(ds[..i + 1])
         == if ds[i].Definition? then DefinitionTable(ds[..i])[ds[i].id := ds[i].name] else DefinitionTable(ds[..i])
    ensures LastRealId(ds[..i + 1]) == if ds[i].RealId? then Some(ds[i].id) else LastRealId(ds[..i])
  {
    assert ds[..i + 1][..i] == ds[..i];
  }

  /** An id is in the table exactly when some line defines it, and it maps to the name of the last such line. */
  lemma {:induction false} DefinitionTableSpec(ds: seq<Directive>, id: string)
    ensures id in DefinitionTable(ds) <==> exists i :: 0 <= i < |ds| && ds[i].Definition? && ds[i].id == id
    ensures id in DefinitionTable(ds) ==>
              exists i :: 0 <= i < |ds| && ds[i] == Definition(id, DefinitionTable(ds)[id])
                          && forall j :: i < j < |ds| ==> !(ds[j].Definition? && ds[j].id == id)
  {
    if |ds| > 0 {
      DefinitionTableSpec(ds[..|ds| - 1], id);
      DefinitionTableStep(ds, id);
      DefinitionTableLastStep(ds, id);
    }
  }

  /** The last line either sets `id` to its name or leaves the entry for `id` as it was. */
  lemma DefinitionTableLast(ds: seq<Directive>, id: string)
    requires |ds| > 0
    ensures var d, table, pre := ds[|ds| - 1], DefinitionTable(ds), DefinitionTable(ds[..|ds| - 1]);
            if d.Definition? && d.id == id then id in table && table[id] == d.name
            else (id in table <==> id in pre) && (id in table ==> table[id] == pre[id])
  {
  }

  /** The first half of `DefinitionTableSpec` carries over from all lines but the last to all lines. */
  lemma DefinitionTableStep(ds: seq<Directive>, id: string)
    requires |ds| > 0
    requires var pre := ds[..|ds| - 1];
             id in DefinitionTable(pre) <==> exists i :: 0 <= i < |pre| && pre[i].Definition? && pre[i].id == id
    ensures id in DefinitionTable(ds) <==> exists i :: 0 <= i < |ds| && ds[i].Definition? && ds[i].id == id
  {
    var n := |ds| - 1;
    var pre := ds[..n];
    DefinitionTableLast(ds, id);
    if exists i :: 0 <= i < |ds| && ds[i].Definition? && ds[i].id == id {
      var i :| 0 <= i < |ds| && ds[i].Definition? && ds[i].id == id;
      if i < n {
        assert pre[i] == ds[i];
      }
    }
    if exists i :: 0 <= i < |pre| && pre[i].Definition? && pre[i].id == id {
      var i :| 0 <= i < |pre| && pre[i].Definition? && pre[i].id == id;
      assert ds[i] == pre[i];
    }
  }

  /** The second half of `DefinitionTableSpec` carries over from all lines but the last to all lines. */
  lemma DefinitionTableLastStep(ds: seq<Directive>, id: string)
    requires |ds| > 0
    requires var pre := ds[..|ds| - 1];
             id in DefinitionTable(pre) ==>
               exists i :: 0 <= i < |pre| && pre[i] == Definition(id, DefinitionTable(pre)[id])
                           && forall j :: i < j < |pre| ==> !(pre[j].Definition? && pre[j].id == id)
    ensures id in DefinitionTable(ds) ==>
              exists i :: 0 <= i < |ds| && ds[i] == Definition(id, DefinitionTable(ds)[id])
                          && forall j :: i < j < |ds| ==> !(ds[j].Definition? && ds[j].id == id)
  {
    var n := |ds| - 1;
    var pre := ds[..n];
    DefinitionTableLast(ds, id);
    if id in DefinitionTable(ds) {
      if !(ds[n].Definition? && ds[n].id == id) {
        var i :| 0 <= i < |pre| && pre[i] == Definition(id, DefinitionTable(pre)[id])
                 && forall j :: i < j < |pre| ==> !(pre[j].Definition? && pre[j].id == id);
        assert ds[i] == pre[i];
        assert forall j :: i < j < |ds| ==> !(ds[j].Definition? && ds[j].id == id) by {
          forall j | i < j < n ensures !(ds[j].Definition? && ds[j].id == id) {
            assert ds[j] == pre[j];
          }
        }
      }
    }
  }

  /** The real id is that of the last `REAL_MACHINE_TYPE:` line, and absent when there is none. */
  lemma {:induction false} LastRealIdSpec(ds: seq<Directive>)
    ensures LastRealId(ds).None? <==> forall i :: 0 <= i < |ds| ==> !ds[i].RealId?
    ensures LastRealId(ds).Some? ==>
              exists i :: 0 <= i < |ds| && ds[i] == RealId(LastRealId(ds).value)
                          && forall j :: i < j < |ds| ==> !ds[j].RealId?
  {
    if |ds| > 0 {
      var n := |ds| - 1;
      LastRealIdSpec(ds[..n]);
      assert forall i :: 0 <= i < n ==> ds[..n][i] == ds[i];
    }
  }

  /**
   * The identity after the scan: a known id gives its name (display with `_`
   * as space), an unknown non-empty id gives the id itself (display "ID <id>"),
   * and no id or an empty one keeps the previous identity.
   */
  function ResolveIdentity(table: map<string, string>, found: Option<string>,
                           model: string, display: string): (identity: (string, string))
    ensures found.None? || found.value == "" ==> identity == (model, display)
    ensures found.Some? && found.value != "" && found.value in table ==>
              identity == (table[found.value], ReplaceChar(table[found.value], '_', ' '))
    ensures found.Some? && found.value != "" && found.value !in table ==>
              identity == (found.value, "ID " + found.value)
  {
    if found.Some? && found.value != "" && found.value in table then
      (table[found.value], ReplaceChar(table[found.value], '_', ' '))
    else if found.Some? && found.value != "" then
      (found.value, "ID " + found.value)
    else
      (model, display)
  }

  /** The identity `logic_parse_config` settles on for non-empty configuration text. */
  function ConfigIdentity(content: string, model: string, display: string): (string, string) {
    var ds := Directives(SplitLines(content));
    ResolveIdentity(DefinitionTable(ds), LastRealId(ds), model, display)
  }

  /** The loop of `logic_parse_config` over the configuration lines: the id -> name table and the real id. */
  method ScanConfigLines(lines: seq<string>) returns (machineDefinitions: map<string, string>, foundRealId: Option<string>)
    ensures machineDefinitions == DefinitionTable(Directives(lines))
    ensures foundRealId == LastRealId(Directives(lines))
  {
    ghost var ds := Directives(lines);
    machineDefinitions := map[];
    foundRealId := None;
    for i := 0 to |lines|
      invariant machineDefinitions == DefinitionTable(ds[..i])
      invariant foundRealId == LastRealId(ds[..i])
    {
      ScanStep(ds, i);
      var line := Strip(lines[i]);
      if StartsWith(line, MachineTypePrefix) && '=' in line {
        var parts := Split(line, '=');
        if |parts| == 2 {
          assert ds[i] == Definition(Strip(parts[1]), Drop(Strip(parts[0]), |MachineTypePrefix|));
          machineDefinitions := machineDefinitions[Strip(parts[1]) := Drop(Strip(parts[0]), |MachineTypePrefix|)];
        } else {
          assert ds[i] == Other;
        }
      } else if StartsWith(line, RealMachineIdPrefix) {
        var parts := Split(line, ':');
        if |parts| > 1 {
          assert ds[i] == RealId(Strip(parts[1]));
          foundRealId := Some(Strip(parts[1]));
        } else {
          assert ds[i] == Other;
        }
      } else {
        assert ds[i] == Other;
      }
    }
    assert ds[..|lines|] == ds;
  }

  /** The loop over the configuration lines followed by the resolution of the machine identity. */
  method ResolveMachine(rawContent: string, model: string, display: string) returns (newModel: string, newDisplay: string)
    ensures (newModel, newDisplay) == ConfigIdentity(rawContent, model, display)
  {
    var machineDefinitions, foundRealId := ScanConfigLines(SplitLines(rawContent));
    newModel, newDisplay := model, display;
    if foundRealId.Some? && foundRealId.value != "" && foundRealId.value in machineDefinitions {
      var realName := machineDefinitions[foundRealId.value];
      newModel := realName;
      newDisplay := ReplaceChar(realName, '_', ' ');
    } else if foundRealId.Some? && foundRealId.value != "" {
      newModel := foundRealId.value;
      newDisplay := "ID " + foundRealId.value;
    }
  }

  /** A stripped line outside the definition shape, with the real-id prefix, names the second `:`-part. */
  lemma ClassifyAsRealId(line: string, parts: seq<string>)
    requires Strip(line) == line && !StartsWith(line, MachineTypePrefix) && StartsWith(line, RealMachineIdPrefix)
    requires Split(line, ':') == parts && |parts| > 1
    ensures Classify(line) == RealId(Strip(parts[1]))
  {
  }

  /** A stripped line with the definition prefix that splits on `=` into two parts defines the trimmed right part. */
  lemma ClassifyAsDefinition(line: string, parts: seq<string>)
    requires Strip(line) == line && StartsWith(line, MachineTypePrefix) && '=' in line
    requires Split(line, '=') == parts && |parts| == 2
    ensures Classify(line) == Definition(Strip(parts[1]), Drop(Strip(parts[0]), |MachineTypePrefix|))
  {
  }

  /** The line `REAL_MACHINE_TYPE:<id>` is stripped and has the real-id prefix only. */
  lemma RealIdLinePrefix(id: string)
    requires |id| > 0 && !IsSpace(id[|id| - 1])
    ensures var line := RealMachineIdPrefix + id;
            && Strip(line) == line && !StartsWith(line, MachineTypePrefix) && StartsWith(line, RealMachineIdPrefix)
  {
    var line := RealMachineIdPrefix + id;
    assert Strip(line) == line by {
      assert line[0] == 'R' && line[|line| - 1] == id[|id| - 1];
      StripUntrimmed(line);
    }
    assert !StartsWith(line, MachineTypePrefix) by {
      assert line[0] == 'R';
    }
    assert line[..|RealMachineIdPrefix|] == RealMachineIdPrefix;
  }

  /** The line `REAL_MACHINE_TYPE:<id>` splits on its one `:`. */
  lemma RealIdLineParts(id: string)
    requires ':' !in id
    ensures Split(RealMachineIdPrefix + id, ':') == ["REAL_MACHINE_TYPE", id]
  {
    var parts := ["REAL_MACHINE_TYPE", id];
    assert RealMachineIdPrefix + id == Join(parts, ':');
    SplitJoin(parts, ':');
  }

  /** A line `REAL_MACHINE_TYPE:<id>` names the real id `<id>`. */
  lemma RealIdLine(id: string)
    requires |id| > 0 && ':' !in id && !IsSpace(id[0]) && !IsSpace(id[|id| - 1])
    ensures Classify(RealMachineIdPrefix + id) == RealId(id)
  {
    RealIdLinePrefix(id);
    RealIdLineParts(id);
    StripUntrimmed(id);
    ClassifyAsRealId(RealMachineIdPrefix + id, ["REAL_MACHINE_TYPE", id]);
  }

  /** The line `;MACHINE_TYPE_<name>=<id>` is stripped and has the definition prefix. */
  lemma DefinitionLinePrefix(name: string, id: string)
    requires |id| > 0 && !IsSpace(id[|id| - 1])
    ensures var line := MachineTypePrefix + name + "=" + id;
            && Strip(line) == line && StartsWith(line, MachineTypePrefix)
  {
    var line := MachineTypePrefix + name + "=" + id;
    assert Strip(line) == line by {
      assert line[0] == ';' && line[|line| - 1] == id[|id| - 1];
      StripUntrimmed(line);
    }
    assert line[..|MachineTypePrefix|] == MachineTypePrefix;
  }

  /** The line `;MACHINE_TYPE_<name>=<id>` splits on its one `=`. */
  lemma DefinitionLineParts(name: string, id: string)
    requires '=' !in name && '=' !in id
    ensures var line := MachineTypePrefix + name + "=" + id;
            && '=' in line && Split(line, '=') == [MachineTypePrefix + name, id]
  {
    var head := MachineTypePrefix + name;
    var line := head + "=" + id;
    assert line[|head|] == '=';
    assert line == Join([head, id], '=');
    SplitJoin([head, id], '=');
  }

  /** The left part `;MACHINE_TYPE_<name>` is stripped, and dropping the prefix leaves `<name>`. */
  lemma DefinitionHead(name: string)
    requires |name| == 0 || !IsSpace(name[|name| - 1])
    ensures Strip(MachineTypePrefix + name) == MachineTypePrefix + name
    ensures Drop(MachineTypePrefix + name, |MachineTypePrefix|) == name
  {
    var head := MachineTypePrefix + name;
    assert head[0] == ';' && head[|head| - 1] == if |name| == 0 then '_' else name[|name| - 1];
    StripUntrimmed(head);
    assert head[|MachineTypePrefix|..] == name;
  }

  /** A line `;MACHINE_TYPE_<name>=<id>` defines `<id>` as `<name>`. */
  lemma DefinitionLine(name: string, id: string)
    requires '=' !in name && (|name| == 0 || !IsSpace(name[|name| - 1]))
    requires |id| > 0 && '=' !in id && !IsSpace(id[0]) && !IsSpace(id[|id| - 1])
    ensures Classify(MachineTypePrefix + name + "=" + id) == Definition(id, name)
  {
    DefinitionLinePrefix(name, id);
    DefinitionLineParts(name, id);
    DefinitionHead(name);
    StripUntrimmed(id);
    ClassifyAsDefinition(MachineTypePrefix + name + "=" + id, [MachineTypePrefix + name, id]);
  }

  lemma PrefixesAreOneLine()
    ensures OneLine(MachineTypePrefix) && OneLine(RealMachineIdPrefix) && OneLine("=")
  {
  }

  lemma KnownIdLineBreaks(name: string, id: string)
    requires OneLine(name) && OneLine(id)
    ensures OneLine(MachineTypePrefix + name + "=" + id) && OneLine(RealMachineIdPrefix + id)
  {
    PrefixesAreOneLine();
    OneLineConcat(MachineTypePrefix, name);
    OneLineConcat(MachineTypePrefix + name, "=");
    OneLineConcat(MachineTypePrefix + name + "=", id);
    OneLineConcat(RealMachineIdPrefix, id);
  }

  lemma KnownIdSplit(name: string, id: string)
    requires OneLine(name) && OneLine(id) && |id| > 0
    ensures SplitLines(MachineTypePrefix + name + "=" + id + "\n" + RealMachineIdPrefix + id)
         == [MachineTypePrefix + name + "=" + id, RealMachineIdPrefix + id]
  {
    var l1 := MachineTypePrefix + name + "=" + id;
    var l2 := RealMachineIdPrefix + id;
    KnownIdLineBreaks(name, id);
    SplitTwoLines(l1, l2);
    assert MachineTypePrefix + name + "=" + id + "\n" + RealMachineIdPrefix + id == l1 + "\n" + l2;
  }

  /** The two configuration lines that define `<id>` as `<name>` and then name `<id>` as the real id. */
  lemma KnownIdLines(name: string, id: string)
    requires '=' !in name && (|name| == 0 || !IsSpace(name[|name| - 1])) && OneLine(name)
    requires |id| > 0 && '=' !in id && ':' !in id && !IsSpace(id[0]) && !IsSpace(id[|id| - 1]) && OneLine(id)
    ensures var ds := Directives(SplitLines(MachineTypePrefix + name + "=" + id + "\n" + RealMachineIdPrefix + id));
            |ds| == 2 && ds[0] == Definition(id, name) && ds[1] == RealId(id)
  {
    KnownIdSplit(name, id);
    DefinitionLine(name, id);
    RealIdLine(id);
  }

  lemma KnownIdTables(ds: seq<Directive>, name: string, id: string)
    requires |ds| == 2 && ds[0] == Definition(id, name) && ds[1] == RealId(id)
    ensures DefinitionTable(ds) == map[id := name]
    ensures LastRealId(ds) == Some(id)
  {
    ScanStep(ds, 0);
    ScanStep(ds, 1);
    assert ds[..0] == [] && ds[..2] == ds;
  }

  /**
   * A definition of `<id>` as `<name>` followed by the real id `<id>` identifies
   * the machine as `<name>`, displayed with `_` as space.
   */
  lemma KnownIdResolution(name: string, id: string, model: string, display: string)
    requires '=' !in name && (|name| == 0 || !IsSpace(name[|name| - 1])) && OneLine(name)
    requires |id| > 0 && '=' !in id && ':' !in id && !IsSpace(id[0]) && !IsSpace(id[|id| - 1]) && OneLine(id)
    ensures ConfigIdentity(MachineTypePrefix + name + "=" + id + "\n" + RealMachineIdPrefix + id, model, display)
         == (name, ReplaceChar(name, '_', ' '))
  {
    KnownIdLines(name, id);
    TwoLineIdentity(MachineTypePrefix + name + "=" + id + "\n" + RealMachineIdPrefix + id, name, id, model, display);
  }

  /** Text whose two lines define `<id>` as `<name>` and then name `<id>` resolves to `<name>`. */
  lemma TwoLineIdentity(content: string, name: string, id: string, model: string, display: string)
    requires |id| > 0
    requires var ds := Directives(SplitLines(content));
             |ds| == 2 && ds[0] == Definition(id, name) && ds[1] == RealId(id)
    ensures ConfigIdentity(content, model, display) == (name, ReplaceChar(name, '_', ' '))
  {
    var ds := Directives(SplitLines(content));
    KnownIdTables(ds, name, id);
  }

  /** The single line `REAL_MACHINE_TYPE:<id>` has the one directive naming `<id>`. */
  lemma UnknownIdLines(id: string)
    requires |id| > 0 && ':' !in id && !IsSpace(id[0]) && !IsSpace(id[|id| - 1]) && OneLine(id)
    ensures var ds := Directives(SplitLines(RealMachineIdPrefix + id));
            |ds| == 1 && ds[0] == RealId(id)
  {
    var l := RealMachineIdPrefix + id;
    assert SplitLines(l) == [l] by {
      PrefixesAreOneLine();
      OneLineConcat(RealMachineIdPrefix, id);
      assert l == Join([l], '\n');
      SplitLinesJoin([l]);
    }
    RealIdLine(id);
  }

  /** Text whose one line names `<id>`, with no definition, resolves to the id itself. */
  lemma OneLineIdentity(content: string, id: string, model: string, display: string)
    requires |id| > 0
    requires var ds := Directives(SplitLines(content));
             |ds| == 1 && ds[0] == RealId(id)
    ensures ConfigIdentity(content, model, display) == (id, "ID " + id)
  {
    var ds := Directives(SplitLines(content));
    OneRealIdTables(ds, id);
  }

  lemma OneRealIdTables(ds: seq<Directive>, id: string)
    requires |ds| == 1 && ds[0] == RealId(id)
    ensures DefinitionTable(ds) == map[]
    ensures LastRealId(ds) == Some(id)
  {
    ScanStep(ds, 0);
    assert ds[..0] == [] && ds[..1] == ds;
  }

  /** A real id without a definition becomes the model name, displayed as "ID <id>". */
  lemma UnknownIdResolution(id: string, model: string, display: string)
    requires |id| > 0 && ':' !in id && !IsSpace(id[0]) && !IsSpace(id[|id| - 1]) && OneLine(id)
    ensures ConfigIdentity(RealMachineIdPrefix + id, model, display) == (id, "ID " + id)
  {
    UnknownIdLines(id);
    OneLineIdentity(RealMachineIdPrefix + id, id, model, display);
  }

  /** The mount count the parse leaves: 1 for the equipped models, 0 otherwise. */
  function InitialMountCount(model: string): (count: int)
    ensures count == 1 <==> model in EquippedModels
    ensures count == 0 <==> model !in EquippedModels
  {
    if model in EquippedModels then MinCountForEquippedModels else DefaultMinMountCount
  }

  // ===========================================================================
  // Mount-count validation

  datatype MountLimits = MountLimits(min: int, max: int, description: string)

  function Get(features: map<string, bool>, key: string): bool {
    key in features && features[key]
  }

  /** The range by priority: small shelf, then big shelf, then the AS100 model, then the default. */
  function MountRange(features: map<string, bool>, model: string): (r: MountLimits)
    ensures 0 <= r.min <= r.max <= DefaultMaxMountCount
    ensures Get(features, CreateShelf) ==> r.min == 1 && r.max == 9
    ensures !Get(features, CreateShelf) && Get(features, CreateBigShelf) ==> r.min == 1 && r.max == 25
    ensures !AnyShelf(features) && model == "AS100" ==> r.min == 1 && r.max == 10
    ensures !AnyShelf(features) && model != "AS100" ==> r == MountLimits(0, 25, "")
    ensures r.min == 1 <==> AnyShelf(features) || model == "AS100"
  {
    if Get(features, CreateShelf) then
      MountLimits(MinCountForEquippedModels, SmallShelfLimit, "(Small Shelf Limit)")
    else if Get(features, CreateBigShelf) then
      MountLimits(MinCountForEquippedModels, DefaultMaxMountCount, "(Big Shelf Limit)")
    else if model == "AS100" then
      MountLimits(MinCountForEquippedModels, As100ModelLimit, "(AS100 Limit)")
    else
      MountLimits(DefaultMinMountCount, DefaultMaxMountCount, "")
  }

  /** `int(text) if text else 0`, with a failed conversion also giving 0. */
  function InputValue(text: string): (v: int)
    ensures ParseInt(text).Some? ==> v == ParseInt(text).value
    ensures ParseInt(text).None? ==> v == DefaultMinMountCount
  {
    if text == "" then DefaultMinMountCount
    else match ParseInt(text)
      case Some(v) => v
      case None => DefaultMinMountCount
  }

  /** `max(lo, min(v, hi))`: the nearest value of [lo, hi] to v. */
  function Clamp(v: int, lo: int, hi: int): (c: int)
    requires lo <= hi
    ensures lo <= c <= hi
    ensures lo <= v <= hi ==> c == v
    ensures v < lo ==> c == lo
    ensures v > hi ==> c == hi
  {
    var upper := if v < hi then v else hi;
    if lo > upper then lo else upper
  }

  function RangeHint(r: MountLimits): (hint: string)
    requires 0 <= r.min <= r.max
    ensures StartsWith(hint, "Range: ") && EndsWith(hint, r.description)
  {
    "Range: " + NatToString(r.min) + " - " + NatToString(r.max) + " " + r.description
  }

  /** The text `logic_validate_mount_count` returns reads back as the stored value, which lies in range. */
  lemma RevalidationIsStable(text: string, features: map<string, bool>, model: string)
    ensures var r := MountRange(features, model);
            var c := Clamp(InputValue(text), r.min, r.max);
            c >= 0 && InputValue(NatToString(c)) == c && r.min <= c <= r.max
  {
    var r := MountRange(features, model);
    var c := Clamp(InputValue(text), r.min, r.max);
    NatToStringBelow100(c);
    ParseNatToString(c);
  }

  /** "100" with no shelf on a model other than AS100 is clamped to 25 and flagged. */
  lemma ValidateExampleTooLarge(features: map<string, bool>, model: string)
    requires !Get(features, CreateShelf) && !Get(features, CreateBigShelf) && model != "AS100"
    ensures var r := MountRange(features, model);
            var v := InputValue("100");
            Clamp(v, r.min, r.max) == 25 && (v < r.min || v > r.max)
  {
    assert NatToString(100) == "100";
    ParseNatToString(100);
  }

  /**
   * "\x1c5" with no shelf on a model other than AS100 reads as 0 (`int()` does
   * not skip U+001C), so it is stored as 0 and not flagged.
   */
  lemma ValidateExampleSeparator(features: map<string, bool>, model: string)
    requires !Get(features, CreateShelf) && !Get(features, CreateBigShelf) && model != "AS100"
    ensures var r := MountRange(features, model);
            var v := InputValue("\U{1C}5");
            Clamp(v, r.min, r.max) == 0 && !(v < r.min || v > r.max)
  {
    assert ['\U{1C}'] + "5" == "\U{1C}5";
    SeparatorIsNotIntSpace('\U{1C}', "5");
  }

  /** "5" with the small shelf on stays 5 and is not flagged. */
  lemma ValidateExampleSmallShelf(features: map<string, bool>, model: string)
    requires Get(features, CreateShelf)
    ensures var r := MountRange(features, model);
            var v := InputValue("5");
            Clamp(v, r.min, r.max) == 5 && r.min <= v <= r.max
  {
    assert NatToString(5) == "5";
    ParseNatToString(5);
  }

  /**
   * A digit run longer than `int()` converts reads as 0, like unparsable text:
   * the count becomes the range's minimum, and it is flagged exactly when that
   * minimum is above 0.
   */
  lemma ValidateTooManyDigits(text: string, features: map<string, bool>, model: string)
    requires IsDigitRun(text) && |RemoveUnderscores(text)| > MaxStrDigits
    ensures var r := MountRange(features, model);
            var v := InputValue(text);
            v == 0 && Clamp(v, r.min, r.max) == r.min && ((v < r.min || v > r.max) <==> r.min > 0)
  {
    ParseTooManyDigits(text);
  }

  // ===========================================================================
  // Feature flags

  predicate IsShelf(key: string) {
    key == CreateShelf || key == CreateBigShelf
  }

  function OtherShelf(key: string): string {
    if key == CreateShelf then CreateBigShelf else CreateShelf
  }

  predicate AnyShelf(features: map<string, bool>) {
    Get(features, CreateShelf) || Get(features, CreateBigShelf)
  }

  /** The two rules the toggle keeps: at most one shelf, and no shelf together with the shift-cut device. */
  predicate Consistent(features: map<string, bool>) {
    && !(Get(features, CreateShelf) && Get(features, CreateBigShelf))
    && !(AnyShelf(features) && Get(features, ShiftCutDevice))
  }

  /**
   * The transition of `logic_toggle_feature`, as a table of three cases:
   * a shelf switched on, the shift-cut device switched on beside a shelf,
   * and every other toggle, which flips only its own key.
   */
  function Toggled(features: map<string, bool>, key: string): (after: map<string, bool>)
    ensures Get(after, key) <==> !Get(features, key) && !(key == ShiftCutDevice && AnyShelf(features))
  {
    var on := !Get(features, key);
    if IsShelf(key) && on then
      features[key := true][OtherShelf(key) := false][RobotMode := true][ShiftCutDevice := false]
    else if key == ShiftCutDevice && on && AnyShelf(features) then
      features[ShiftCutDevice := false]
    else
      features[key := on]
  }

  /** Switching a shelf on turns the other shelf off, RobotMode on and ShiftCutDevice off. */
  lemma ShelfOnForcesRules(features: map<string, bool>, key: string)
    requires IsShelf(key) && !Get(features, key)
    ensures var after := Toggled(features, key);
            Get(after, key) && !Get(after, OtherShelf(key)) && Get(after, RobotMode) && !Get(after, ShiftCutDevice)
  {
  }

  /** Switching ShiftCutDevice on beside an active shelf leaves it off and changes nothing else. */
  lemma ShiftCutBlockedByShelf(features: map<string, bool>)
    requires !Get(features, ShiftCutDevice) && AnyShelf(features)
    ensures var after := Toggled(features, ShiftCutDevice);
            && !Get(after, ShiftCutDevice)
            && (forall k :: k != ShiftCutDevice ==> (k in after <==> k in features))
            && (forall k :: k != ShiftCutDevice && k in features ==> after[k] == features[k])
  {
  }

  /** Switching ShiftCutDevice on with no shelf turns it on. */
  lemma ShiftCutWithoutShelf(features: map<string, bool>)
    requires !Get(features, ShiftCutDevice) && !AnyShelf(features)
    ensures Toggled(features, ShiftCutDevice) == features[ShiftCutDevice := true]
  {
  }

  /**
   * A toggle keeps every key it finds and changes no flag other than its own,
   * the two shelves, RobotMode and the shift-cut device.
   */
  lemma ToggleLeavesOtherKeys(features: map<string, bool>, key: string, k: string)
    requires k in features && k != key && !IsShelf(k) && k != RobotMode && k != ShiftCutDevice
    ensures key in Toggled(features, key) && features.Keys <= Toggled(features, key).Keys
    ensures Toggled(features, key)[k] == features[k]
  {
  }

  /** Toggling RobotMode or an unlisted key, or switching any key off, flips that key alone. */
  lemma PlainToggleFlipsOnlyItsKey(features: map<string, bool>, key: string)
    requires Get(features, key) || key == RobotMode || (!IsShelf(key) && key != ShiftCutDevice)
    ensures Toggled(features, key) == features[key := !Get(features, key)]
  {
  }

  /**
   * Switching a shelf off turns that shelf off, leaves the other shelf as it
   * was, and does not switch RobotMode off: logic.py has no rule tying
   * RobotMode to the shelves other than switching it on.
   */
  lemma ShelfOffKeepsRobotMode(features: map<string, bool>, key: string)
    requires IsShelf(key) && Get(features, key) && Get(features, RobotMode)
    ensures !Get(Toggled(features, key), key)
    ensures Get(Toggled(features, key), OtherShelf(key)) == Get(features, OtherShelf(key))
    ensures Get(Toggled(features, key), RobotMode)
  {
  }

  /** Every toggle keeps both rules. */
  lemma ToggleKeepsConsistent(features: map<string, bool>, key: string)
    requires Consistent(features)
    ensures Consistent(Toggled(features, key))
  {
  }

  /** The flags after a sequence of toggles. */
  function ToggleAll(features: map<string, bool>, keys: seq<string>): map<string, bool>
    decreases |keys|
  {
    if |keys| == 0 then features else ToggleAll(Toggled(features, keys[0]), keys[1..])
  }

  /** From the initial all-false flags, any sequence of toggles keeps both rules. */
  lemma {:induction false} ReachableFlagsConsistent(keys: seq<string>)
    ensures Consistent(ToggleAll(InitialFeatures, keys))
  {
    ToggleAllKeepsConsistent(InitialFeatures, keys);
  }

  lemma {:induction false} ToggleAllKeepsConsistent(features: map<string, bool>, keys: seq<string>)
    requires Consistent(features)
    ensures Consistent(ToggleAll(features, keys))
    decreases |keys|
  {
    if |keys| > 0 {
      ToggleKeepsConsistent(features, keys[0]);
      ToggleAllKeepsConsistent(Toggled(features, keys[0]), keys[1..]);
    }
  }

  /** The keys of `feature_state` in insertion order, after `key` has been assigned. */
  function Registered(order: seq<string>, key: string): (r: seq<string>)
    ensures key in r && |r| == |order| + (if key in order then 0 else 1)
  {
    if key in order then order else order + [key]
  }

  /** Registering a key keeps the existing order in front of it. */
  lemma RegisteredKeepsOrder(order: seq<string>, key: string)
    ensures Registered(order, key)[..|order|] == order
  {
  }

  /** `feature_state` as a dict: `order` its keys in insertion order, `features` its contents. */
  ghost predicate FeatureTable(order: seq<string>, features: map<string, bool>) {
    && |order| >= |StandardFeatures| && order[..|StandardFeatures|] == StandardFeatures
    && (forall i, j :: 0 <= i < j < |order| ==> order[i] != order[j])
    && (forall k :: k in features <==> k in order)
  }

  lemma StandardKeysDistinct()
    ensures ShiftCutDevice != CreateShelf && ShiftCutDevice != CreateBigShelf && ShiftCutDevice != RobotMode
    ensures CreateShelf != CreateBigShelf && CreateShelf != RobotMode && CreateBigShelf != RobotMode
  {
    assert ShiftCutDevice[0] != CreateShelf[0] && ShiftCutDevice[0] != CreateBigShelf[0] && ShiftCutDevice[0] != RobotMode[0];
    assert |CreateShelf| != |CreateBigShelf| && CreateShelf[0] != RobotMode[0] && CreateBigShelf[0] != RobotMode[0];
  }

  /** The four standard keys are always in `feature_state`. */
  lemma StandardKeysPresent(order: seq<string>, features: map<string, bool>)
    requires FeatureTable(order, features)
    ensures ShiftCutDevice in features && CreateShelf in features && CreateBigShelf in features && RobotMode in features
  {
    assert order[0] == ShiftCutDevice && order[1] == CreateShelf && order[2] == CreateBigShelf && order[3] == RobotMode;
  }

  /** A toggle keeps the dict shape: the standard keys first, no repeats, and the order lists exactly the keys. */
  lemma ToggleKeepsTable(order: seq<string>, features: map<string, bool>, key: string)
    requires FeatureTable(order, features)
    ensures FeatureTable(Registered(order, key), Toggled(features, key))
  {
    assert order[0] == ShiftCutDevice && order[1] == CreateShelf && order[2] == CreateBigShelf && order[3] == RobotMode;
    var order' := Registered(order, key);
    assert |order'| >= |StandardFeatures| && order'[..|StandardFeatures|] == StandardFeatures by {
      assert order'[..|StandardFeatures|] == order[..|StandardFeatures|];
    }
    assert forall k :: k in Toggled(features, key) <==> k in order';
  }

  // ===========================================================================
  // File order

  /** Python's `list.pop(i)` index: negative indices count from the end. */
  function PopIndex(n: nat, i: int): (k: nat)
    requires -(n as int) <= i < n
    ensures k < n
  {
    if i < 0 then i + n else i
  }

  /** Python's `list.insert(i, x)` position in a list of length m: negative from the end, clamped to [0, m]. */
  function InsertIndex(m: nat, i: int): (k: nat)
    ensures k <= m
  {
    if i < 0 then (if i + m < 0 then 0 else i + m) else if i > m then m else i
  }

  /**
   * The list with the element at `from` moved to position `to`: the elements
   * strictly between the two shift by one towards `from`, the rest stay put.
   */
  function Moved<T>(s: seq<T>, from: nat, to: nat): (r: seq<T>)
    requires from < |s| && to < |s|
    ensures |r| == |s|
    ensures r[to] == s[from]
    ensures forall k :: 0 <= k < |s| && (k < from || k > to) && (k < to || k > from) ==> r[k] == s[k]
  {
    seq(|s|, k requires 0 <= k < |s| =>
      if k == to then s[from]
      else if from < to && from <= k < to then s[k + 1]
      else if to < from && to < k <= from then s[k - 1]
      else s[k])
  }

  /** Moving is popping the element and inserting it at the target position. */
  lemma MovedIsPopInsert<T>(s: seq<T>, from: nat, to: nat)
    requires from < |s| && to < |s|
    ensures var rest := s[..from] + s[from + 1..];
            Moved(s, from, to) == rest[..to] + [s[from]] + rest[to..]
  {
    var rest := s[..from] + s[from + 1..];
    var r := rest[..to] + [s[from]] + rest[to..];
    assert |r| == |s|;
    forall k | 0 <= k < |s| ensures Moved(s, from, to)[k] == r[k] {
      if k < to {
        assert r[k] == rest[k];
      } else if k > to {
        assert r[k] == rest[k - 1];
      }
    }
  }

  /** A move keeps the same elements with the same multiplicities. */
  lemma MovedIsPermutation<T>(s: seq<T>, from: nat, to: nat)
    requires from < |s| && to < |s|
    ensures multiset(Moved(s, from, to)) == multiset(s)
  {
    var x := s[from];
    var rest := s[..from] + s[from + 1..];
    MovedIsPopInsert(s, from, to);
    assert multiset(Moved(s, from, to)) == multiset(rest[..to]) + multiset{x} + multiset(rest[to..]);
    assert multiset(rest) == multiset(rest[..to]) + multiset(rest[to..]) by {
      assert rest == rest[..to] + rest[to..];
    }
    assert multiset(s) == multiset(s[..from]) + multiset{x} + multiset(s[from + 1..]) by {
      assert s == s[..from] + [x] + s[from + 1..];
    }
    assert multiset(rest) == multiset(s[..from]) + multiset(s[from + 1..]);
    assert multiset(Moved(s, from, to)) == multiset(rest) + multiset{x};
    assert multiset(s) == multiset(rest) + multiset{x};
  }

  /** Moving back from the target to the source restores the list. */
  lemma MovedBack<T>(s: seq<T>, from: nat, to: nat)
    requires from < |s| && to < |s|
    ensures Moved(Moved(s, from, to), to, from) == s
  {
  }

  // ===========================================================================
  // The descriptor compiled for the output archive

  datatype JsonValue = JBool(b: bool) | JString(s: string)

  /** One single-key object of the `Features` list. */
  datatype FeatureEntry = FeatureEntry(key: string, value: JsonValue)

  datatype Descriptor = Descriptor(machineModel: string, testBars: bool, fileOrder: seq<string>,
                                   mountCount: int, features: seq<FeatureEntry>)

  /** The object an active key contributes: shelves as `{"createShelf": size}`, others as `{key: true}`. */
  function EntryFor(key: string): (e: FeatureEntry)
    ensures e.key == (if IsShelf(key) then CreateShelf else key)
    ensures e.value.JString? <==> IsShelf(key)
  {
    if key == CreateShelf then FeatureEntry(CreateShelf, JString("smallShelf"))
    else if key == CreateBigShelf then FeatureEntry(CreateShelf, JString("bigShelf"))
    else FeatureEntry(key, JBool(true))
  }

  /** The `Features` list: one object per active key, in key order. */
  function FeatureEntries(order: seq<string>, features: map<string, bool>): (entries: seq<FeatureEntry>)
    ensures |entries| <= |order|
    ensures forall e :: e in entries ==> exists k :: k in order && Get(features, k) && e == EntryFor(k)
  {
    if |order| == 0 then []
    else
      var key := order[|order| - 1];
      FeatureEntries(order[..|order| - 1], features) + (if Get(features, key) then [EntryFor(key)] else [])
  }

  lemma {:induction false} FeatureEntriesAppend(a: seq<string>, b: seq<string>, features: map<string, bool>)
    ensures FeatureEntries(a + b, features) == FeatureEntries(a, features) + FeatureEntries(b, features)
    decreases |b|
  {
    if |b| == 0 {
      assert a + b == a;
    } else {
      var n := |b| - 1;
      assert (a + b)[..|a + b| - 1] == a + b[..n];
      FeatureEntriesAppend(a, b[..n], features);
    }
  }

  /**
   * With the four standard keys first, the list holds ShiftCutDevice,
   * then the small shelf, then the big shelf, then RobotMode (each when on),
   * then the later keys.
   */
  lemma FeatureEntriesOrder(extra: seq<string>, features: map<string, bool>)
    ensures FeatureEntries(StandardFeatures + extra, features)
         == (if Get(features, ShiftCutDevice) then [FeatureEntry(ShiftCutDevice, JBool(true))] else [])
          + (if Get(features, CreateShelf) then [FeatureEntry(CreateShelf, JString("smallShelf"))] else [])
          + (if Get(features, CreateBigShelf) then [FeatureEntry(CreateShelf, JString("bigShelf"))] else [])
          + (if Get(features, RobotMode) then [FeatureEntry(RobotMode, JBool(true))] else [])
          + FeatureEntries(extra, features)
  {
    FeatureEntriesAppend(StandardFeatures, extra, features);
    var s := StandardFeatures;
    assert s[..3] == [ShiftCutDevice, CreateShelf, CreateBigShelf];
    assert s[..3][..2] == [ShiftCutDevice, CreateShelf];
    assert s[..3][..2][..1] == [ShiftCutDevice];
    assert [ShiftCutDevice][..0] == [];
    assert FeatureEntries([], features) == [];
    var e1 := FeatureEntries([ShiftCutDevice], features);
    var e2 := FeatureEntries([ShiftCutDevice, CreateShelf], features);
    var e3 := FeatureEntries([ShiftCutDevice, CreateShelf, CreateBigShelf], features);
    assert e1 == (if Get(features, ShiftCutDevice) then [FeatureEntry(ShiftCutDevice, JBool(true))] else []);
    assert e2 == e1 + (if Get(features, CreateShelf) then [FeatureEntry(CreateShelf, JString("smallShelf"))] else []);
    assert e3 == e2 + (if Get(features, CreateBigShelf) then [FeatureEntry(CreateShelf, JString("bigShelf"))] else []);
    assert FeatureEntries(s, features) == e3 + (if Get(features, RobotMode) then [FeatureEntry(RobotMode, JBool(true))] else []);
  }

  /** A `createShelf` object in the list comes from an active shelf key. */
  lemma {:induction false} ShelfEntrySource(order: seq<string>, features: map<string, bool>, i: nat)
    requires i < |FeatureEntries(order, features)| && FeatureEntries(order, features)[i].key == CreateShelf
    ensures exists k :: 0 <= k < |order| && IsShelf(order[k]) && Get(features, order[k])
                        && FeatureEntries(order, features)[i] == EntryFor(order[k])
  {
    var n := |order| - 1;
    var pre := FeatureEntries(order[..n], features);
    if i < |pre| {
      ShelfEntrySource(order[..n], features, i);
      var k :| 0 <= k < n && IsShelf(order[..n][k]) && Get(features, order[..n][k]) && pre[i] == EntryFor(order[..n][k]);
      assert order[k] == order[..n][k];
    } else {
      assert FeatureEntries(order, features)[i] == EntryFor(order[n]);
    }
  }

  /** While the flags are consistent and the keys distinct, the list holds at most one `createShelf` object. */
  lemma {:induction false} AtMostOneShelfEntry(order: seq<string>, features: map<string, bool>, i: nat, j: nat)
    requires Consistent(features)
    requires forall a, b :: 0 <= a < b < |order| ==> order[a] != order[b]
    requires i < j < |FeatureEntries(order, features)|
    ensures FeatureEntries(order, features)[i].key == CreateShelf ==> FeatureEntries(order, features)[j].key != CreateShelf
  {
    var n := |order| - 1;
    var pre := FeatureEntries(order[..n], features);
    if FeatureEntries(order, features)[i].key == CreateShelf {
      if j < |pre| {
        AtMostOneShelfEntry(order[..n], features, i, j);
      } else {
        ShelfEntrySource(order[..n], features, i);
        var k :| 0 <= k < n && IsShelf(order[..n][k]) && Get(features, order[..n][k]) && pre[i] == EntryFor(order[..n][k]);
        assert order[k] == order[..n][k];
        assert order[k] != order[n];
      }
    }
  }

  // ===========================================================================
  // The session object

  class MachineBusinessLogic {
    /** The archive at `uploaded_file_path`: initially the empty path, where nothing exists. */
    var uploadedFile: ZipService.ArchiveFile
    var machineModelName: string
    var machineDisplayString: string
    var mountCount: int
    var activeFolder: string
    var isBarsMode: bool
    var currentFileOrder: seq<string>
    /** The keys of `feature_state` in insertion order. */
    var featureOrder: seq<string>
    /** The contents of `feature_state`. */
    var featureState: map<string, bool>

    ghost predicate Valid()
      reads this
    {
      FeatureTable(featureOrder, featureState) && Consistent(featureState)
    }

    constructor ()
      ensures Valid()
      ensures uploadedFile == ZipService.Absent
      ensures machineModelName == "UNKNOWN" && machineDisplayString == "Unknown Machine"
      ensures mountCount == DefaultMinMountCount && activeFolder == "Bars/" && isBarsMode
      ensures currentFileOrder == []
      ensures featureOrder == StandardFeatures && featureState == InitialFeatures
    {
      uploadedFile := ZipService.Absent;
      machineModelName := "UNKNOWN";
      machineDisplayString := "Unknown Machine";
      mountCount := DefaultMinMountCount;
      activeFolder := "Bars/";
      isBarsMode := true;
      currentFileOrder := [];
      featureOrder := StandardFeatures;
      featureState := InitialFeatures;
    }

    /** Records the uploaded archive as the session's archive and returns its file name. */
    method HandleUpload(file: ZipService.ArchiveFile, fileName: string) returns (name: string)
      modifies this`uploadedFile
      ensures uploadedFile == file && name == fileName
    {
      uploadedFile := file;
      name := fileName;
    }

    /**
     * Reads the configuration member (lenient decoding) and settles the
     * machine identity; empty text leaves the session as it was.
     */
    method ParseConfig(decode: seq<ZipService.byte> -> string)
      modifies this`machineModelName, this`machineDisplayString, this`mountCount
      ensures var raw := ZipService.ReadSingleFile(uploadedFile, ConfigMemberName, decode);
              if raw == "" then
                && machineModelName == old(machineModelName)
                && machineDisplayString == old(machineDisplayString)
                && mountCount == old(mountCount)
              else
                var identity := ConfigIdentity(raw, old(machineModelName), old(machineDisplayString));
                && machineModelName == identity.0
                && machineDisplayString == identity.1
                && mountCount == InitialMountCount(identity.0)
    {
      var rawContent := ZipService.ReadSingleFile(uploadedFile, ConfigMemberName, decode);
      ApplyConfigText(rawContent);
    }

    /** The part of the parse after the member is read: the line scan, the resolution and the initial mount count. */
    method ApplyConfigText(rawContent: string)
      modifies this`machineModelName, this`machineDisplayString, this`mountCount
      ensures if rawContent == "" then
                && machineModelName == old(machineModelName)
                && machineDisplayString == old(machineDisplayString)
                && mountCount == old(mountCount)
              else
                var identity := ConfigIdentity(rawContent, old(machineModelName), old(machineDisplayString));
                && machineModelName == identity.0
                && machineDisplayString == identity.1
                && mountCount == InitialMountCount(identity.0)
    {
      if rawContent == "" {
        return;
      }
      machineModelName, machineDisplayString := ResolveMachine(rawContent, machineModelName, machineDisplayString);
      if machineModelName in EquippedModels {
        mountCount := 1;
      } else {
        mountCount := 0;
      }
    }

    /**
     * Clamps the parsed input into the range the active features and the model
     * allow, stores it as the mount count, and reports whether the input lay
     * outside that range.
     */
    method ValidateMountCount(userInputText: string) returns (clampedText: string, hasError: bool, hintMessage: string)
      modifies this`mountCount
      ensures var r := MountRange(featureState, machineModelName);
              var v := InputValue(userInputText);
              && r.min <= mountCount <= r.max
              && mountCount == Clamp(v, r.min, r.max)
              && (hasError <==> v < r.min || v > r.max)
              && clampedText == NatToString(mountCount)
              && hintMessage == RangeHint(r)
    {
      var limits := MountRange(featureState, machineModelName);
      var numericValue := InputValue(userInputText);
      var clampedValue := if numericValue < limits.max then numericValue else limits.max;
      clampedValue := if limits.min > clampedValue then limits.min else clampedValue;
      mountCount := clampedValue;
      hasError := numericValue < limits.min || numericValue > limits.max;
      hintMessage := "Range: " + NatToString(limits.min) + " - " + NatToString(limits.max) + " " + limits.description;
      clampedText := NatToString(clampedValue);
    }

    /** Flips one flag, then applies the shelf rules and the shift-cut rule. */
    method ToggleFeature(featureName: string)
      requires Valid()
      modifies this`featureState, this`featureOrder
      ensures Valid()
      ensures featureState == Toggled(old(featureState), featureName)
      ensures featureOrder == Registered(old(featureOrder), featureName)
    {
      ghost var before, orderBefore := featureState, featureOrder;
      ToggleKeepsConsistent(before, featureName);
      ToggleKeepsTable(orderBefore, before, featureName);
      StandardKeysPresent(orderBefore, before);
      StandardKeysDistinct();
      assert featureName in featureState <==> featureName in featureOrder;
      var current := Get(featureState, featureName);
      if featureName !in featureState {
        featureOrder := featureOrder + [featureName];
      }
      featureState := featureState[featureName := !current];
      if (featureName == CreateShelf || featureName == CreateBigShelf) && featureState[featureName] {
        var other := if featureName == CreateShelf then CreateBigShelf else CreateShelf;
        assert other == OtherShelf(featureName);
        featureState := featureState[other := false];
        featureState := featureState[RobotMode := true];
        featureState := featureState[ShiftCutDevice := false];
      }
      if featureName == ShiftCutDevice && featureState[ShiftCutDevice] {
        if featureState[CreateShelf] || featureState[CreateBigShelf] {
          featureState := featureState[ShiftCutDevice := false];
          assert featureState == before[ShiftCutDevice := false];
        }
      }
    }

    /** Picks the folder of the active mode and lists its files from the archive. */
    method LoadFilesForMode()
      modifies this`activeFolder, this`currentFileOrder
      ensures activeFolder == if isBarsMode then "Bars/" else "Profiles/"
      ensures currentFileOrder == ZipService.FolderListing(uploadedFile, activeFolder)
    {
      activeFolder := if isBarsMode then "Bars/" else "Profiles/";
      currentFileOrder := ZipService.GetFileNamesInFolder(uploadedFile, activeFolder);
    }

    /** Moves the file at `sourceIndex` to `destinationIndex` (pop, then insert). */
    method ReorderDragDrop(sourceIndex: int, destinationIndex: int)
      requires sourceIndex == destinationIndex || -|currentFileOrder| <= sourceIndex < |currentFileOrder|
      modifies this`currentFileOrder
      ensures sourceIndex == destinationIndex ==> currentFileOrder == old(currentFileOrder)
      ensures sourceIndex != destinationIndex ==>
                var n := |old(currentFileOrder)|;
                currentFileOrder == Moved(old(currentFileOrder), PopIndex(n, sourceIndex), InsertIndex(n - 1, destinationIndex))
    {
      if sourceIndex != destinationIndex {
        var n := |currentFileOrder|;
        ghost var before := currentFileOrder;
        var i := PopIndex(n, sourceIndex);
        var movedItem := currentFileOrder[i];
        currentFileOrder := currentFileOrder[..i] + currentFileOrder[i + 1..];
        var j := InsertIndex(|currentFileOrder|, destinationIndex);
        currentFileOrder := currentFileOrder[..j] + [movedItem] + currentFileOrder[j..];
        MovedIsPopInsert(before, i, j);
      }
    }

    /** Compiles the descriptor written into the output archive. */
    method PrepareFinalData() returns (finalData: Descriptor)
      ensures finalData == Descriptor(machineModelName, isBarsMode, currentFileOrder, mountCount,
                                      FeatureEntries(featureOrder, featureState))
    {
      var finalFeatures: seq<FeatureEntry> := [];
      for i := 0 to |featureOrder|
        invariant finalFeatures == FeatureEntries(featureOrder[..i], featureState)
      {
        assert featureOrder[..i + 1][..i] == featureOrder[..i];
        var key := featureOrder[i];
        if Get(featureState, key) {
          if key == CreateShelf {
            finalFeatures := finalFeatures + [FeatureEntry(CreateShelf, JString("smallShelf"))];
          } else if key == CreateBigShelf {
            finalFeatures := finalFeatures + [FeatureEntry(CreateShelf, JString("bigShelf"))];
          } else {
            finalFeatures := finalFeatures + [FeatureEntry(key, JBool(true))];
          }
        }
      }
      assert featureOrder[..|featureOrder|] == featureOrder;
      finalData := Descriptor(machineModelName, isBarsMode, currentFileOrder, mountCount, finalFeatures);
    }
  }
}
