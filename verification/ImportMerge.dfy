/** `mergeDuplicateImports` of `scripts/sync-agent-host-protocol.ts`, from the split lines on. */
module ImportMerge {
  import opened Common
  import opened ImportLines

  const PLACEHOLDER := "__IMPORT_PLACEHOLDER__"

  /** What a line is for the merge: an import from a module, or text to keep. */
  datatype Mark = Import(mod: string) | Text(line: string)

  function MarkOf(l: Line): Mark {
    if l.Other? then Text(l.text) else Import(l.mod)
  }

  function Shape(lines: seq<Line>): seq<Mark> {
    seq(|lines|, i requires 0 <= i < |lines| => MarkOf(lines[i]))
  }

  function AddedTypes(l: Line, mod: string): seq<string> {
    if l.TypeImport? && l.mod == mod then l.names else []
  }

  function AddedValues(l: Line, mod: string): seq<string> {
    if l.ValueImport? && l.mod == mod then l.names else []
  }

  /** All names that the lines import from `mod` with `import type`. */
  function TypeNames(lines: seq<Line>, mod: string): seq<string> {
    if lines == [] then [] else TypeNames(lines[..|lines| - 1], mod) + AddedTypes(lines[|lines| - 1], mod)
  }

  /** All names that the lines import from `mod` with plain `import`. */
  function ValueNames(lines: seq<Line>, mod: string): seq<string> {
    if lines == [] then [] else ValueNames(lines[..|lines| - 1], mod) + AddedValues(lines[|lines| - 1], mod)
  }

  /** Each import only at its first place; other lines stay. */
  function Firsts(marks: seq<Mark>): seq<Mark> {
    if marks == [] then []
    else
      var before, m := marks[..|marks| - 1], marks[|marks| - 1];
      if m.Import? && m in before then Firsts(before) else Firsts(before) + [m]
  }

  /** The items in the order of their first occurrence: `[...new Set(names)]`. */
  function Distinct(names: seq<string>): seq<string> {
    if names == [] then []
    else
      var before, n := names[..|names| - 1], names[|names| - 1];
      if n in before then Distinct(before) else Distinct(before) + [n]
  }

  function Tagged(names: seq<string>): seq<string> {
    seq(|names|, i requires 0 <= i < |names| => "type " + names[i])
  }

  function ImportLine(entry: Entry, mod: string): string {
    var uniqueTypes, uniqueValues := Distinct(entry.typeNames), Distinct(entry.valueNames);
    if |uniqueValues| > 0 && |uniqueTypes| > 0 then Printed(VALUE_IMPORT, uniqueValues + Tagged(uniqueTypes), mod)
    else if |uniqueValues| > 0 then Printed(VALUE_IMPORT, uniqueValues, mod)
    else Printed(TYPE_IMPORT, uniqueTypes, mod)
  }

  function StagedMark(mark: Mark): string {
    if mark.Import? then PLACEHOLDER + mark.mod else mark.line
  }

  /** The list with placeholders that the first loop leaves behind. */
  function Staged(marks: seq<Mark>): seq<string> {
    seq(|marks|, i requires 0 <= i < |marks| => StagedMark(marks[i]))
  }

  /** The names collected for one module. */
  datatype Entry = Entry(typeNames: seq<string>, valueNames: seq<string>)

  function EntryOf(lines: seq<Line>, mod: string): Entry {
    Entry(TypeNames(lines, mod), ValueNames(lines, mod))
  }

  /** What the second loop makes of one staged line; `None` is the exception for an unknown module. */
  function MergedLine(imports: map<string, Entry>, staged: string): Option<string> {
    if !(PLACEHOLDER <= staged) then Some(staged)
    else if staged[|PLACEHOLDER|..] !in imports then None
    else Some(ImportLine(imports[staged[|PLACEHOLDER|..]], staged[|PLACEHOLDER|..]))
  }

  function MergedAll(imports: map<string, Entry>, staged: seq<string>): Option<seq<string>> {
    if staged == [] then Some([])
    else
      var before, last := MergedAll(imports, staged[..|staged| - 1]), MergedLine(imports, staged[|staged| - 1]);
      if before.None? || last.None? then None else Some(before.value + [last.value])
  }

  function WithLine(imports: map<string, Entry>, l: Line): map<string, Entry> {
    if l.Other? then imports
    else
      var entry := if l.mod in imports then imports[l.mod] else Entry([], []);
      imports[l.mod := if l.TypeImport? then entry.(typeNames := entry.typeNames + l.names)
                       else entry.(valueNames := entry.valueNames + l.names)]
  }

  /** The map that the first loop builds. */
  function Collected(lines: seq<Line>): map<string, Entry> {
    if lines == [] then map[] else WithLine(Collected(lines[..|lines| - 1]), lines[|lines| - 1])
  }

  function ParseAll(texts: seq<string>): seq<Line> {
    seq(|texts|, i requires 0 <= i < |texts| => ParseLine(texts[i]))
  }

  function MergedLines(lines: seq<Line>): Option<seq<string>> {
    MergedAll(Collected(lines), Staged(Firsts(Shape(lines))))
  }

  function Merged(texts: seq<string>): Option<seq<string>> {
    MergedLines(ParseAll(texts))
  }

  // ---------------------------------------------------------------------------------------------
  // The two loops
  // ---------------------------------------------------------------------------------------------

  lemma {:induction false} NotImported(lines: seq<Line>, mod: string)
    requires Import(mod) !in Shape(lines)
    ensures EntryOf(lines, mod) == Entry([], [])
  {
    if lines != [] {
      var before, l := lines[..|lines| - 1], lines[|lines| - 1];
      assert Shape(lines) == Shape(before) + [MarkOf(l)];
      NotImported(before, mod);
    }
  }

  /** The map has an entry for each imported module, holding that module's names. */
  lemma {:induction false} CollectedAt(lines: seq<Line>, mod: string)
    ensures mod in Collected(lines) <==> Import(mod) in Shape(lines)
    ensures mod in Collected(lines) ==> Collected(lines)[mod] == EntryOf(lines, mod)
  {
    if lines != [] {
      var before, l := lines[..|lines| - 1], lines[|lines| - 1];
      assert Shape(lines) == Shape(before) + [MarkOf(l)];
      CollectedAt(before, mod);
      if mod !in Collected(before) {
        NotImported(before, mod);
      }
    }
  }

  lemma CollectPush(lines: seq<Line>, k: nat)
    requires k < |lines|
    ensures Collected(lines[..k + 1]) == WithLine(Collected(lines[..k]), lines[k])
    ensures Staged(Firsts(Shape(lines[..k + 1]))) == Staged(Firsts(Shape(lines[..k]))) +
              if lines[k].Other? then [lines[k].text]
              else if lines[k].mod in Collected(lines[..k]) then [] else [PLACEHOLDER + lines[k].mod]
  {
    assert lines[..k + 1][..k] == lines[..k];
    var marks, all := Shape(lines[..k]), Shape(lines[..k + 1]);
    assert all == marks + [MarkOf(lines[k])];
    assert all[..|all| - 1] == marks;
    if !lines[k].Other? {
      CollectedAt(lines[..k], lines[k].mod);
    }
  }

  lemma UpdateTwice<T>(m: map<string, T>, k: string, v: T, w: T)
    ensures m[k := v][k := w] == m[k := w]
  {
  }

  /** The first loop, on the lines as the regular expressions have split them. */
  method CollectImports(lines: seq<Line>) returns (importsByModule: map<string, Entry>, otherLines: seq<string>)
    ensures importsByModule == Collected(lines)
    ensures otherLines == Staged(Firsts(Shape(lines)))
  {
    importsByModule, otherLines := map[], [];
    var seenModules: set<string> := {};
    for i := 0 to |lines|
      invariant importsByModule == Collected(lines[..i])
      invariant seenModules == importsByModule.Keys
      invariant otherLines == Staged(Firsts(Shape(lines[..i])))
    {
      var line := lines[i];
      CollectPush(lines, i);
      if line.TypeImport? || line.ValueImport? {
        var mod := line.mod;
        ghost var before := importsByModule;
        if mod !in importsByModule {
          importsByModule := importsByModule[mod := Entry([], [])];
        }
        var entry := importsByModule[mod];
        entry := if line.TypeImport? then entry.(typeNames := entry.typeNames + line.names)
                 else entry.(valueNames := entry.valueNames + line.names);
        importsByModule := importsByModule[mod := entry];
        UpdateTwice(before, mod, Entry([], []), entry);
        if mod !in seenModules {
          seenModules := seenModules + {mod};
          otherLines := otherLines + [PLACEHOLDER + mod];
        }
      } else {
        otherLines := otherLines + [line.text];
      }
    }
    assert lines[..|lines|] == lines;
  }

  lemma {:induction false} FailurePersists(imports: map<string, Entry>, staged: seq<string>, k: nat)
    requires k <= |staged| && MergedAll(imports, staged[..k]).None?
    ensures MergedAll(imports, staged).None?
  {
    if k == |staged| {
      assert staged[..k] == staged;
    } else {
      assert staged[..|staged| - 1][..k] == staged[..k];
      FailurePersists(imports, staged[..|staged| - 1], k);
    }
  }

  lemma MergedPush(imports: map<string, Entry>, staged: seq<string>, k: nat)
    requires k < |staged|
    ensures var before, last := MergedAll(imports, staged[..k]), MergedLine(imports, staged[k]);
            MergedAll(imports, staged[..k + 1]) == if before.None? || last.None? then None
              else Some(before.value + [last.value])
  {
    assert staged[..k + 1][..k] == staged[..k];
  }

  /** The second loop. */
  method RestoreImports(importsByModule: map<string, Entry>, otherLines: seq<string>) returns (r: Option<seq<string>>)
    ensures r == MergedAll(importsByModule, otherLines)
  {
    var merged: seq<string> := [];
    for k := 0 to |otherLines|
      invariant MergedAll(importsByModule, otherLines[..k]) == Some(merged)
    {
      var line := otherLines[k];
      MergedPush(importsByModule, otherLines, k);
      if PLACEHOLDER <= line {
        var mod := line[|PLACEHOLDER|..];
        if mod !in importsByModule {
          FailurePersists(importsByModule, otherLines, k + 1);
          return None;
        }
        merged := merged + [ImportLine(importsByModule[mod], mod)];
      } else {
        merged := merged + [line];
      }
    }
    assert otherLines[..|otherLines|] == otherLines;
    r := Some(merged);
  }

  method MergeDuplicateImports(texts: seq<string>) returns (r: Option<seq<string>>)
    ensures r == Merged(texts)
  {
    var importsByModule, otherLines := CollectImports(ParseAll(texts));
    r := RestoreImports(importsByModule, otherLines);
  }
}
