/** What `mergeDuplicateImports` promises: one import per module, the same bindings, nothing moved. */
module ImportMeaning {
  import opened Common
  import opened ImportLines
  import opened ImportMerge

  ghost predicate AllParsed(lines: seq<Line>) {
    forall l <- lines :: Parsed(l)
  }

  lemma ParsedAll(texts: seq<string>)
    ensures AllParsed(ParseAll(texts))
  {
    forall i | 0 <= i < |texts|
      ensures Parsed(ParseAll(texts)[i])
    {
      ParsedLine(texts[i]);
    }
  }

  /** No kept line looks like a placeholder. */
  predicate NoPlaceholder(lines: seq<Line>) {
    forall l <- lines :: l.Other? ==> !(PLACEHOLDER <= l.text)
  }

  // ---------------------------------------------------------------------------------------------
  // The printed import line reads back
  // ---------------------------------------------------------------------------------------------

  /** The names on the merged line: values first, then the types, each with its own `type`. */
  function LineEntry(e: Entry): Entry {
    var types, values := Distinct(e.typeNames), Distinct(e.valueNames);
    if values != [] then Entry([], values + Tagged(types)) else Entry(types, [])
  }

  function Relined(e: Entry, mod: string): Line {
    var line := LineEntry(e);
    if line.valueNames != [] then ValueImport(line.valueNames, mod) else TypeImport(line.typeNames, mod)
  }

  predicate CleanNames(names: seq<string>) {
    forall n <- names :: Clean(n)
  }

  lemma {:induction false} DistinctSame(names: seq<string>)
    ensures forall n :: n in Distinct(names) <==> n in names
  {
    if names != [] {
      DistinctSame(names[..|names| - 1]);
      assert names == names[..|names| - 1] + [names[|names| - 1]];
    }
  }

  lemma TaggedClean(names: seq<string>)
    requires CleanNames(names)
    ensures CleanNames(Tagged(names))
  {
    forall i | 0 <= i < |names|
      ensures Clean(Tagged(names)[i])
    {
      var n, t := names[i], "type " + names[i];
      assert n in names;
      assert t[|t| - 1] == n[|n| - 1];
    }
  }

  lemma ImportLineReads(e: Entry, mod: string)
    requires ValidModule(mod) && CleanNames(e.typeNames) && CleanNames(e.valueNames)
    ensures ParseLine(ImportLine(e, mod)) == Relined(e, mod)
  {
    var types, values := Distinct(e.typeNames), Distinct(e.valueNames);
    DistinctSame(e.typeNames);
    DistinctSame(e.valueNames);
    TaggedClean(types);
    ParsePrinted(types, mod);
    ParsePrinted(values, mod);
    ParsePrinted(values + Tagged(types), mod);
    if types == [] {
      assert values + Tagged(types) == values;
    }
  }

  lemma {:induction false} EntryIsClean(lines: seq<Line>, mod: string)
    requires AllParsed(lines)
    ensures CleanNames(TypeNames(lines, mod)) && CleanNames(ValueNames(lines, mod))
  {
    if lines != [] {
      var l := lines[|lines| - 1];
      assert l in lines;
      EntryIsClean(lines[..|lines| - 1], mod);
    }
  }

  // ---------------------------------------------------------------------------------------------
  // The merged list, item by item
  // ---------------------------------------------------------------------------------------------

  function Rendered(lines: seq<Line>, mark: Mark): string {
    if mark.Import? then ImportLine(EntryOf(lines, mark.mod), mark.mod) else mark.line
  }

  function RenderAll(lines: seq<Line>, marks: seq<Mark>): seq<string> {
    seq(|marks|, i requires 0 <= i < |marks| => Rendered(lines, marks[i]))
  }

  /** The rendered line as the regular expressions would split it. */
  function Reparsed(lines: seq<Line>, mark: Mark): Line {
    if mark.Import? then Relined(EntryOf(lines, mark.mod), mark.mod) else Other(mark.line)
  }

  function ReparsedAll(lines: seq<Line>, marks: seq<Mark>): seq<Line> {
    seq(|marks|, i requires 0 <= i < |marks| => Reparsed(lines, marks[i]))
  }

  lemma {:induction false} FirstsSame(marks: seq<Mark>)
    ensures forall m :: m in Firsts(marks) <==> m in marks
  {
    if marks != [] {
      FirstsSame(marks[..|marks| - 1]);
      assert marks == marks[..|marks| - 1] + [marks[|marks| - 1]];
    }
  }

  /** The second loop item by item: it fails at the first line that fails. */
  lemma {:induction false} MergedAt(imports: map<string, Entry>, staged: seq<string>)
    ensures MergedAll(imports, staged).Some? <==> forall i | 0 <= i < |staged| :: MergedLine(imports, staged[i]).Some?
    ensures MergedAll(imports, staged).Some? ==>
              var r := MergedAll(imports, staged).value;
              |r| == |staged| && forall i | 0 <= i < |staged| :: MergedLine(imports, staged[i]) == Some(r[i])
  {
    if staged != [] {
      MergedAt(imports, staged[..|staged| - 1]);
      assert forall i | 0 <= i < |staged| - 1 :: staged[..|staged| - 1][i] == staged[i];
    }
  }

  lemma StagedImport(lines: seq<Line>, mod: string)
    requires Import(mod) in Shape(lines)
    ensures MergedLine(Collected(lines), PLACEHOLDER + mod) == Some(ImportLine(EntryOf(lines, mod), mod))
  {
    CollectedAt(lines, mod);
    assert (PLACEHOLDER + mod)[|PLACEHOLDER|..] == mod;
  }

  lemma MarkMerged(lines: seq<Line>, mark: Mark)
    requires NoPlaceholder(lines) && mark in Shape(lines)
    ensures MergedLine(Collected(lines), StagedMark(mark)) == Some(Rendered(lines, mark))
  {
    var k :| 0 <= k < |lines| && MarkOf(lines[k]) == mark;
    if mark.Import? {
      StagedImport(lines, mark.mod);
    } else {
      assert lines[k] in lines;
    }
  }

  lemma MergedIsRendered(lines: seq<Line>)
    requires NoPlaceholder(lines)
    ensures MergedLines(lines) == Some(RenderAll(lines, Firsts(Shape(lines))))
  {
    var marks, imports := Firsts(Shape(lines)), Collected(lines);
    MergedAt(imports, Staged(marks));
    FirstsSame(Shape(lines));
    forall i | 0 <= i < |marks|
      ensures MergedLine(imports, Staged(marks)[i]) == Some(Rendered(lines, marks[i]))
    {
      MarkMerged(lines, marks[i]);
    }
    assert MergedAll(imports, Staged(marks)).value == RenderAll(lines, marks);
  }

  lemma ReparsedIsParsed(lines: seq<Line>, mark: Mark)
    requires AllParsed(lines) && mark in Shape(lines)
    ensures ParseLine(Rendered(lines, mark)) == Reparsed(lines, mark)
  {
    var k :| 0 <= k < |lines| && MarkOf(lines[k]) == mark;
    assert Parsed(lines[k]);
    if mark.Import? {
      EntryIsClean(lines, mark.mod);
      ImportLineReads(EntryOf(lines, mark.mod), mark.mod);
    }
  }

  lemma MarkReads(lines: seq<Line>, marks: seq<Mark>, i: nat)
    requires AllParsed(lines) && i < |marks| && marks[i] in Shape(lines)
    ensures ParseLine(RenderAll(lines, marks)[i]) == ReparsedAll(lines, marks)[i]
    ensures MarkOf(ReparsedAll(lines, marks)[i]) == marks[i]
  {
    ReparsedIsParsed(lines, marks[i]);
  }

  lemma MarksRead(lines: seq<Line>, marks: seq<Mark>)
    requires AllParsed(lines) && forall m <- marks :: m in Shape(lines)
    ensures ParseAll(RenderAll(lines, marks)) == ReparsedAll(lines, marks) && Shape(ReparsedAll(lines, marks)) == marks
  {
    forall i: nat | i < |marks|
      ensures ParseAll(RenderAll(lines, marks))[i] == ReparsedAll(lines, marks)[i]
      ensures Shape(ReparsedAll(lines, marks))[i] == marks[i]
    {
      MarkReads(lines, marks, i);
    }
  }

  lemma ReadBack(lines: seq<Line>)
    requires AllParsed(lines)
    ensures var marks := Firsts(Shape(lines));
            ParseAll(RenderAll(lines, marks)) == ReparsedAll(lines, marks) && Shape(ReparsedAll(lines, marks)) == marks
  {
    FirstsSame(Shape(lines));
    MarksRead(lines, Firsts(Shape(lines)));
  }

  // ---------------------------------------------------------------------------------------------
  // One import per module, at its first place, and the other lines in order
  // ---------------------------------------------------------------------------------------------

  /** The merge leaves each import once, at its first place, and every other line where it was,
      exactly if no other line looks like a placeholder. */
  lemma KeepsShapeIff(texts: seq<string>)
    ensures var lines := ParseAll(texts);
            (Merged(texts).Some? && Shape(ParseAll(Merged(texts).value)) == Firsts(Shape(lines))) <==>
              NoPlaceholder(lines)
  {
    var lines := ParseAll(texts);
    ParsedAll(texts);
    ReadBack(lines);
    if NoPlaceholder(lines) {
      MergedIsRendered(lines);
    } else if MergedLines(lines).Some? {
      PlaceholderReplaced(lines);
    }
  }

  lemma PlaceholderReplaced(lines: seq<Line>)
    requires AllParsed(lines) && !NoPlaceholder(lines) && MergedLines(lines).Some?
    ensures Shape(ParseAll(MergedLines(lines).value)) != Firsts(Shape(lines))
  {
    var r := MergedLines(lines).value;
    var k :| 0 <= k < |lines| && lines[k].Other? && PLACEHOLDER <= lines[k].text;
    var text := lines[k].text;
    var marks := Firsts(Shape(lines));
    assert Shape(lines)[k] == Text(text);
    FirstsSame(Shape(lines));
    assert Text(text) in Shape(lines);
    var i :| 0 <= i < |marks| && marks[i] == Text(text);
    MergedAt(Collected(lines), Staged(marks));
    assert Staged(marks)[i] == text;
    PlaceholderIsImport(lines, text, r[i]);
    assert Shape(ParseAll(r))[i] == MarkOf(ParseLine(r[i]));
  }

  lemma PlaceholderIsImport(lines: seq<Line>, text: string, r: string)
    requires AllParsed(lines) && PLACEHOLDER <= text && MergedLine(Collected(lines), text) == Some(r)
    ensures MarkOf(ParseLine(r)).Import?
  {
    var mod := text[|PLACEHOLDER|..];
    CollectedAt(lines, mod);
    ReparsedIsParsed(lines, Import(mod));
  }

  /** A kept line that names, as a placeholder, a module that no line imports. */
  predicate Dangling(lines: seq<Line>, mark: Mark) {
    mark.Text? && PLACEHOLDER <= mark.line && Import(mark.line[|PLACEHOLDER|..]) !in Shape(lines)
  }

  lemma MarkThrowsIff(lines: seq<Line>, mark: Mark)
    requires mark in Shape(lines)
    ensures MergedLine(Collected(lines), StagedMark(mark)).None? <==> Dangling(lines, mark)
  {
    if mark.Import? {
      StagedImport(lines, mark.mod);
    } else if PLACEHOLDER <= mark.line {
      CollectedAt(lines, mark.line[|PLACEHOLDER|..]);
    }
  }

  /** The merge throws exactly if there is such a line. */
  lemma ThrowsIff(texts: seq<string>)
    ensures var lines := ParseAll(texts);
            Merged(texts).None? <==> exists mark <- Shape(lines) :: Dangling(lines, mark)
  {
    LinesThrowIff(ParseAll(texts));
  }

  lemma LinesThrowIff(lines: seq<Line>)
    ensures MergedLines(lines).None? <==> exists mark <- Shape(lines) :: Dangling(lines, mark)
  {
    var marks, imports := Firsts(Shape(lines)), Collected(lines);
    MergedAt(imports, Staged(marks));
    FirstsSame(Shape(lines));
    forall i | 0 <= i < |marks|
      ensures MergedLine(imports, Staged(marks)[i]).None? <==> Dangling(lines, marks[i])
    {
      MarkThrowsIff(lines, marks[i]);
    }
    if mark :| mark in Shape(lines) && Dangling(lines, mark) {
      var i :| 0 <= i < |marks| && marks[i] == mark;
      assert MergedLine(imports, Staged(marks)[i]).None?;
    }
  }

  // ---------------------------------------------------------------------------------------------
  // The same bindings
  // ---------------------------------------------------------------------------------------------

  predicate Inline(name: string) {
    "type " <= name
  }

  function ValueBindings(e: Entry): set<string> {
    set n | n in e.valueNames && !Inline(n)
  }

  /** Types come from `import type` and from names with an inline `type`. */
  function TypeBindings(e: Entry): set<string> {
    (set n | n in e.typeNames) + (set n | n in e.valueNames && Inline(n) :: n[5..])
  }

  lemma LineKeepsBindings(e: Entry)
    ensures ValueBindings(LineEntry(e)) == ValueBindings(e)
    ensures TypeBindings(LineEntry(e)) == TypeBindings(e)
  {
    var types, values := Distinct(e.typeNames), Distinct(e.valueNames);
    DistinctSame(e.typeNames);
    DistinctSame(e.valueNames);
    if values != [] {
      TaggedBindings(types);
      var all := Entry([], values + Tagged(types));
      assert ValueBindings(all) == ValueBindings(Entry([], values)) + ValueBindings(Entry([], Tagged(types)));
      assert TypeBindings(all) == TypeBindings(Entry([], values)) + TypeBindings(Entry([], Tagged(types)));
    }
  }

  lemma TaggedBindings(types: seq<string>)
    ensures ValueBindings(Entry([], Tagged(types))) == {}
    ensures TypeBindings(Entry([], Tagged(types))) == set n | n in types
  {
    var tagged := Tagged(types);
    forall n | n in types
      ensures n in TypeBindings(Entry([], tagged))
    {
      var i :| 0 <= i < |types| && types[i] == n;
      assert tagged[i] in tagged && Inline(tagged[i]) && tagged[i][5..] == n;
    }
    forall t | t in tagged
      ensures Inline(t) && t[5..] in types
    {
      var i :| 0 <= i < |types| && tagged[i] == t;
      assert t[5..] == types[i];
    }
  }

  lemma EntryPush(lines: seq<Line>, l: Line, mod: string)
    ensures EntryOf(lines + [l], mod)
            == Entry(TypeNames(lines, mod) + AddedTypes(l, mod), ValueNames(lines, mod) + AddedValues(l, mod))
  {
  }

  lemma NamesOfMark(lines: seq<Line>, mark: Mark, mod: string)
    ensures Entry(AddedTypes(Reparsed(lines, mark), mod), AddedValues(Reparsed(lines, mark), mod))
            == if mark == Import(mod) then LineEntry(EntryOf(lines, mod)) else Entry([], [])
  {
  }

  function After(lines: seq<Line>, marks: seq<Mark>, mod: string): Entry {
    if Import(mod) in marks then LineEntry(EntryOf(lines, mod)) else Entry([], [])
  }

  lemma AfterPush(lines: seq<Line>, done: seq<Line>, before: seq<Mark>, m: Mark, mod: string)
    requires EntryOf(done, mod) == After(lines, before, mod) && !(m.Import? && m in before)
    ensures EntryOf(done + [Reparsed(lines, m)], mod) == After(lines, before + [m], mod)
  {
    EntryPush(done, Reparsed(lines, m), mod);
    NamesOfMark(lines, m, mod);
    if m == Import(mod) {
      assert [] + LineEntry(EntryOf(lines, mod)).typeNames == LineEntry(EntryOf(lines, mod)).typeNames;
      assert [] + LineEntry(EntryOf(lines, mod)).valueNames == LineEntry(EntryOf(lines, mod)).valueNames;
    }
  }

  lemma ReparsedPush(lines: seq<Line>, marks: seq<Mark>, m: Mark)
    ensures ReparsedAll(lines, marks + [m]) == ReparsedAll(lines, marks) + [Reparsed(lines, m)]
  {
  }

  /** After the merge a module's names are those of its one line. */
  lemma {:induction false} NamesAfter(lines: seq<Line>, marks: seq<Mark>, mod: string)
    ensures EntryOf(ReparsedAll(lines, Firsts(marks)), mod) == After(lines, marks, mod)
  {
    if marks == [] {
      assert ReparsedAll(lines, []) == [];
    } else {
      var before, m := marks[..|marks| - 1], marks[|marks| - 1];
      assert marks == before + [m];
      NamesAfter(lines, before, mod);
      if !(m.Import? && m in before) {
        ReparsedPush(lines, Firsts(before), m);
        AfterPush(lines, ReparsedAll(lines, Firsts(before)), before, m, mod);
      }
    }
  }

  /** Every module keeps the value names and the type names it had. */
  lemma KeepsBindings(texts: seq<string>, mod: string)
    requires NoPlaceholder(ParseAll(texts))
    ensures Merged(texts).Some?
    ensures var was, now := EntryOf(ParseAll(texts), mod), EntryOf(ParseAll(Merged(texts).value), mod);
            ValueBindings(now) == ValueBindings(was) && TypeBindings(now) == TypeBindings(was)
  {
    var lines := ParseAll(texts);
    ParsedAll(texts);
    MergedIsRendered(lines);
    ReadBack(lines);
    NamesAfter(lines, Shape(lines), mod);
    if Import(mod) in Shape(lines) {
      LineKeepsBindings(EntryOf(lines, mod));
    } else {
      NotImported(lines, mod);
    }
  }

  // ---------------------------------------------------------------------------------------------
  // A second run
  // ---------------------------------------------------------------------------------------------

  /** A name imported as a type and also, with an inline `type`, among the values. */
  predicate Clashes(e: Entry) {
    exists n <- e.typeNames :: "type " + n in e.valueNames
  }

  lemma {:induction false} DistinctOnce(names: seq<string>)
    ensures |Distinct(names)| <= |names|
    ensures forall i, j | 0 <= i < j < |Distinct(names)| :: Distinct(names)[i] != Distinct(names)[j]
    ensures |Distinct(names)| == |names| ==> Distinct(names) == names
  {
    if names != [] {
      DistinctOnce(names[..|names| - 1]);
      DistinctSame(names[..|names| - 1]);
      assert names == names[..|names| - 1] + [names[|names| - 1]];
    }
  }

  lemma {:induction false} DistinctFixed(names: seq<string>)
    requires forall i, j | 0 <= i < j < |names| :: names[i] != names[j]
    ensures Distinct(names) == names
  {
    if names != [] {
      var before := names[..|names| - 1];
      DistinctFixed(before);
      assert names == before + [names[|names| - 1]];
    }
  }

  lemma RelineSame(e: Entry)
    requires !Clashes(e) || Distinct(e.valueNames) == []
    ensures LineEntry(LineEntry(e)) == LineEntry(e)
  {
    var types, values := Distinct(e.typeNames), Distinct(e.valueNames);
    DistinctOnce(e.typeNames);
    DistinctOnce(e.valueNames);
    DistinctFixed(types);
    if values != [] {
      NoRepeat(e);
      DistinctFixed(values + Tagged(types));
      var all := values + Tagged(types);
      assert all + Tagged([]) == all;
    }
  }

  lemma NoRepeat(e: Entry)
    requires !Clashes(e)
    ensures var all := Distinct(e.valueNames) + Tagged(Distinct(e.typeNames));
            forall i, j | 0 <= i < j < |all| :: all[i] != all[j]
  {
    var types, values := Distinct(e.typeNames), Distinct(e.valueNames);
    DistinctOnce(e.typeNames);
    DistinctOnce(e.valueNames);
    DistinctSame(e.typeNames);
    DistinctSame(e.valueNames);
    var all := values + Tagged(types);
    forall i, j | 0 <= i < j < |all|
      ensures all[i] != all[j]
    {
      if |values| <= i {
        assert types[i - |values|] != types[j - |values|];
        TagApart(types[i - |values|], types[j - |values|]);
      } else if |values| <= j {
        assert types[j - |values|] in e.typeNames;
        assert values[i] in e.valueNames;
      }
    }
  }

  lemma TagApart(a: string, b: string)
    requires a != b
    ensures "type " + a != "type " + b
  {
    assert ("type " + a)[5..] == a && ("type " + b)[5..] == b;
  }

  lemma RelineChanges(e: Entry)
    requires Clashes(e)
    ensures LineEntry(LineEntry(e)) != LineEntry(e)
  {
    var types, values := Distinct(e.typeNames), Distinct(e.valueNames);
    DistinctSame(e.typeNames);
    DistinctSame(e.valueNames);
    var n :| n in e.typeNames && "type " + n in e.valueNames;
    var i :| 0 <= i < |values| && values[i] == "type " + n;
    var j :| 0 <= j < |types| && types[j] == n;
    var all := values + Tagged(types);
    assert all[i] == all[|values| + j];
    DistinctOnce(all);
    assert LineEntry(LineEntry(e)).valueNames == Distinct(all) + Tagged([]);
    assert Distinct(all) + Tagged([]) == Distinct(all);
  }

  /** A second run changes nothing, exactly if no module has a clash. */
  lemma SecondRunIff(texts: seq<string>)
    requires NoPlaceholder(ParseAll(texts))
    ensures Merged(texts).Some?
    ensures Merged(Merged(texts).value) == Merged(texts) <==> forall mod :: !Clashes(EntryOf(ParseAll(texts), mod))
  {
    var lines := ParseAll(texts);
    var marks := Firsts(Shape(lines));
    ParsedAll(texts);
    MergedIsRendered(lines);
    ReadBack(lines);
    SecondRun(lines);
  }

  lemma {:induction false} FirstsTwice(marks: seq<Mark>)
    ensures Firsts(Firsts(marks)) == Firsts(marks)
  {
    if marks != [] {
      var before, m := marks[..|marks| - 1], marks[|marks| - 1];
      FirstsTwice(before);
      FirstsSame(before);
      if !(m.Import? && m in before) {
        assert Firsts(marks)[..|Firsts(marks)| - 1] == Firsts(before);
      }
    }
  }

  /** Rendering one line again. */
  lemma RenderedAgain(lines: seq<Line>, mark: Mark)
    requires AllParsed(lines) && mark in Shape(lines)
    ensures var again := ReparsedAll(lines, Firsts(Shape(lines)));
            Rendered(again, mark) == Rendered(lines, mark) <==> mark.Text? || !Clashes(EntryOf(lines, mark.mod))
  {
    if mark.Import? {
      var e := EntryOf(lines, mark.mod);
      NamesAfter(lines, Shape(lines), mark.mod);
      ReparsedIsParsed(lines, mark);
      EntryIsClean(lines, mark.mod);
      LineEntryIsClean(e);
      ImportLineReads(LineEntry(e), mark.mod);
      if Clashes(e) {
        RelineChanges(e);
      } else {
        RelineSame(e);
        SameLine(e, mark.mod);
      }
    }
  }

  lemma LineEntryIsClean(e: Entry)
    requires CleanNames(e.typeNames) && CleanNames(e.valueNames)
    ensures CleanNames(LineEntry(e).typeNames) && CleanNames(LineEntry(e).valueNames)
  {
    DistinctSame(e.typeNames);
    DistinctSame(e.valueNames);
    TaggedClean(Distinct(e.typeNames));
  }

  /** The printed line depends only on the names that end up on it. */
  lemma SameLine(e: Entry, mod: string)
    requires LineEntry(LineEntry(e)) == LineEntry(e)
    ensures ImportLine(LineEntry(e), mod) == ImportLine(e, mod)
  {
    PrintedLine(e, mod);
    PrintedLine(LineEntry(e), mod);
  }

  lemma PrintedLine(e: Entry, mod: string)
    ensures var line := LineEntry(e);
            ImportLine(e, mod) == if line.valueNames != [] then Printed(VALUE_IMPORT, line.valueNames, mod)
                                  else Printed(TYPE_IMPORT, line.typeNames, mod)
  {
    var types, values := Distinct(e.typeNames), Distinct(e.valueNames);
    if types == [] {
      assert values + Tagged(types) == values;
    }
  }

  lemma SecondRun(lines: seq<Line>)
    requires AllParsed(lines) && NoPlaceholder(lines)
    ensures var marks := Firsts(Shape(lines));
            MergedLines(ReparsedAll(lines, marks)) == Some(RenderAll(lines, marks))
            <==> forall mod :: !Clashes(EntryOf(lines, mod))
  {
    var marks := Firsts(Shape(lines));
    var again := ReparsedAll(lines, marks);
    ReadBack(lines);
    FirstsTwice(Shape(lines));
    FirstsSame(Shape(lines));
    KeptText(lines);
    MergedIsRendered(again);
    assert MergedLines(again) == Some(RenderAll(again, marks));
    forall i | 0 <= i < |marks|
      ensures RenderAll(again, marks)[i] == RenderAll(lines, marks)[i]
              <==> marks[i].Text? || !Clashes(EntryOf(lines, marks[i].mod))
    {
      RenderedAgain(lines, marks[i]);
    }
    if mod :| Clashes(EntryOf(lines, mod)) {
      if Import(mod) !in Shape(lines) {
        NotImported(lines, mod);
        assert false;
      }
      var i :| 0 <= i < |marks| && marks[i] == Import(mod);
      assert RenderAll(again, marks)[i] != RenderAll(lines, marks)[i];
    } else {
      assert RenderAll(again, marks) == RenderAll(lines, marks);
    }
  }

  lemma KeptText(lines: seq<Line>)
    requires NoPlaceholder(lines)
    ensures NoPlaceholder(ReparsedAll(lines, Firsts(Shape(lines))))
  {
    var marks := Firsts(Shape(lines));
    FirstsSame(Shape(lines));
    forall i | 0 <= i < |marks| && marks[i].Text?
      ensures !(PLACEHOLDER <= marks[i].line)
    {
      assert marks[i] in Shape(lines);
      var k :| 0 <= k < |lines| && MarkOf(lines[k]) == marks[i];
      assert lines[k] in lines;
    }
  }
}
