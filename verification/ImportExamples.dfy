/** Lines on which `mergeDuplicateImports` of `scripts/sync-agent-host-protocol.ts` goes wrong, first for
    any names, then as text. */
module ImportExamples {
  import opened Common
  import opened ImportLines
  import opened ImportMerge
  import opened ImportMeaning

  // ---------------------------------------------------------------------------------------------
  // Lines that look like a placeholder
  // ---------------------------------------------------------------------------------------------

  lemma ShapeOne(l: Line)
    ensures Shape([l]) == [MarkOf(l)]
  {
  }

  /** The placeholder of a module that is not imported: the merge throws. */
  lemma DanglingThrows(text: string)
    requires ParseLine(text) == Other(text) && PLACEHOLDER <= text
    ensures Merged([text]).None? && !NoPlaceholder(ParseAll([text]))
  {
    var lines := ParseAll([text]);
    assert lines == [Other(text)] && lines[0] in lines;
    ShapeOne(Other(text));
    assert Dangling(lines, Text(text)) && Text(text) in Shape(lines);
    ThrowsIff([text]);
  }

  lemma NothingThrows(lines: seq<Line>, first: Line, mod: string, text: string)
    requires lines == [first, Other(text)] && MarkOf(first) == Import(mod) && text == PLACEHOLDER + mod
    ensures MergedLines(lines).Some? && !NoPlaceholder(lines)
  {
    assert lines[1] in lines;
    assert Shape(lines) == [Import(mod), Text(text)];
    assert Import(mod) in Shape(lines) && text[|PLACEHOLDER|..] == mod;
    LinesThrowIff(lines);
  }

  /** The placeholder of an imported module: nothing throws, but the line becomes a second import. */
  lemma PlaceholderBecomesImport(first: string, mod: string, text: string)
    requires MarkOf(ParseLine(first)) == Import(mod) && ParseLine(text) == Other(text) && text == PLACEHOLDER + mod
    ensures Merged([first, text]).Some?
    ensures Shape(ParseAll(Merged([first, text]).value)) != Firsts(Shape(ParseAll([first, text])))
  {
    var lines := ParseAll([first, text]);
    assert lines == [ParseLine(first), Other(text)];
    NothingThrows(lines, ParseLine(first), mod, text);
    KeepsShapeIff([first, text]);
  }

  // ---------------------------------------------------------------------------------------------
  // A type imported both ways
  // ---------------------------------------------------------------------------------------------

  lemma DistinctOne(name: string)
    ensures Distinct([name]) == [name]
  {
    assert [name][..0] == [];
  }

  lemma EntryOfTwo(n: string, v: string, mod: string)
    ensures EntryOf([TypeImport([n], mod), ValueImport([v], mod)], mod) == Entry([n], [v])
  {
    EntryPush([], TypeImport([n], mod), mod);
    EntryPush([TypeImport([n], mod)], ValueImport([v], mod), mod);
    assert [] + [TypeImport([n], mod)] == [TypeImport([n], mod)];
    assert [TypeImport([n], mod)] + [ValueImport([v], mod)] == [TypeImport([n], mod), ValueImport([v], mod)];
  }

  lemma MergedTwice(n: string, mod: string)
    ensures ImportLine(Entry([n], ["type " + n]), mod) == Printed(VALUE_IMPORT, ["type " + n] + ["type " + n], mod)
  {
    DistinctOne(n);
    DistinctOne("type " + n);
    assert Tagged([n]) == ["type " + n];
  }

  lemma FirstsOfTwo(m: Mark)
    requires m.Import?
    ensures Firsts([m, m]) == [m]
  {
    assert [m][..0] == [];
    assert Firsts([m]) == [m];
    assert [m, m][..1] == [m] && m in [m];
  }

  lemma ShapeOfTwo(lines: seq<Line>, mod: string)
    requires |lines| == 2 && MarkOf(lines[0]) == MarkOf(lines[1]) == Import(mod)
    ensures Shape(lines) == [Import(mod), Import(mod)] && NoPlaceholder(lines)
  {
  }

  lemma MergedToOne(lines: seq<Line>, mod: string)
    requires Shape(lines) == [Import(mod), Import(mod)] && NoPlaceholder(lines)
    ensures MergedLines(lines) == Some([ImportLine(EntryOf(lines, mod), mod)])
  {
    FirstsOfTwo(Import(mod));
    MergedIsRendered(lines);
    assert RenderAll(lines, [Import(mod)]) == [Rendered(lines, Import(mod))];
  }

  lemma MergedOfTwo(lines: seq<Line>, n: string, mod: string)
    requires lines == [TypeImport([n], mod), ValueImport(["type " + n], mod)]
    ensures NoPlaceholder(lines)
    ensures MergedLines(lines) == Some([Printed(VALUE_IMPORT, ["type " + n] + ["type " + n], mod)])
  {
    ShapeOfTwo(lines, mod);
    MergedToOne(lines, mod);
    EntryOfTwo(n, "type " + n, mod);
    MergedTwice(n, mod);
  }

  lemma MergedBoth(n: string, v: string, mod: string)
    ensures ImportLine(Entry([n], [v]), mod) == Printed(VALUE_IMPORT, [v] + ["type " + n], mod)
  {
    DistinctOne(n);
    DistinctOne(v);
    assert Tagged([n]) == ["type " + n];
  }

  /** A type and a value of one module: one import, the value first and the type marked. */
  lemma TypeAndValue(lines: seq<Line>, n: string, v: string, mod: string)
    requires lines == [TypeImport([n], mod), ValueImport([v], mod)]
    ensures MergedLines(lines) == Some([Printed(VALUE_IMPORT, [v] + ["type " + n], mod)])
  {
    ShapeOfTwo(lines, mod);
    MergedToOne(lines, mod);
    EntryOfTwo(n, v, mod);
    MergedBoth(n, v, mod);
  }

  lemma ClashOfTwo(e: Entry, n: string)
    requires e == Entry([n], ["type " + n])
    ensures Clashes(e)
  {
    assert n in e.typeNames && "type " + n in e.valueNames;
  }

  /** The merged line lists the name twice, and a second run, which drops one, changes the file. */
  lemma SecondRunChanges(texts: seq<string>, n: string, mod: string)
    requires ParseAll(texts) == [TypeImport([n], mod), ValueImport(["type " + n], mod)]
    ensures Merged(texts) == Some([Printed(VALUE_IMPORT, ["type " + n] + ["type " + n], mod)])
    ensures Merged(Merged(texts).value) != Merged(texts)
  {
    MergedOfTwo(ParseAll(texts), n, mod);
    EntryOfTwo(n, "type " + n, mod);
    ClashOfTwo(EntryOf(ParseAll(texts), mod), n);
    SecondRunIff(texts);
  }

  // ---------------------------------------------------------------------------------------------
  // As text
  // ---------------------------------------------------------------------------------------------

  lemma PlaceholderIsKept(rest: string)
    ensures ParseLine(PLACEHOLDER + rest) == Other(PLACEHOLDER + rest)
  {
    assert (PLACEHOLDER + rest)[0] == '_' && TYPE_IMPORT[0] == 'i' && VALUE_IMPORT[0] == 'i';
  }

  lemma PlaceholderText()
    ensures "__IMPORT_PLACEHOLDER__m" == PLACEHOLDER + "m"
  {
  }

  lemma ValueText()
    ensures "import { A } from 'm';" == Printed(VALUE_IMPORT, ["A"], "m")
  {
  }

  lemma TypeText()
    ensures "import type { A } from 'm';" == Printed(TYPE_IMPORT, ["A"], "m")
  {
  }

  lemma InlineText()
    ensures "import { type A } from 'm';" == Printed(VALUE_IMPORT, ["type " + "A"], "m")
  {
  }

  /** As text: one dangling line. */
  lemma DanglingText()
    ensures Merged(["__IMPORT_PLACEHOLDER__m"]).None?
  {
    PlaceholderText();
    PlaceholderIsKept("m");
    DanglingThrows(PLACEHOLDER + "m");
  }

  lemma LettersAreClean()
    ensures Clean("A") && Clean("type " + "A") && ValidModule("m")
  {
  }

  lemma ReadsType(text: string, n: string, mod: string)
    requires ValidModule(mod) && Clean(n) && text == Printed(TYPE_IMPORT, [n], mod)
    ensures ParseLine(text) == TypeImport([n], mod)
  {
    ParsePrinted([n], mod);
  }

  lemma ReadsValue(text: string, n: string, mod: string)
    requires ValidModule(mod) && Clean(n) && text == Printed(VALUE_IMPORT, [n], mod)
    ensures ParseLine(text) == ValueImport([n], mod)
  {
    ParsePrinted([n], mod);
  }

  /** As text: an import and its own placeholder. */
  lemma PlaceholderLines()
    ensures var texts := ["import { A } from 'm';", "__IMPORT_PLACEHOLDER__m"];
            Merged(texts).Some? && Shape(ParseAll(Merged(texts).value)) != Firsts(Shape(ParseAll(texts)))
  {
    LettersAreClean();
    ValueText();
    ReadsValue("import { A } from 'm';", "A", "m");
    PlaceholderText();
    PlaceholderIsKept("m");
    PlaceholderBecomesImport("import { A } from 'm';", "m", "__IMPORT_PLACEHOLDER__m");
  }

  lemma TypeLine()
    ensures ParseLine("import type { A } from 'm';") == TypeImport(["A"], "m")
  {
    LettersAreClean();
    TypeText();
    ReadsType("import type { A } from 'm';", "A", "m");
  }

  lemma InlineLine()
    ensures ParseLine("import { type A } from 'm';") == ValueImport(["type " + "A"], "m")
  {
    LettersAreClean();
    InlineText();
    ReadsValue("import { type A } from 'm';", "type " + "A", "m");
  }

  lemma ParseTwo(first: string, second: string)
    ensures ParseAll([first, second]) == [ParseLine(first), ParseLine(second)]
  {
  }

  lemma OtherLine()
    ensures ParseLine("import { B } from 'm';") == ValueImport(["B"], "m")
  {
    assert "import { B } from 'm';" == Printed(VALUE_IMPORT, ["B"], "m");
    assert Clean("B") && ValidModule("m");
    ReadsValue("import { B } from 'm';", "B", "m");
  }

  lemma BothText()
    ensures "import { B, type A } from 'm';" == Printed(VALUE_IMPORT, ["B"] + ["type " + "A"], "m")
  {
    JoinTwo("B", "type " + "A");
    BothParts();
  }

  lemma JoinTwo(a: string, b: string)
    ensures Join([a] + [b]) == a + ", " + b
  {
    assert ([a] + [b])[1..] == [b];
  }

  lemma BothParts()
    ensures "import { B, type A } from 'm';" ==
            VALUE_IMPORT + ((" " + ("B" + ", " + ("type " + "A")) + " ") + (FROM + ("m" + END)))
  {
  }

  /** As text: the example in the source's own description. */
  lemma TypeAndValueText()
    ensures var texts := ["import type { A } from 'm';", "import { B } from 'm';"];
            Merged(texts) == Some(["import { B, type A } from 'm';"])
  {
    TypeLine();
    OtherLine();
    ParseTwo("import type { A } from 'm';", "import { B } from 'm';");
    TypeAndValue(ParseAll(["import type { A } from 'm';", "import { B } from 'm';"]), "A", "B", "m");
    BothText();
  }

  /** As text: `A` imported with `import type` and with an inline `type`. */
  lemma SecondRunChangesText()
    ensures var texts := ["import type { A } from 'm';", "import { type A } from 'm';"];
            Merged(texts).Some? && Merged(Merged(texts).value) != Merged(texts)
  {
    TypeLine();
    InlineLine();
    ParseTwo("import type { A } from 'm';", "import { type A } from 'm';");
    SecondRunChanges(["import type { A } from 'm';", "import { type A } from 'm';"], "A", "m");
  }
}
