/** The text of one import line: what the regular expressions and templates of
    `mergeDuplicateImports` in `scripts/sync-agent-host-protocol.ts` read and print. */
module ImportLines {
  import opened Common

  const TYPE_IMPORT := "import type {"
  const VALUE_IMPORT := "import {"
  const FROM := "} from '"
  const END := "';"

  function IndexOf(s: string, c: char): (i: nat)
    ensures i <= |s| && (forall k | 0 <= k < i :: s[k] != c) && (i < |s| ==> s[i] == c)
  {
    if s == [] || s[0] == c then 0 else 1 + IndexOf(s[1..], c)
  }

  lemma IndexOfFirst(a: string, c: char, b: string)
    requires c !in a
    ensures IndexOf(a + [c] + b, c) == |a|
  {
    var s := a + [c] + b;
    assert s[|a|] == c;
    assert forall k | 0 <= k < |a| :: s[k] == a[k];
  }

  lemma IndexOfNone(a: string, c: char)
    requires c !in a
    ensures IndexOf(a, c) == |a|
  {
  }

  /** The group of `[^']+` in front of `';` and the end of the line. */
  function MatchModule(tail: string): (mod: Option<string>)
    ensures mod.Some? ==> ValidModule(mod.value)
  {
    var j := IndexOf(tail, '\'');
    if j == 0 || tail[j..] != END then None else Some(tail[..j])
  }

  /** The groups of `[^}]+`, in front of `} from '`, and of the module behind it. */
  function MatchNames(rest: string): (groups: Option<(string, string)>)
    ensures groups.Some? ==> '}' !in groups.value.0 && ValidModule(groups.value.1)
  {
    var i := IndexOf(rest, '}');
    if i == 0 || !(FROM <= rest[i..]) then None
    else
      var mod := MatchModule(rest[i..][|FROM|..]);
      if mod.None? then None else Some((rest[..i], mod.value))
  }

  function Match(open: string, line: string): (groups: Option<(string, string)>)
    ensures groups.Some? ==> '}' !in groups.value.0 && ValidModule(groups.value.1)
  {
    if open <= line then MatchNames(line[|open|..]) else None
  }

  predicate ValidModule(mod: string) {
    mod != "" && '\'' !in mod
  }

  lemma MatchModulePrinted(mod: string)
    requires ValidModule(mod)
    ensures MatchModule(mod + END) == Some(mod)
  {
    assert mod + END == mod + ['\''] + ";";
    IndexOfFirst(mod, '\'', ";");
  }

  lemma MatchNamesPrinted(names: string, tail: string)
    requires names != "" && '}' !in names
    ensures var mod := MatchModule(tail);
            MatchNames(names + (FROM + tail)) == if mod.None? then None else Some((names, mod.value))
  {
    var rest := names + (FROM + tail);
    assert FROM + tail == ['}'] + (FROM[1..] + tail);
    assert rest == names + ['}'] + (FROM[1..] + tail);
    IndexOfFirst(names, '}', FROM[1..] + tail);
    assert rest[|names|..] == FROM + tail;
    assert rest[..|names|] == names;
  }

  lemma MatchPrinted(open: string, names: string, mod: string)
    requires names != "" && '}' !in names && ValidModule(mod)
    ensures Match(open, open + (names + (FROM + (mod + END)))) == Some((names, mod))
  {
    MatchModulePrinted(mod);
    MatchNamesPrinted(names, mod + END);
    var rest := names + (FROM + (mod + END));
    assert (open + rest)[|open|..] == rest;
  }

  function Import(open: string, names: string, mod: string): string {
    open + (names + (FROM + (mod + END)))
  }

  lemma MatchModuleRest(tail: string)
    ensures MatchModule(tail).Some? ==> tail == MatchModule(tail).value + END
  {
    var j := IndexOf(tail, '\'');
    assert tail == tail[..j] + tail[j..];
  }

  lemma MatchNamesRest(rest: string)
    ensures MatchNames(rest).Some? ==>
              var (names, mod) := MatchNames(rest).value;
              names != "" && rest == names + (FROM + (mod + END))
  {
    var i := IndexOf(rest, '}');
    if i != 0 && FROM <= rest[i..] {
      MatchModuleRest(rest[i..][|FROM|..]);
      assert rest == rest[..i] + rest[i..] && rest[i..] == FROM + rest[i..][|FROM|..];
    }
  }

  /** A line matches, with these groups, if and only if it consists of them and nothing else: names without
      a closing brace, a module without a quote, neither empty, and the line ends behind the semicolon. */
  lemma MatchIff(open: string, line: string, names: string, mod: string)
    ensures Match(open, line) == Some((names, mod)) <==>
              line == Import(open, names, mod) && names != "" && '}' !in names && ValidModule(mod)
  {
    if open <= line {
      MatchNamesRest(line[|open|..]);
      assert line == open + line[|open|..];
    }
    if names != "" && '}' !in names && ValidModule(mod) {
      MatchPrinted(open, names, mod);
    }
  }

  lemma OpeningsApart(rest: string)
    ensures !(TYPE_IMPORT <= VALUE_IMPORT + rest)
  {
    assert TYPE_IMPORT[7] == 't' && (VALUE_IMPORT + rest)[7] == '{';
  }

  // ---------------------------------------------------------------------------------------------
  // Lists of names
  // ---------------------------------------------------------------------------------------------

  /** The characters that JavaScript's `trim` removes. */
  predicate IsSpace(c: char) {
    || c in "\t\n\r \U{B}\U{C}\U{A0}\U{1680}\U{2028}\U{2029}\U{202F}\U{205F}\U{3000}\U{FEFF}"
    || '\U{2000}' <= c <= '\U{200A}'
  }

  function Trim(s: string): string {
    if s == "" then ""
    else if IsSpace(s[0]) then Trim(s[1..])
    else TrimEnd(s)
  }

  function TrimEnd(s: string): string {
    if s != "" && IsSpace(s[|s| - 1]) then TrimEnd(s[..|s| - 1]) else s
  }

  /** Splits at commas, trims each piece and keeps the pieces that are not empty. */
  function Names(raw: string): seq<string> {
    var i := IndexOf(raw, ',');
    Kept(Trim(raw[..i])) + if i == |raw| then [] else Names(raw[i + 1..])
  }

  function Kept(name: string): seq<string> {
    if name == "" then [] else [name]
  }

  datatype Line =
    TypeImport(names: seq<string>, mod: string) | ValueImport(names: seq<string>, mod: string) | Other(text: string)

  function ParseLine(text: string): Line {
    var typeMatch, valueMatch := Match(TYPE_IMPORT, text), Match(VALUE_IMPORT, text);
    if typeMatch.Some? then TypeImport(Names(typeMatch.value.0), typeMatch.value.1)
    else if valueMatch.Some? then ValueImport(Names(valueMatch.value.0), valueMatch.value.1)
    else Other(text)
  }

  ghost predicate IsImport(open: string, text: string) {
    exists names, mod :: text == Import(open, names, mod) && names != "" && '}' !in names && ValidModule(mod)
  }

  lemma IsImportIff(open: string, text: string)
    ensures Match(open, text).Some? <==> IsImport(open, text)
  {
    if Match(open, text).Some? {
      var (names, mod) := Match(open, text).value;
      MatchIff(open, text, names, mod);
    }
    if names, mod :| text == Import(open, names, mod) && names != "" && '}' !in names && ValidModule(mod) {
      MatchIff(open, text, names, mod);
    }
  }

  /** A line is left alone if and only if it is no import of either form. */
  lemma OtherIff(text: string)
    ensures ParseLine(text).Other? <==> !IsImport(TYPE_IMPORT, text) && !IsImport(VALUE_IMPORT, text)
    ensures ParseLine(text).TypeImport? <==> IsImport(TYPE_IMPORT, text)
    ensures ParseLine(text).Other? ==> ParseLine(text).text == text
  {
    IsImportIff(TYPE_IMPORT, text);
    IsImportIff(VALUE_IMPORT, text);
  }

  function Join(names: seq<string>): string {
    if names == [] then "" else if |names| == 1 then names[0] else names[0] + ", " + Join(names[1..])
  }

  predicate Clean(name: string) {
    name != "" && ',' !in name && '}' !in name && !IsSpace(name[0]) && !IsSpace(name[|name| - 1])
  }

  lemma {:induction false} TrimIsClean(s: string)
    requires ',' !in s && '}' !in s
    ensures Trim(s) == "" || Clean(Trim(s))
  {
    if s != "" {
      if IsSpace(s[0]) {
        TrimIsClean(s[1..]);
      } else {
        TrimEndIsClean(s);
      }
    }
  }

  lemma {:induction false} TrimEndIsClean(s: string)
    requires ',' !in s && '}' !in s && s != "" && !IsSpace(s[0])
    ensures Clean(TrimEnd(s))
  {
    if IsSpace(s[|s| - 1]) {
      TrimEndIsClean(s[..|s| - 1]);
    }
  }

  /** Every listed name is trimmed, not empty, and free of commas and closing braces. */
  lemma {:induction false} NamesAreClean(raw: string)
    requires '}' !in raw
    ensures forall n <- Names(raw) :: Clean(n)
  {
    var i := IndexOf(raw, ',');
    TrimIsClean(raw[..i]);
    if i < |raw| {
      NamesAreClean(raw[i + 1..]);
    }
  }

  lemma TrimPadded(n: string)
    requires Clean(n)
    ensures Trim(" " + n) == n && Trim(" " + n + " ") == n
  {
    assert TrimEnd(n) == n;
    assert (" " + n)[1..] == n;
    assert (" " + n + " ")[1..] == n + " ";
    assert (n + " ")[..|n|] == n;
    assert TrimEnd(n + " ") == n;
  }

  /** The list between the braces reads back as printed. */
  lemma {:induction false} NamesOfJoined(names: seq<string>)
    requires forall n <- names :: Clean(n)
    ensures Names(" " + Join(names) + " ") == names
  {
    if names == [] {
      assert " " + Join(names) + " " == "  ";
      assert Trim("  ") == "" by { assert "  "[1..] == " " && " "[1..] == ""; }
      IndexOfNone("  ", ',');
      assert "  "[..2] == "  ";
    } else {
      var n := names[0];
      assert n in names;
      TrimPadded(n);
      if |names| == 1 {
        var raw := " " + n + " ";
        IndexOfNone(raw, ',');
        assert raw[..|raw|] == raw;
        assert names == [n];
      } else {
        NamesOfJoined(names[1..]);
        var rest := " " + Join(names[1..]) + " ";
        var raw := " " + Join(names) + " ";
        assert raw == (" " + n) + [','] + rest;
        IndexOfFirst(" " + n, ',', rest);
        assert raw[..|n| + 1] == " " + n && raw[|n| + 2..] == rest;
        assert names == [n] + names[1..];
      }
    }
  }

  lemma {:induction false} JoinHasNoBrace(names: seq<string>)
    requires forall n <- names :: Clean(n)
    ensures '}' !in Join(names)
  {
    if names == [] {
    } else if |names| == 1 {
      assert names[0] in names;
    } else {
      assert names[0] in names;
      JoinHasNoBrace(names[1..]);
    }
  }

  function Printed(open: string, names: seq<string>, mod: string): string {
    open + ((" " + Join(names) + " ") + (FROM + (mod + END)))
  }

  lemma ParsePrinted(names: seq<string>, mod: string)
    requires ValidModule(mod) && forall n <- names :: Clean(n)
    ensures ParseLine(Printed(TYPE_IMPORT, names, mod)) == TypeImport(names, mod)
    ensures ParseLine(Printed(VALUE_IMPORT, names, mod)) == ValueImport(names, mod)
  {
    var list := " " + Join(names) + " ";
    JoinHasNoBrace(names);
    NamesOfJoined(names);
    MatchPrinted(TYPE_IMPORT, list, mod);
    MatchPrinted(VALUE_IMPORT, list, mod);
    OpeningsApart(list + (FROM + (mod + END)));
  }

  /** What every parsed line satisfies. */
  ghost predicate Parsed(l: Line) {
    match l
    case Other(text) => ParseLine(text) == l
    case _ => ValidModule(l.mod) && forall n <- l.names :: Clean(n)
  }

  lemma ParsedLine(text: string)
    ensures Parsed(ParseLine(text))
  {
    var typeMatch, valueMatch := Match(TYPE_IMPORT, text), Match(VALUE_IMPORT, text);
    if typeMatch.Some? {
      NamesAreClean(typeMatch.value.0);
    } else if valueMatch.Some? {
      NamesAreClean(valueMatch.value.0);
    }
  }
}
