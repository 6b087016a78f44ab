/** The edit loop of `formatTypeScript` in `scripts/sync-agent-host-protocol.ts`. */
module TextEdits {

  datatype Edit = Edit(start: nat, length: nat, newText: string)

  /** A list of edits, first edit first. */
  datatype Edits = Nil | Cons(first: Edit, rest: Edits)

  function EditsOf(edits: seq<Edit>): Edits {
    if edits == [] then Nil else Cons(edits[0], EditsOf(edits[1..]))
  }

  /** In the order of their positions from `from` on, without overlap, inside the text. */
  predicate Ordered(content: string, from: nat, edits: Edits)
    decreases edits
  {
    match edits
    case Nil => from <= |content|
    case Cons(e, rest) => from <= e.start && Ordered(content, e.start + e.length, rest)
  }

  /** JavaScript's `substring`: bounds past the end are cut, bounds in the wrong order are swapped. */
  function Substring(s: string, a: nat, b: nat): string {
    var lo, hi := if a <= b then a else b, if a <= b then b else a;
    s[(if lo <= |s| then lo else |s|)..(if hi <= |s| then hi else |s|)]
  }

  function ApplyOne(content: string, e: Edit): string {
    Substring(content, 0, e.start) + e.newText + Substring(content, e.start + e.length, |content|)
  }

  /** What the loop computes for any list of edits: the last edit first, each on the changed text. */
  function LastToFirst(content: string, edits: Edits): string {
    match edits
    case Nil => content
    case Cons(e, rest) => ApplyOne(LastToFirst(content, rest), e)
  }

  /** All spans replaced at once, in the text from position `from` on. */
  function Replaced(content: string, from: nat, edits: Edits): string
    requires Ordered(content, from, edits)
    decreases edits
  {
    match edits
    case Nil => content[from..]
    case Cons(e, rest) =>
      OrderedInside(content, e.start + e.length, rest);
      content[from..e.start] + e.newText + Replaced(content, e.start + e.length, rest)
  }

  lemma {:induction false} OrderedInside(content: string, from: nat, edits: Edits)
    requires Ordered(content, from, edits)
    ensures from <= |content|
    decreases edits
  {
    if edits.Cons? {
      OrderedInside(content, edits.first.start + edits.first.length, edits.rest);
    }
  }

  method ApplyEdits(original: string, edits: seq<Edit>) returns (content: string)
    ensures content == LastToFirst(original, EditsOf(edits))
  {
    content := original;
    for i := |edits| downto 0
      invariant content == LastToFirst(original, EditsOf(edits[i..]))
    {
      var edit := edits[i];
      assert edits[i..][0] == edit && edits[i..][1..] == edits[i+1..];
      content := Substring(content, 0, edit.start) + edit.newText +
        Substring(content, edit.start + edit.length, |content|);
    }
    assert edits[0..] == edits;
  }

  lemma ReplaceBehind(content: string, from: nat, e: Edit, rest: string)
    requires from <= e.start && e.start + e.length <= |content|
    ensures ApplyOne(content[..e.start + e.length] + rest, e)
            == content[..from] + (content[from..e.start] + e.newText + rest)
  {
    var end := e.start + e.length;
    var changed := content[..end] + rest;
    assert Substring(changed, 0, e.start) == content[..e.start] == content[..from] + content[from..e.start];
    assert Substring(changed, end, |changed|) == rest;
  }

  lemma {:induction false} LastToFirstFrom(content: string, from: nat, edits: Edits)
    requires Ordered(content, from, edits)
    ensures from <= |content| && LastToFirst(content, edits) == content[..from] + Replaced(content, from, edits)
    decreases edits
  {
    OrderedInside(content, from, edits);
    if edits == Nil {
      assert content == content[..from] + content[from..];
    } else {
      var end := edits.first.start + edits.first.length;
      LastToFirstFrom(content, end, edits.rest);
      ReplaceBehind(content, from, edits.first, Replaced(content, end, edits.rest));
    }
  }

  /** Applying ordered edits from last to first replaces all spans of the original text at once. */
  lemma LastToFirstIsSimultaneous(content: string, edits: Edits)
    requires Ordered(content, 0, edits)
    ensures LastToFirst(content, edits) == Replaced(content, 0, edits)
  {
    LastToFirstFrom(content, 0, edits);
  }

  /** Out of order, the second edit hits text that the first one moved. */
  lemma OrderMatters()
    ensures var edits := Cons(Edit(2, 1, "Z"), Cons(Edit(0, 1, "XY"), Nil));
            LastToFirst("abc", edits) == "XYZc" && !Ordered("abc", 0, edits)
  {
    assert ApplyOne("abc", Edit(0, 1, "XY")) == "XYbc";
    assert ApplyOne("XYbc", Edit(2, 1, "Z")) == "XYZc";
  }

  // ---------------------------------------------------------------------------------------------
  // What replacing all spans at once means, position by position
  // ---------------------------------------------------------------------------------------------

  /** How far the text behind the spans that end at or before `p` moves. */
  function Shift(edits: Edits, p: nat): int {
    match edits
    case Nil => 0
    case Cons(e, rest) => (if e.start + e.length <= p then |e.newText| - e.length else 0) + Shift(rest, p)
  }

  /** No span covers position `p`. */
  predicate Outside(edits: Edits, p: nat) {
    match edits
    case Nil => true
    case Cons(e, rest) => (p < e.start || e.start + e.length <= p) && Outside(rest, p)
  }

  lemma {:induction false} ShiftBefore(content: string, from: nat, edits: Edits, p: nat)
    requires Ordered(content, from, edits) && p < from
    ensures Shift(edits, p) == 0
    decreases edits
  {
    if edits.Cons? {
      ShiftBefore(content, edits.first.start + edits.first.length, edits.rest, p);
    }
  }

  ghost predicate At(s: string, i: int, c: char) {
    0 <= i < |s| && s[i] == c
  }

  lemma AtFront(head: string, rest: string, i: int, c: char)
    requires At(head, i, c)
    ensures At(head + rest, i, c)
  {
  }

  lemma AtBehind(head: string, rest: string, i: int, c: char)
    requires At(rest, i, c)
    ensures At(head + rest, |head| + i, c)
  {
  }

  lemma AtSlice(content: string, from: nat, to: nat, p: nat)
    requires from <= p < to <= |content|
    ensures At(content[from..to], p - from, content[p])
  {
  }

  /** A kept character before the first span. */
  lemma KeptInFront(content: string, from: nat, e: Edit, rest: string, p: nat)
    requires from <= p < e.start <= |content|
    ensures At(content[from..e.start] + e.newText + rest, p - from, content[p])
  {
    AtSlice(content, from, e.start, p);
    AtFront(content[from..e.start], e.newText, p - from, content[p]);
    AtFront(content[from..e.start] + e.newText, rest, p - from, content[p]);
  }

  /** What is behind the first span, moved by the first edit. */
  lemma AtWhole(content: string, from: nat, e: Edit, rest: string, i: int, c: char)
    requires from <= e.start <= |content| && At(rest, i, c)
    ensures At(content[from..e.start] + e.newText + rest, e.start - from + |e.newText| + i, c)
  {
    AtBehind(content[from..e.start] + e.newText, rest, i, c);
  }

  lemma FirstTextInserted(content: string, from: nat, e: Edit, rest: string, k: nat)
    requires from <= e.start <= |content| && k < |e.newText|
    ensures At(content[from..e.start] + e.newText + rest, e.start - from + k, e.newText[k])
  {
    AtBehind(content[from..e.start], e.newText, k, e.newText[k]);
    AtFront(content[from..e.start] + e.newText, rest, e.start - from + k, e.newText[k]);
  }

  /** Every character outside the spans is kept, moved by what was replaced before it. */
  lemma {:induction false} KeptCharacters(content: string, from: nat, edits: Edits, p: nat)
    requires Ordered(content, from, edits) && from <= p < |content| && Outside(edits, p)
    ensures At(Replaced(content, from, edits), p - from + Shift(edits, p), content[p])
    decreases edits
  {
    if edits == Nil {
      assert content[from..][p - from] == content[p];
    } else {
      var e, end := edits.first, edits.first.start + edits.first.length;
      OrderedInside(content, end, edits.rest);
      if p < e.start {
        ShiftBefore(content, end, edits.rest, p);
        KeptInFront(content, from, e, Replaced(content, end, edits.rest), p);
      } else {
        KeptCharacters(content, end, edits.rest, p);
        AtWhole(content, from, e, Replaced(content, end, edits.rest), p - end + Shift(edits.rest, p), content[p]);
      }
    }
  }

  function Count(edits: Edits): nat {
    match edits
    case Nil => 0
    case Cons(_, rest) => 1 + Count(rest)
  }

  function Nth(edits: Edits, i: nat): Edit
    requires i < Count(edits)
  {
    if i == 0 then edits.first else Nth(edits.rest, i - 1)
  }

  /** How much the first `n` edits add or take. */
  function Growth(edits: Edits, n: nat): int
    requires n <= Count(edits)
  {
    if n == 0 then 0 else |edits.first.newText| - edits.first.length + Growth(edits.rest, n - 1)
  }

  /** Every new text stands, character by character, where its span was, moved by the edits before it. */
  lemma {:induction false} InsertedTexts(content: string, from: nat, edits: Edits, i: nat, k: nat)
    requires Ordered(content, from, edits) && i < Count(edits) && k < |Nth(edits, i).newText|
    ensures At(Replaced(content, from, edits), Nth(edits, i).start - from + Growth(edits, i) + k,
      Nth(edits, i).newText[k])
    decreases edits
  {
    var e, end := edits.first, edits.first.start + edits.first.length;
    OrderedInside(content, end, edits.rest);
    if i == 0 {
      FirstTextInserted(content, from, e, Replaced(content, end, edits.rest), k);
    } else {
      var it := Nth(edits.rest, i - 1);
      InsertedTexts(content, end, edits.rest, i - 1, k);
      AtWhole(content, from, e, Replaced(content, end, edits.rest),
              it.start - end + Growth(edits.rest, i - 1) + k, it.newText[k]);
    }
  }

  /** Nothing else is in the result: its length is the old one plus what each edit adds or takes. */
  lemma {:induction false} ReplacedLength(content: string, from: nat, edits: Edits)
    requires Ordered(content, from, edits)
    ensures |Replaced(content, from, edits)| == |content| - from + Growth(edits, Count(edits))
    decreases edits
  {
    OrderedInside(content, from, edits);
    if edits.Cons? {
      var end := edits.first.start + edits.first.length;
      OrderedInside(content, end, edits.rest);
      ReplacedLength(content, end, edits.rest);
    }
  }
}
