/** `KeyringStorage` of `cli/src/auth.rs`: a text too long for one keyring entry is spread over
    numbered entries, each continued one ending in a marker. */
module Keyring {
  import opened Common

  const CONTINUE_MARKER := "<MORE>"

  /** The keyring's entries by number. */
  type Items = map<nat, string>

  predicate Continued(chunk: string) {
    |chunk| >= |CONTINUE_MARKER| && chunk[|chunk| - |CONTINUE_MARKER|..] == CONTINUE_MARKER
  }

  function Stripped(chunk: string): string {
    if Continued(chunk) then chunk[..|chunk| - |CONTINUE_MARKER|] else chunk
  }

  // ---------------------------------------------------------------------------------------------
  // Writing and reading the entries
  // ---------------------------------------------------------------------------------------------

  /** What `store` puts into entries 0, 1, ...: every part that fills a whole step is marked. */
  function Chunks(s: string, step: nat): seq<string>
    requires step > 0
    decreases |s|
  {
    if s == "" then []
    else if |s| >= step then [s[..step] + CONTINUE_MARKER] + Chunks(s[step..], step)
    else [s]
  }

  lemma {:induction false} ChunkSizes(s: string, step: nat)
    requires step > 0
    ensures forall chunk <- Chunks(s, step) :: |chunk| <= step + |CONTINUE_MARKER|
    decreases |s|
  {
    if |s| >= step && s != "" {
      ChunkSizes(s[step..], step);
    }
  }

  function Written(k: Items, i: nat, chunks: seq<string>): Items
    decreases |chunks|
  {
    if chunks == [] then k else Written(k[i := chunks[0]], i + 1, chunks[1..])
  }

  /** What `read` makes of the entries from `i` on; access to the entries in `bad` fails. */
  function ReadFrom(k: Items, bad: set<nat>, i: nat): Result<Option<string>, ()>
    decreases k.Keys
  {
    if i in bad then Err(())
    else if i !in k then Ok(None)
    else if !Continued(k[i]) then Ok(Some(k[i]))
    else Prefixed(Stripped(k[i]), ReadFrom(k - {i}, bad, i + 1))
  }

  function Prefixed(s: string, r: Result<Option<string>, ()>): Result<Option<string>, ()> {
    if r.Ok? && r.value.Some? then Ok(Some(s + r.value.value)) else r
  }

  /** The entries that `read` has opened when it ends. */
  function Opened(k: Items, bad: set<nat>, i: nat): nat
    decreases k.Keys
  {
    if i in bad || i !in k || !Continued(k[i]) then i + 1 else Opened(k - {i}, bad, i + 1)
  }

  /** Reading from `i` on depends on the entries from `i` on only. */
  lemma {:induction false} ReadLocal(k: Items, k': Items, bad: set<nat>, i: nat)
    requires forall j: nat | j >= i :: (j in k <==> j in k') && (j in k ==> k[j] == k'[j])
    ensures ReadFrom(k, bad, i) == ReadFrom(k', bad, i)
    decreases k.Keys
  {
    if i !in bad && i in k && Continued(k[i]) { ReadLocal(k - {i}, k' - {i}, bad, i + 1); }
  }

  lemma {:induction false} WrittenKeeps(k: Items, i: nat, chunks: seq<string>, j: nat)
    requires j < i || j >= i + |chunks|
    ensures (j in Written(k, i, chunks) <==> j in k) && (j in k ==> Written(k, i, chunks)[j] == k[j])
    decreases |chunks|
  {
    if chunks != [] { WrittenKeeps(k[i := chunks[0]], i + 1, chunks[1..], j); }
  }

  // ---------------------------------------------------------------------------------------------
  // When does reading return what was stored?
  // ---------------------------------------------------------------------------------------------

  /** The part behind the last whole step. */
  function Tail(s: string, step: nat): string
    requires step > 0
    decreases |s|
  {
    if |s| >= step then Tail(s[step..], step) else s
  }

  lemma ModStep(n: nat, step: nat)
    requires step > 0 && n >= step
    ensures (n - step) % step == n % step
  {
    var q, r := n / step, n % step;
    var q', r' := (n - step) / step, (n - step) % step;
    assert n == q * step + r && n - step == q' * step + r';
    assert (q - 1 - q') * step == r' - r by { assert (q - 1 - q') * step == q * step - step - q' * step; }
    MultipleBounds(q - 1 - q', step);
  }

  lemma MultipleBounds(q: int, step: int)
    requires step > 0
    ensures q >= 1 ==> q * step >= step
    ensures q <= -1 ==> q * step <= -step
  {}

  lemma {:induction false} TailLength(s: string, step: nat)
    requires step > 0
    ensures |Tail(s, step)| == |s| % step && |Tail(s, step)| <= |s|
    decreases |s|
  {
    if |s| >= step {
      TailLength(s[step..], step);
      ModStep(|s|, step);
    }
  }

  /** The length is not a multiple of the step, and the last part does not look continued. */
  predicate Terminated(s: string, step: nat)
    requires step > 0
  {
    |s| % step != 0 && !Continued(Tail(s, step))
  }

  /** `k` holds the chunks from entry `i` on. */
  ghost predicate Holds(k: Items, i: nat, chunks: seq<string>)
    decreases |chunks|
  {
    chunks == [] || (i in k && k[i] == chunks[0] && Holds(k, i + 1, chunks[1..]))
  }

  lemma {:induction false} HoldsLocal(k: Items, k': Items, i: nat, chunks: seq<string>)
    requires Holds(k, i, chunks) && forall j: nat | j >= i && j in k :: j in k' && k[j] == k'[j]
    ensures Holds(k', i, chunks)
    decreases |chunks|
  {
    if chunks != [] { HoldsLocal(k, k', i + 1, chunks[1..]); }
  }

  lemma {:induction false} WrittenHolds(k: Items, i: nat, chunks: seq<string>)
    ensures Holds(Written(k, i, chunks), i, chunks)
    decreases |chunks|
  {
    if chunks != [] {
      WrittenHolds(k[i := chunks[0]], i + 1, chunks[1..]);
      WrittenKeeps(k[i := chunks[0]], i + 1, chunks[1..], i);
    }
  }

  /** The text without the marker that its last part ends in. */
  function Unmarked(s: string, step: nat): string
    requires step > 0
  {
    if Tail(s, step) == "" || |s| < |CONTINUE_MARKER| then s else s[..|s| - |CONTINUE_MARKER|]
  }

  lemma MarkedChunk(part: string)
    ensures Continued(part + CONTINUE_MARKER) && Stripped(part + CONTINUE_MARKER) == part
  {
  }

  lemma ReadFullChunk(k: Items, i: nat, s: string, step: nat)
    requires step > 0 && |s| >= step && s != "" && Holds(k, i, Chunks(s, step))
    ensures ReadFrom(k, {}, i) == Prefixed(s[..step], ReadFrom(k, {}, i + 1))
    ensures Holds(k, i + 1, Chunks(s[step..], step)) && |Chunks(s, step)| == 1 + |Chunks(s[step..], step)|
  {
    assert Chunks(s, step)[1..] == Chunks(s[step..], step);
    MarkedChunk(s[..step]);
    ReadLocal(k, k - {i}, {}, i + 1);
  }

  lemma TerminatedStep(s: string, step: nat)
    requires step > 0 && |s| >= step
    ensures Terminated(s, step) <==> Terminated(s[step..], step)
  {
    ModStep(|s|, step);
  }

  /** An unterminated text that is not used up by whole steps ends in the marker. */
  lemma UnmarkedEnds(s: string, step: nat)
    requires step > 0 && !Terminated(s, step) && Tail(s, step) != ""
    ensures |s| >= |CONTINUE_MARKER|
  {
    TailLength(s, step);
  }

  lemma UnmarkedStep(s: string, step: nat)
    requires step > 0 && |s| >= step
    ensures Terminated(s, step) <==> Terminated(s[step..], step)
    ensures !Terminated(s, step) ==> s[..step] + Unmarked(s[step..], step) == Unmarked(s, step)
    ensures s[..step] + s[step..] == s
  {
    TerminatedStep(s, step);
    if !Terminated(s, step) && Tail(s, step) != "" {
      UnmarkedEnds(s[step..], step);
      CutBehind(s, step, |CONTINUE_MARKER|);
    }
  }

  lemma CutBehind(s: string, step: nat, n: nat)
    requires step + n <= |s|
    ensures s[..step] + s[step..][..|s| - step - n] == s[..|s| - n]
  {
  }

  lemma PrefixTwice(a: string, b: string, r: Result<Option<string>, ()>)
    ensures Prefixed(a, Prefixed(b, r)) == Prefixed(a + b, r)
  {
    if r.Ok? && r.value.Some? { assert a + (b + r.value.value) == (a + b) + r.value.value; }
  }

  /** A full chunk in front of what reading the rest returns; `behind` is what the entries after them hold. */
  lemma ReadOneMore(s: string, step: nat, rest: Result<Option<string>, ()>, behind: Result<Option<string>, ()>)
    requires step > 0 && |s| >= step
    requires Terminated(s[step..], step) ==> rest == Ok(Some(s[step..]))
    requires !Terminated(s[step..], step) ==> rest == Prefixed(Unmarked(s[step..], step), behind)
    ensures Terminated(s, step) ==> Prefixed(s[..step], rest) == Ok(Some(s))
    ensures !Terminated(s, step) ==> Prefixed(s[..step], rest) == Prefixed(Unmarked(s, step), behind)
  {
    UnmarkedStep(s, step);
    PrefixTwice(s[..step], Unmarked(s[step..], step), behind);
  }

  /** A last, shorter chunk. */
  lemma ReadLastChunk(k: Items, i: nat, s: string, step: nat)
    requires 0 < |s| < step && Holds(k, i, Chunks(s, step))
    ensures |Chunks(s, step)| == 1
    ensures Terminated(s, step) ==> ReadFrom(k, {}, i) == Ok(Some(s))
    ensures !Terminated(s, step) ==> ReadFrom(k, {}, i) == Prefixed(Unmarked(s, step), ReadFrom(k, {}, i + 1))
  {
    TailLength(s, step);
    assert Chunks(s, step)[0] == s;
    if Continued(s) { ReadLocal(k, k - {i}, {}, i + 1); }
  }

  /** What reading the chunks of `s` returns, whatever lies in the entries behind them. */
  lemma {:induction false} ReadChunks(k: Items, i: nat, s: string, step: nat)
    requires step > 0 && Holds(k, i, Chunks(s, step))
    ensures Terminated(s, step) ==> ReadFrom(k, {}, i) == Ok(Some(s))
    ensures !Terminated(s, step) ==>
              ReadFrom(k, {}, i) == Prefixed(Unmarked(s, step), ReadFrom(k, {}, i + |Chunks(s, step)|))
    decreases |s|
  {
    if s == "" {
      var r := ReadFrom(k, {}, i);
      assert r.Ok? && r.value.Some? ==> "" + r.value.value == r.value.value;
    } else if |s| >= step {
      ReadFullChunk(k, i, s, step);
      ReadChunks(k, i + 1, s[step..], step);
      ReadOneMore(s, step, ReadFrom(k, {}, i + 1), ReadFrom(k, {}, i + |Chunks(s, step)|));
    } else {
      ReadLastChunk(k, i, s, step);
    }
  }

  /** Whatever longer value was stored before, reading after a store returns the text if its length
      is no multiple of the step and its last part does not end in the marker. */
  lemma StoreThenRead(k: Items, s: string, step: nat)
    requires step > 0 && Terminated(s, step)
    ensures ReadFrom(Written(k, 0, Chunks(s, step)), {}, 0) == Ok(Some(s))
  {
    WrittenHolds(k, 0, Chunks(s, step));
    ReadChunks(Written(k, 0, Chunks(s, step)), 0, s, step);
  }

  lemma NothingBehind(k: Items, i: nat, s: string)
    requires i !in k
    ensures Prefixed(s, ReadFrom(k, {}, i)) == Ok(None)
  {
  }

  lemma ReadsBackIff(k: Items, s: string, step: nat)
    requires step > 0 && Holds(k, 0, Chunks(s, step)) && |Chunks(s, step)| !in k
    ensures ReadFrom(k, {}, 0) == Ok(Some(s)) <==> Terminated(s, step)
    ensures !Terminated(s, step) ==> ReadFrom(k, {}, 0) == Ok(None)
  {
    ReadChunks(k, 0, s, step);
    NothingBehind(k, |Chunks(s, step)|, Unmarked(s, step));
  }

  /** When no older value continues behind the new one, that condition is exact; without it reading
      runs on into the missing entry and finds nothing. */
  lemma StoreThenReadIff(k: Items, s: string, step: nat)
    requires step > 0 && |Chunks(s, step)| !in k
    ensures ReadFrom(Written(k, 0, Chunks(s, step)), {}, 0) == Ok(Some(s)) <==> Terminated(s, step)
    ensures !Terminated(s, step) ==> ReadFrom(Written(k, 0, Chunks(s, step)), {}, 0) == Ok(None)
  {
    var chunks := Chunks(s, step);
    WrittenHolds(k, 0, chunks);
    WrittenKeeps(k, 0, chunks, |chunks|);
    ReadsBackIff(Written(k, 0, chunks), s, step);
  }

  /** A text that looks like the marker is lost, in an empty keyring, whatever the step is. */
  lemma MarkerTextIsLost(step: nat)
    requires step > 6
    ensures ReadFrom(Written(map[], 0, Chunks("<MORE>", step)), {}, 0) == Ok(None)
  {
    assert Continued("<MORE>");
    StoreThenReadIff(map[], "<MORE>", step);
  }

  /** At an exact multiple the text is continued by whatever an older, longer value left behind. */
  lemma ExactMultipleRunsOn(k: Items, s: string, step: nat)
    requires step > 0 && |s| % step == 0
    ensures ReadFrom(Written(k, 0, Chunks(s, step)), {}, 0) == Prefixed(s, ReadFrom(k, {}, |Chunks(s, step)|))
  {
    var chunks := Chunks(s, step);
    WrittenHolds(k, 0, chunks);
    ReadChunks(Written(k, 0, chunks), 0, s, step);
    TailLength(s, step);
    forall j: nat | j >= |chunks|
      ensures (j in k <==> j in Written(k, 0, chunks)) && (j in k ==> k[j] == Written(k, 0, chunks)[j])
    {
      WrittenKeeps(k, 0, chunks, j);
    }
    ReadLocal(k, Written(k, 0, chunks), {}, |chunks|);
  }
}
