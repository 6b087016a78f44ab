/** `KeyringStorage` of `cli/src/auth.rs` as an object: the operating system's keyring may fail at any
    entry, and the storage only deletes entries it has opened before. */
module KeyringStorages {
  import opened Common
  import opened Keyring

  /** Entries are written in order until one fails. */
  function Stored(k: Items, chunks: seq<string>, bad: set<nat>, i: nat): (Items, bool)
    decreases |chunks|
  {
    if chunks == [] then (k, true)
    else if i in bad then (k, false)
    else Stored(k[i := chunks[0]], chunks[1..], bad, i + 1)
  }

  /** Entries `i` to `n - 1` are deleted in order until one is missing or fails. */
  function Deleted(k: Items, n: nat, bad: set<nat>, i: nat): (Items, bool)
    decreases n - i
  {
    if i >= n then (k, true)
    else if i in bad || i !in k then (k, false)
    else Deleted(k - {i}, n, bad, i + 1)
  }

  /** How many entries the storage knows after it has read. */
  function Known(known: nat, k: Items, bad: set<nat>): nat {
    if Opened(k, bad, 0) > known then Opened(k, bad, 0) else known
  }

  lemma {:induction false} StoredIsWritten(k: Items, chunks: seq<string>, bad: set<nat>, i: nat)
    ensures Stored(k, chunks, bad, i).1 ==> Stored(k, chunks, bad, i).0 == Written(k, i, chunks)
    ensures Stored(k, chunks, bad, i).1 <==> forall j | i <= j < i + |chunks| :: j !in bad
    decreases |chunks|
  {
    if chunks != [] && i !in bad { StoredIsWritten(k[i := chunks[0]], chunks[1..], bad, i + 1); }
  }

  /** Storing changes entries only to parts that fit the limit. */
  lemma {:induction false} StoredFits(k: Items, chunks: seq<string>, bad: set<nat>, i: nat, limit: nat)
    requires forall chunk <- chunks :: |chunk| <= limit
    ensures forall j <- Stored(k, chunks, bad, i).0 ::
              (j in k && Stored(k, chunks, bad, i).0[j] == k[j]) || |Stored(k, chunks, bad, i).0[j]| <= limit
    decreases |chunks|
  {
    if chunks != [] && i !in bad {
      assert chunks[0] in chunks;
      StoredFits(k[i := chunks[0]], chunks[1..], bad, i + 1, limit);
    }
  }

  lemma {:induction false} DeletedKeys(k: Items, n: nat, bad: set<nat>, i: nat)
    ensures Deleted(k, n, bad, i).1 <==> forall j | i <= j < n :: j in k && j !in bad
    ensures Deleted(k, n, bad, i).1 ==> forall j :: j in Deleted(k, n, bad, i).0 <==> j in k && !(i <= j < n)
    ensures forall j <- Deleted(k, n, bad, i).0 :: j in k && Deleted(k, n, bad, i).0[j] == k[j]
    decreases n - i
  {
    if i < n && i !in bad && i in k {
      DeletedKeys(k - {i}, n, bad, i + 1);
      assert forall j | i + 1 <= j < n :: j in k - {i} <==> j in k;
    }
  }

  lemma {:induction false} OpenedPositive(k: Items, bad: set<nat>, i: nat)
    ensures Opened(k, bad, i) > i
    decreases k.Keys
  {
    if i !in bad && i in k && Continued(k[i]) { OpenedPositive(k - {i}, bad, i + 1); }
  }

  /** After a successful clear there is nothing to read, whatever entries it did not know remain. */
  lemma ClearThenRead(k: Items, known: nat, bad: set<nat>)
    requires Deleted(k, Known(known, k, bad), bad, 0).1
    ensures ReadFrom(Deleted(k, Known(known, k, bad), bad, 0).0, {}, 0) == Ok(None)
  {
    DeletedKeys(k, Known(known, k, bad), bad, 0);
    OpenedPositive(k, bad, 0);
  }

  /** Reading on from an entry opens the same entries, whatever was read before. */
  lemma {:induction false} OpenedLocal(k: Items, k': Items, i: nat)
    requires forall j: nat | j >= i :: (j in k <==> j in k') && (j in k ==> k[j] == k'[j])
    ensures Opened(k, {}, i) == Opened(k', {}, i)
    decreases k.Keys
  {
    if i in k && Continued(k[i]) { OpenedLocal(k - {i}, k' - {i}, i + 1); }
  }

  /** The end of the entries of `s` from `i` on, or, if the text is not properly terminated, of those that
      reading on behind it opens. */
  ghost function OpenedBehind(k: Items, i: nat, s: string, step: nat): nat
    requires step > 0
  {
    var end := i + |Chunks(s, step)|;
    if Terminated(s, step) then end else Opened(k, {}, end)
  }

  lemma OpenedChunk(k: Items, i: nat, s: string, step: nat)
    requires step > 0 && |s| >= step && Holds(k, i, Chunks(s, step))
    ensures Opened(k, {}, i) == Opened(k, {}, i + 1)
    ensures Holds(k, i + 1, Chunks(s[step..], step)) && |Chunks(s, step)| == 1 + |Chunks(s[step..], step)|
  {
    ReadFullChunk(k, i, s, step);
    MarkedChunk(s[..step]);
    OpenedLocal(k, k - {i}, i + 1);
  }

  lemma OneChunkMore(k: Items, i: nat, s: string, step: nat)
    requires step > 0 && |s| >= step && Holds(k, i, Chunks(s, step))
    ensures OpenedBehind(k, i, s, step) == OpenedBehind(k, i + 1, s[step..], step)
  {
    OpenedChunk(k, i, s, step);
    TerminatedStep(s, step);
  }

  lemma OpenedNone(k: Items, i: nat, step: nat)
    requires step > 0
    ensures OpenedBehind(k, i, "", step) == Opened(k, {}, i)
  {
  }

  /** Reading a stored text opens its own entries, and if it is not properly terminated, those that
      reading the entries behind it opens. */
  lemma {:induction false} OpenedCount(k: Items, i: nat, s: string, step: nat)
    requires step > 0 && Holds(k, i, Chunks(s, step))
    ensures Opened(k, {}, i) == OpenedBehind(k, i, s, step)
    decreases |s|
  {
    if s == "" {
      OpenedNone(k, i, step);
    } else if |s| >= step {
      OpenedChunk(k, i, s, step);
      OneChunkMore(k, i, s, step);
      OpenedCount(k, i + 1, s[step..], step);
    } else {
      OpenedLast(k, i, s, step);
    }
  }

  lemma OpenedLast(k: Items, i: nat, s: string, step: nat)
    requires step > 0 && 0 < |s| < step && Holds(k, i, Chunks(s, step))
    ensures |Chunks(s, step)| == 1
    ensures Opened(k, {}, i) == if Terminated(s, step) then i + 1 else Opened(k, {}, i + 1)
  {
    TailLength(s, step);
    assert Chunks(s, step) == [s];
    OpenedLocal(k, k - {i}, i + 1);
  }

  /** All entries that reading opens are there if and only if it finds a text. */
  lemma {:induction false} OpenedPresentIff(k: Items, i: nat)
    ensures (forall j | i <= j < Opened(k, {}, i) :: j in k) <==> ReadFrom(k, {}, i) != Ok(None)
    decreases k.Keys
  {
    OpenedPositive(k, {}, i);
    if i in k && Continued(k[i]) {
      OpenedPresentIff(k - {i}, i + 1);
      assert forall j | i + 1 <= j < Opened(k, {}, i) :: j in k - {i} <==> j in k;
    }
  }

  lemma {:induction false} HoldsAll(k: Items, i: nat, chunks: seq<string>, j: nat)
    requires Holds(k, i, chunks) && i <= j < i + |chunks|
    ensures j in k
    decreases |chunks|
  {
    if j > i {
      HoldsAll(k, i + 1, chunks[1..], j);
    }
  }

  /** Clearing a stored text with a working keyring, whatever older entries lie behind it: it succeeds if
      and only if the text is properly terminated or reading on behind it finds a text, and all further
      entries that the storage has opened before are still there. */
  lemma ClearSucceedsIff(k: Items, known: nat, s: string, step: nat)
    requires step > 0 && Holds(k, 0, Chunks(s, step))
    ensures var end := |Chunks(s, step)|;
            Deleted(k, Known(known, k, {}), {}, 0).1 <==>
              && (Terminated(s, step) || ReadFrom(k, {}, end) != Ok(None))
              && forall j | end <= j < known :: j in k
  {
    var end := |Chunks(s, step)|;
    OpenedCount(k, 0, s, step);
    OpenedPositive(k, {}, end);
    OpenedPresentIff(k, end);
    DeletedKeys(k, Known(known, k, {}), {}, 0);
    forall j: nat | j < end ensures j in k {
      HoldsAll(k, 0, Chunks(s, step), j);
    }
  }

  /** In particular clearing a text whose length is an exact multiple fails: it runs on to the entry that
      was never written and cannot delete it, after all the text's own entries are gone. */
  lemma ClearFailsAtExactMultiple(k: Items, known: nat, s: string, step: nat)
    requires step > 0 && |s| % step == 0 && Holds(k, 0, Chunks(s, step)) && |Chunks(s, step)| !in k
    ensures !Deleted(k, Known(known, k, {}), {}, 0).1
    ensures forall j | 0 <= j < |Chunks(s, step)| :: j !in Deleted(k, Known(known, k, {}), {}, 0).0
  {
    ClearSucceedsIff(k, known, s, step);
    OpenedCount(k, 0, s, step);
    forall j: nat | j < |Chunks(s, step)| ensures j in k {
      HoldsAll(k, 0, Chunks(s, step), j);
    }
    DeletedUntilMissing(k, Known(known, k, {}), 0, |Chunks(s, step)|);
  }

  /** Everything before the first missing entry is deleted. */
  lemma {:induction false} DeletedUntilMissing(k: Items, n: nat, i: nat, missing: nat)
    requires i <= missing < n && missing !in k && forall j | i <= j < missing :: j in k
    ensures forall j | i <= j < missing :: j !in Deleted(k, n, {}, i).0
    decreases missing - i
  {
    if i < missing {
      DeletedUntilMissing(k - {i}, n, i + 1, missing);
      DeletedKeys(k - {i}, n, {}, i + 1);
    }
  }

  /** The operating system's keyring under one prefix; it outlives the process. */
  class Keychain {
    var items: Items

    constructor (items: Items)
      ensures this.items == items
    {
      this.items := items;
    }
  }

  /** Where reading stands: `rest` are the entries from `i` on, and `str` is what the ones before gave. */
  ghost predicate ReadSoFar(items: Items, bad: set<nat>, i: nat, str: string, rest: Items) {
    && (forall j: nat :: j in rest <==> j in items && j >= i)
    && (forall j <- rest :: rest[j] == items[j])
    && ReadFrom(items, bad, 0) == Prefixed(str, ReadFrom(rest, bad, i))
    && Opened(items, bad, 0) == Opened(rest, bad, i)
  }

  lemma NothingReadYet(items: Items, bad: set<nat>)
    ensures ReadSoFar(items, bad, 0, "", items)
  {
    var all := ReadFrom(items, bad, 0);
    assert all.Ok? && all.value.Some? ==> "" + all.value.value == all.value.value;
  }

  lemma ReadOn(items: Items, bad: set<nat>, i: nat, str: string, rest: Items)
    requires ReadSoFar(items, bad, i, str, rest) && i !in bad && i in items && Continued(items[i])
    ensures i in rest && ReadSoFar(items, bad, i + 1, str + Stripped(items[i]), rest - {i})
  {
    PrefixTwice(str, Stripped(items[i]), ReadFrom(rest - {i}, bad, i + 1));
  }

  /** `limit` is the length limit of a keyring entry; `entries` counts the entries opened so far. */
  class KeyringStorage {
    const keychain: Keychain
    const limit: nat
    var entries: nat

    constructor (keychain: Keychain, limit: nat)
      requires limit > |CONTINUE_MARKER|
      ensures this.keychain == keychain && this.limit == limit && entries == 0
    {
      this.keychain, this.limit := keychain, limit;
      entries := 0;
    }

    function Step(): nat {
      if limit > |CONTINUE_MARKER| then limit - |CONTINUE_MARKER| else 1
    }

    method Read(bad: set<nat>) returns (r: Result<Option<string>, ()>)
      modifies this`entries
      ensures r == ReadFrom(keychain.items, bad, 0)
      ensures entries == Known(old(entries), keychain.items, bad)
    {
      var str := "";
      var i := 0;
      ghost var rest := keychain.items;
      NothingReadYet(rest, bad);
      while true
        invariant ReadSoFar(keychain.items, bad, i, str, rest)
        invariant entries == if i > old(entries) then i else old(entries)
        decreases rest.Keys
      {
        if i >= entries {
          entries := i + 1;
        }
        if i in bad {
          return Err(());
        }
        if i !in keychain.items {
          return Ok(None);
        }
        var chunk := keychain.items[i];
        if Continued(chunk) {
          ReadOn(keychain.items, bad, i, str, rest);
          str := str + chunk[..|chunk| - |CONTINUE_MARKER|];
          rest := rest - {i};
          i := i + 1;
        } else {
          str := str + chunk;
          return Ok(Some(str));
        }
      }
    }

    method Store(text: string, bad: set<nat>) returns (ok: bool)
      modifies this`entries, keychain
      ensures (keychain.items, ok) == Stored(old(keychain.items), Chunks(text, Step()), bad, 0)
      ensures limit > |CONTINUE_MARKER| ==>
                forall i <- keychain.items ::
                  (i in old(keychain.items) && keychain.items[i] == old(keychain.items)[i]) ||
                  |keychain.items[i]| <= limit
    {
      var step := Step();
      var i, n := 0, 0;
      ChunkSizes(text, step);
      if limit > |CONTINUE_MARKER| { StoredFits(keychain.items, Chunks(text, step), bad, 0, limit); }
      assert text[0..] == text;
      while i < |text|
        invariant 0 <= i
        invariant i <= |text| ==> Stored(keychain.items, Chunks(text[i..], step), bad, n)
                                  == Stored(old(keychain.items), Chunks(text, step), bad, 0)
        invariant i > |text| ==> (keychain.items, true) == Stored(old(keychain.items), Chunks(text, step), bad, 0)
        decreases |text| - i
      {
        if n >= entries {
          entries := n + 1;
        }
        var cutoff := i + step;
        if n in bad {
          return false;
        }
        if cutoff <= |text| {
          var part := text[i..cutoff] + CONTINUE_MARKER;
          assert text[i..][..step] == text[i..cutoff] && text[i..][step..] == text[cutoff..];
          assert Chunks(text[i..], step)[1..] == Chunks(text[cutoff..], step);
          keychain.items := keychain.items[n := part];
        } else {
          assert Chunks(text[i..], step) == [text[i..]];
          keychain.items := keychain.items[n := text[i..]];
        }
        i, n := cutoff, n + 1;
      }
      ok := true;
    }

    method Clear(bad: set<nat>) returns (ok: bool)
      modifies this`entries, keychain
      ensures (keychain.items, ok) ==
              Deleted(old(keychain.items), Known(old(entries), old(keychain.items), bad), bad, 0)
      ensures entries == if ok then 0 else Known(old(entries), old(keychain.items), bad)
    {
      var _ := Read(bad);
      var i := 0;
      while i < entries
        invariant i <= entries == Known(old(entries), old(keychain.items), bad)
        invariant Deleted(keychain.items, entries, bad, i) == Deleted(old(keychain.items), entries, bad, 0)
      {
        if i in bad || i !in keychain.items {
          return false;
        }
        keychain.items := keychain.items - {i};
        i := i + 1;
      }
      entries := 0;
      ok := true;
    }
  }
}
