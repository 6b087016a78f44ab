/** Credential storage of `cli/src/auth.rs`: the keyring with a file to fall back to, a value kept in
    memory, and what a restarted process finds. */
module Auth {
  import opened Common
  import opened StateFile
  import opened Keyring
  import opened KeyringStorages

  datatype Credential = Credential(provider: nat, accessToken: string, refreshToken: Option<string>,
    expiresAt: Option<int>)

  /** Decrypting and parsing; sealing is any text that unseals to the credential. */
  type Unseal = string -> Option<Credential>

  datatype Backend = InKeyring | InFile

  /** `StorageWithLastRead`: the storage in use, whether the file can still replace it, and the value
      in memory. */
  datatype Storage = Storage(backend: Backend, fallback: bool, last: Option<Credential>)

  /** Keyring and file outlive the process. `file` is the parsed content of the token file, `present`
      whether it exists. `durable` records whether the value in memory was last taken from, or
      accepted and properly terminated by, the storage. */
  datatype World = World(
    useFile: bool,
    keychain: Items,
    file: Option<Option<string>>,
    present: bool,
    storage: Option<Storage>,
    durable: bool)

  function Unsealed(u: Unseal, text: Option<string>): Option<Credential> {
    if text.Some? then u(text.value) else None
  }

  function FileValue(file: Option<Option<string>>): Option<string> {
    if file.Some? then file.value else None
  }

  // ---------------------------------------------------------------------------------------------
  // Operations
  // ---------------------------------------------------------------------------------------------

  /** `bad` are the keyring entries that fail during the operation, `w` is how writing the file goes,
      `known` how many keyring entries the storage has opened so far. */
  datatype Action =
    | Start(bad: set<nat>)
    | Store(c: Credential, sealed: string, bad: set<nat>, w: WriteResult)
    | Clear(known: nat, bad: set<nat>, w: WriteResult)
    | Stop

  predicate Enabled(u: Unseal, w: World, a: Action) {
    match a
    case Start(_) => w.storage.None?
    case Store(c, sealed, _, _) => w.storage.Some? && u(sealed) == Some(c)
    case Clear(_, _, _) => w.storage.Some?
    case Stop => w.storage.Some?
  }

  /** The first use of the storage in a process. */
  function Started(u: Unseal, w: World, bad: set<nat>): Storage {
    var read := ReadFrom(w.keychain, bad, 0);
    if !w.useFile && !w.present && read.Ok? then Storage(InKeyring, true, Unsealed(u, read.value))
    else Storage(InFile, false, Unsealed(u, FileValue(w.file)))
  }

  function SavedFile(w: World, value: Option<string>, r: WriteResult): World {
    w.(file := AfterWrite(w.file, value, r), present := w.present || r != NotOpened)
  }

  function StoreOf(w: World, s: Storage, step: nat, c: Credential, sealed: string, bad: set<nat>, r: WriteResult): World
    requires step > 0
  {
    if s.backend == InFile then
      SavedFile(w, Some(sealed), r).(storage := Some(s.(last := Some(c))), durable := r == Written)
    else
      var (keychain, ok) := Stored(w.keychain, Chunks(sealed, step), bad, 0);
      var w' := w.(keychain := keychain);
      if ok then w'.(storage := Some(s.(last := Some(c))), durable := Terminated(sealed, step))
      else if s.fallback then
        SavedFile(w', Some(sealed), r).(storage := Some(Storage(InFile, false, Some(c))), durable := r == Written)
      else w'.(storage := Some(s.(last := Some(c))), durable := false)
  }

  function ClearOf(w: World, s: Storage, known: nat, bad: set<nat>, r: WriteResult): World {
    if s.backend == InFile then
      var w' := SavedFile(w, None, r);
      if r == Written then w'.(storage := Some(s.(last := None)), durable := true) else w'.(durable := false)
    else
      var (keychain, ok) := Deleted(w.keychain, Known(known, w.keychain, bad), bad, 0);
      var w' := w.(keychain := keychain);
      if ok then w'.(storage := Some(s.(last := None)), durable := true) else w'.(durable := false)
  }

  function Step(u: Unseal, w: World, step: nat, a: Action): World
    requires Enabled(u, w, a) && step > 0
  {
    match a
    case Start(bad) =>
      w.(storage := Some(Started(u, w, bad)), durable := w.useFile || w.present || ReadFrom(w.keychain, bad, 0).Ok?)
    case Store(c, sealed, bad, r) => StoreOf(w, w.storage.value, step, c, sealed, bad, r)
    case Clear(known, bad, r) => ClearOf(w, w.storage.value, known, bad, r)
    case Stop => w.(storage := None)
  }

  /** Any number of processes one after another, from any initial keyring and file. */
  ghost predicate Run(u: Unseal, w0: World, step: nat, acts: seq<Action>, w1: World)
    requires step > 0
    decreases |acts|
  {
    if acts == [] then w0 == w1
    else Enabled(u, w0, acts[0]) && Run(u, Step(u, w0, step, acts[0]), step, acts[1..], w1)
  }

  // ---------------------------------------------------------------------------------------------
  // What a restarted process reads
  // ---------------------------------------------------------------------------------------------

  ghost predicate Inv(u: Unseal, w: World) {
    && (!w.present ==> w.file == None)
    && (w.storage.Some? ==>
          && (w.storage.value.backend == InKeyring <==> w.storage.value.fallback)
          && (w.storage.value.backend == InKeyring ==> !w.useFile && !w.present)
          && (w.durable && (w.useFile || w.present) ==> Unsealed(u, FileValue(w.file)) == w.storage.value.last)
          && (w.durable && !w.useFile && !w.present ==>
                var r := ReadFrom(w.keychain, {}, 0);
                r.Ok? && Unsealed(u, r.value) == w.storage.value.last))
  }

  /** A keyring that can be read at all reads the same when nothing fails. */
  lemma {:induction false} ReadWithoutFailures(k: Items, bad: set<nat>, i: nat)
    ensures ReadFrom(k, bad, i).Ok? ==> ReadFrom(k, {}, i) == ReadFrom(k, bad, i)
    decreases k.Keys
  {
    if i !in bad && i in k && Continued(k[i]) { ReadWithoutFailures(k - {i}, bad, i + 1); }
  }

  lemma StepKeepsInv(u: Unseal, w: World, step: nat, a: Action)
    requires step > 0 && Inv(u, w) && Enabled(u, w, a)
    ensures Inv(u, Step(u, w, step, a))
  {
    match a
    case Start(bad) => ReadWithoutFailures(w.keychain, bad, 0);
    case Store(c, sealed, bad, _) =>
      StoredIsWritten(w.keychain, Chunks(sealed, step), bad, 0);
      if Terminated(sealed, step) { StoreThenRead(w.keychain, sealed, step); }
    case Clear(known, bad, _) =>
      if Deleted(w.keychain, Known(known, w.keychain, bad), bad, 0).1 { ClearThenRead(w.keychain, known, bad); }
    case Stop =>
  }

  lemma {:induction false} RunKeepsInv(u: Unseal, w0: World, step: nat, acts: seq<Action>, w1: World)
    requires step > 0 && Inv(u, w0) && Run(u, w0, step, acts, w1)
    ensures Inv(u, w1)
    decreases |acts|
  {
    if acts != [] {
      StepKeepsInv(u, w0, step, acts[0]);
      RunKeepsInv(u, Step(u, w0, step, acts[0]), step, acts[1..], w1);
    }
  }

  ghost predicate Fresh(w: World) {
    w.storage == None && (!w.present ==> w.file == None)
  }

  lemma {:induction false} ReadableIff(k: Items, bad: set<nat>, i: nat)
    ensures ReadFrom(k, bad, i).Ok? <==> forall j | i <= j < Opened(k, bad, i) :: j !in bad
    ensures Opened(k, bad, i) > i
    decreases k.Keys
  {
    if i !in bad && i in k && Continued(k[i]) {
      ReadableIff(k - {i}, bad, i + 1);
    }
  }

  /** The keyring is chosen if and only if the user does not ask for the file, there is no file, and every
      entry that reading opens can be accessed; then the file can still replace it. The value in memory is
      the one of the backend chosen. */
  lemma KeyringChosenIff(u: Unseal, w: World, bad: set<nat>)
    ensures Started(u, w, bad).backend == InKeyring <==>
              !w.useFile && !w.present && forall j | 0 <= j < Opened(w.keychain, bad, 0) :: j !in bad
    ensures Started(u, w, bad).fallback <==> Started(u, w, bad).backend == InKeyring
    ensures Started(u, w, bad).backend == InKeyring ==>
              var read := ReadFrom(w.keychain, {}, 0); read.Ok? && Started(u, w, bad).last == Unsealed(u, read.value)
    ensures Started(u, w, bad).backend == InFile ==> Started(u, w, bad).last == Unsealed(u, FileValue(w.file))
  {
    ReadableIff(w.keychain, bad, 0);
    ReadWithoutFailures(w.keychain, bad, 0);
  }

  /** Over any run of stores, clears, keyring and file failures and restarts: whenever the storage
      accepted the latest value, a restarted process has the very value this process has in memory,
      provided the keyring is readable if there is no file to read instead. */
  lemma CredentialsSurviveRestart(u: Unseal, w0: World, step: nat, acts: seq<Action>, w: World, bad: set<nat>)
    requires step > 0 && Fresh(w0) && Run(u, w0, step, acts, w) && w.storage.Some? && w.durable
    requires !w.useFile && !w.present ==> ReadFrom(w.keychain, bad, 0).Ok?
    ensures Step(u, Step(u, w, step, Stop), step, Start(bad)).storage.value.last == w.storage.value.last
  {
    RunKeepsInv(u, w0, step, acts, w);
    ReadWithoutFailures(w.keychain, bad, 0);
  }

  /** One backend takes a stored text completely: the file, or the keyring with a proper end, or,
      after the keyring failed, the file that replaces it. */
  predicate Accepted(w: World, s: Storage, sealed: string, step: nat, bad: set<nat>, r: WriteResult)
    requires step > 0
  {
    if s.backend == InKeyring && Stored(w.keychain, Chunks(sealed, step), bad, 0).1 then Terminated(sealed, step)
    else (s.backend == InFile || s.fallback) && r == Written
  }

  /** After any such run: a credential that one backend accepts is what the next process finds. */
  lemma AcceptedStoreSurvives(u: Unseal, w0: World, step: nat, acts: seq<Action>, w: World, c: Credential,
                              sealed: string, bad: set<nat>, r: WriteResult, later: set<nat>)
    requires step > 0 && Fresh(w0) && Run(u, w0, step, acts, w) && Enabled(u, w, Store(c, sealed, bad, r))
    requires Accepted(w, w.storage.value, sealed, step, bad, r)
    ensures var w1 := Step(u, w, step, Store(c, sealed, bad, r));
            (!w1.useFile && !w1.present ==> ReadFrom(w1.keychain, later, 0).Ok?) ==>
              Step(u, Step(u, w1, step, Stop), step, Start(later)).storage.value.last == Some(c)
  {
    RunKeepsInv(u, w0, step, acts, w);
    var w1 := Step(u, w, step, Store(c, sealed, bad, r));
    StepKeepsInv(u, w, step, Store(c, sealed, bad, r));
    ReadWithoutFailures(w1.keychain, later, 0);
  }

  /** After any such run: once a clear has succeeded, the next process finds no credential. */
  lemma ClearSurvives(u: Unseal, w0: World, step: nat, acts: seq<Action>, w: World, known: nat, bad: set<nat>,
                      r: WriteResult, later: set<nat>)
    requires step > 0 && Fresh(w0) && Run(u, w0, step, acts, w) && Enabled(u, w, Clear(known, bad, r))
    requires if w.storage.value.backend == InFile then r == Written
             else Deleted(w.keychain, Known(known, w.keychain, bad), bad, 0).1
    ensures var w1 := Step(u, w, step, Clear(known, bad, r));
            (!w1.useFile && !w1.present ==> ReadFrom(w1.keychain, later, 0).Ok?) ==>
              Step(u, Step(u, w1, step, Stop), step, Start(later)).storage.value.last == None
  {
    RunKeepsInv(u, w0, step, acts, w);
    var w1 := Step(u, w, step, Clear(known, bad, r));
    StepKeepsInv(u, w, step, Clear(known, bad, r));
    ReadWithoutFailures(w1.keychain, later, 0);
  }

  /** A stored credential is forgotten by the next process exactly when its sealed text is not properly
      terminated, if the keyring took it and no older value continues behind it. */
  lemma StoredInKeyringSurvivesIff(u: Unseal, w: World, step: nat, c: Credential, sealed: string, r: WriteResult)
    requires step > 0 && Inv(u, w) && w.storage.Some? && w.storage.value.backend == InKeyring && u(sealed) == Some(c)
    requires |Chunks(sealed, step)| !in w.keychain
    ensures var w' := Step(u, w, step, Store(c, sealed, {}, r));
            Started(u, w', {}).last == (if Terminated(sealed, step) then Some(c) else None)
  {
    StoredIsWritten(w.keychain, Chunks(sealed, step), {}, 0);
    StoreThenReadIff(w.keychain, sealed, step);
  }

  // ---------------------------------------------------------------------------------------------
  // The `Auth` object
  // ---------------------------------------------------------------------------------------------

  class Auth {
    const useFile: bool
    const keyring: KeyringStorage
    const file: PersistedState<Option<string>>
    var storage: Option<Storage>

    constructor (useFile: bool, keychain: Keychain, limit: nat, content: Option<Option<string>>, present: bool)
      requires limit > |CONTINUE_MARKER| && (!present ==> content == None)
      ensures fresh(keyring) && fresh(file) && storage == None && keyring.keychain == keychain && keyring.limit == limit
      ensures this.useFile == useFile && file.file == content && file.present == present && file.default == None
    {
      this.useFile := useFile;
      keyring := new KeyringStorage(keychain, limit);
      file := new PersistedState(None, content, present);
      storage := None;
    }

    function View(): World
      reads this, keyring, keyring.keychain, file
    {
      World(useFile, keyring.keychain.items, file.file, file.present, storage, true)
    }

    /** The file's cached value is only looked at before the first save. */
    ghost predicate Valid()
      reads this, keyring, keyring.keychain, file
    {
      && keyring.limit > |CONTINUE_MARKER|
      && file.default == None
      && (storage == None ==> file.state == None)
    }

    method WithStorage(u: Unseal, bad: set<nat>)
      requires Valid()
      modifies this`storage, keyring`entries, file`state
      ensures Valid() && storage == if old(storage).Some? then old(storage) else Some(Started(u, old(View()), bad))
    {
      if storage.Some? {
        return;
      }
      if !useFile && !file.present {
        var r := keyring.Read(bad);
        if r.Ok? {
          storage := Some(Storage(InKeyring, true, if r.value.Some? then u(r.value.value) else None));
          return;
        }
      }
      var sealed := file.LoadOrGet();
      storage := Some(Storage(InFile, false, if sealed.Some? then u(sealed.value) else None));
    }

    /** The value in memory stays what it was. */
    method GetCurrentCredential(u: Unseal, bad: set<nat>) returns (value: Option<Credential>)
      requires Valid()
      modifies this`storage, keyring`entries, file`state
      ensures Valid() && storage == if old(storage).Some? then old(storage) else Some(Started(u, old(View()), bad))
      ensures value == storage.value.last
    {
      WithStorage(u, bad);
      value := storage.value.last;
    }

    /** The closure of `store_credentials`, run on the storage in use. */
    method StoreWith(u: Unseal, c: Credential, sealed: string, bad: set<nat>, w: WriteResult)
      requires Valid() && storage.Some? && u(sealed) == Some(c)
      modifies this`storage, keyring`entries, keyring.keychain, file
      ensures Valid() && storage.Some? && storage.value.last == Some(c)
      ensures View().(durable := true)
              == StoreOf(old(View()), old(storage).value, keyring.Step(), c, sealed, bad, w).(durable := true)
    {
      var s := storage.value;
      if s.backend == InFile {
        var _ := file.Save(Some(sealed), w);
      } else {
        var ok := keyring.Store(sealed, bad);
        if !ok && s.fallback {
          s := Storage(InFile, false, s.last);
          var _ := file.Save(Some(sealed), w);
        }
      }
      storage := Some(s.(last := Some(c)));
    }

    method StoreCredentials(u: Unseal, c: Credential, sealed: string, start: set<nat>, bad: set<nat>, w: WriteResult)
      requires Valid() && u(sealed) == Some(c)
      modifies this`storage, keyring`entries, keyring.keychain, file
      ensures Valid() && storage.Some? && storage.value.last == Some(c)
      ensures var s := if old(storage).Some? then old(storage).value else Started(u, old(View()), start);
              View().(durable := true) == StoreOf(old(View()), s, keyring.Step(), c, sealed, bad, w).(durable := true)
    {
      WithStorage(u, start);
      StoreWith(u, c, sealed, bad, w);
    }

    method ClearCredentials(u: Unseal, start: set<nat>, bad: set<nat>, w: WriteResult) returns (ok: bool)
      requires Valid()
      modifies this`storage, keyring`entries, keyring.keychain, file
      ensures Valid() && storage.Some?
      ensures ok ==> storage.value.last == None
      ensures var s := if old(storage).Some? then old(storage).value else Started(u, old(View()), start);
              exists known :: View().(durable := ok) == ClearOf(old(View()), s, known, bad, w).(storage := storage)
                              && (!ok ==> storage.value == s)
    {
      WithStorage(u, start);
      ghost var known := keyring.entries;
      if storage.value.backend == InFile {
        ok := file.Save(None, w);
      } else {
        ok := keyring.Clear(bad);
      }
      if ok {
        storage := Some(storage.value.(last := None));
      }
      ghost var s := if old(storage).Some? then old(storage).value else Started(u, old(View()), start);
      assert View().(durable := ok) == ClearOf(old(View()), s, known, bad, w).(storage := storage);
    }
  }
}
