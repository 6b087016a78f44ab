/** Endpoint state of `scripts/mock-policy-server/server.ts`: validated updates, the state file, and
    what a restarted server restores from it. */
module PolicyServer {
  import opened Common

  // ---------------------------------------------------------------------------------------------
  // Payloads, definitions and state
  // ---------------------------------------------------------------------------------------------

  datatype Json =
    | Null
    | Bool(b: bool)
    | Num(n: real)
    | Str(s: string)
    | Arr(items: seq<Json>)
    | Obj(fields: map<string, Json>)

  datatype Mode = Plain | MalformedJson | Disconnect | Timeout

  datatype Preset = Preset(id: string, status: Option<int>, body: Json)

  datatype EndpointDef = EndpointDef(id: string, mockedByDefault: bool, presets: seq<Preset>)

  datatype Entry = Entry(status: int, body: Json, mode: Mode, active: bool)

  type State = map<string, Entry>

  datatype Update = Update(
    endpoint: string,
    preset: Option<string>,
    status: Option<int>,
    body: Option<Json>,
    mode: Option<Mode>,
    active: Option<bool>)

  /** Why a payload is refused; `i` is the position of the offending update. */
  datatype Refusal =
    | NotAnObject
    | UnknownTopLevelField
    | NoEndpoints
    | NotARecord(i: nat)
    | UnknownField(i: nat)
    | EndpointNotString(i: nat)
    | Repeated(i: nat)
    | UnknownEndpoint(i: nat)
    | NothingToUpdate(i: nat)
    | PresetNotString(i: nat)
    | UnknownPreset(i: nat)
    | BadStatus(i: nat)
    | BadActive(i: nat)
    | BadMode(i: nat)

  const FIELDS := {"endpoint", "preset", "status", "body", "mode", "active"}

  function ModeOf(j: Json): Option<Mode> {
    if j == Str("json") then Some(Plain) else if j == Str("malformed-json") then Some(MalformedJson)
    else if j == Str("disconnect") then Some(Disconnect) else if j == Str("timeout") then Some(Timeout)
    else None
  }

  function ModeName(m: Mode): string {
    match m
    case Plain => "json"
    case MalformedJson => "malformed-json"
    case Disconnect => "disconnect"
    case Timeout => "timeout"
  }

  predicate IsStatus(j: Json) {
    j.Num? && j.n == j.n.Floor as real && 200 <= j.n.Floor <= 599
  }

  function FindDef(defs: seq<EndpointDef>, id: string): Option<EndpointDef> {
    if defs == [] then None else if defs[0].id == id then Some(defs[0]) else FindDef(defs[1..], id)
  }

  function FindPreset(presets: seq<Preset>, id: string): Option<Preset> {
    if presets == [] then None else if presets[0].id == id then Some(presets[0]) else FindPreset(presets[1..], id)
  }

  // ---------------------------------------------------------------------------------------------
  // Validation
  // ---------------------------------------------------------------------------------------------

  /** The updates that a payload asks for. */
  function RawUpdates(payload: Json): Result<seq<Json>, Refusal> {
    if !payload.Obj? then Err(NotAnObject)
    else if "endpoints" !in payload.fields then Ok([payload])
    else if payload.fields.Keys != {"endpoints"} then Err(UnknownTopLevelField)
    else if !payload.fields["endpoints"].Arr? || payload.fields["endpoints"].items == [] then Err(NoEndpoints)
    else Ok(payload.fields["endpoints"].items)
  }

  /** What is wrong with the values of an update's fields, in the order in which they are checked. */
  function FieldRefusal(def: EndpointDef, f: map<string, Json>, i: nat): Option<Refusal> {
    if f.Keys !! {"preset", "status", "body", "mode", "active"} then Some(NothingToUpdate(i))
    else if "preset" in f && !f["preset"].Str? then Some(PresetNotString(i))
    else if "preset" in f && FindPreset(def.presets, f["preset"].s).None? then Some(UnknownPreset(i))
    else if "status" in f && !IsStatus(f["status"]) then Some(BadStatus(i))
    else if "active" in f && !f["active"].Bool? then Some(BadActive(i))
    else if "mode" in f && ModeOf(f["mode"]).None? then Some(BadMode(i))
    else None
  }

  function Refused(defs: seq<EndpointDef>, seen: set<string>, raw: Json, i: nat): Option<Refusal> {
    if !raw.Obj? then Some(NotARecord(i))
    else if !(raw.fields.Keys <= FIELDS) then Some(UnknownField(i))
    else if "endpoint" !in raw.fields || !raw.fields["endpoint"].Str? then Some(EndpointNotString(i))
    else if raw.fields["endpoint"].s in seen then Some(Repeated(i))
    else
      var def := FindDef(defs, raw.fields["endpoint"].s);
      if def.None? then Some(UnknownEndpoint(i)) else FieldRefusal(def.value, raw.fields, i)
  }

  function Field(f: map<string, Json>, key: string): Option<Json> {
    if key in f then Some(f[key]) else None
  }

  /** The update that an accepted record stands for. */
  function ToUpdate(f: map<string, Json>): Update {
    var status := Field(f, "status");
    var preset := Field(f, "preset");
    var active := Field(f, "active");
    var mode := Field(f, "mode");
    var endpoint := Field(f, "endpoint");
    Update(
      if endpoint.Some? && endpoint.value.Str? then endpoint.value.s else "",
      if preset.Some? && preset.value.Str? then Some(preset.value.s) else None,
      if status.Some? && status.value.Num? then Some(status.value.n.Floor) else None,
      Field(f, "body"),
      if mode.Some? then ModeOf(mode.value) else None,
      if active.Some? && active.value.Bool? then Some(active.value.b) else None)
  }

  function Endpoints(us: seq<Update>): set<string> {
    set u <- us :: u.endpoint
  }

  function Validate(defs: seq<EndpointDef>, raws: seq<Json>): Result<seq<Update>, Refusal> {
    if raws == [] then Ok([])
    else
      var n := |raws| - 1;
      var before := Validate(defs, raws[..n]);
      if before.Err? then before
      else
        var refusal := Refused(defs, Endpoints(before.value), raws[n], n);
        if refusal.Some? then Err(refusal.value) else Ok(before.value + [ToUpdate(raws[n].fields)])
  }

  // ---------------------------------------------------------------------------------------------
  // Applying updates
  // ---------------------------------------------------------------------------------------------

  /** A preset resets status, body and activity first; explicit fields override it. */
  function Updated(defs: seq<EndpointDef>, e: Entry, u: Update): Entry {
    var def := FindDef(defs, u.endpoint);
    var preset := if def.Some? && u.preset.Some? then FindPreset(def.value.presets, u.preset.value) else None;
    var p := if preset.Some? then e.(status := if preset.value.status.Some? then preset.value.status.value else 200,
                                     body := preset.value.body, active := true)
             else e;
    Entry(
      if u.status.Some? then u.status.value else p.status,
      if u.body.Some? then u.body.value else p.body,
      if u.mode.Some? then u.mode.value else p.mode,
      if u.active.Some? then u.active.value else p.active)
  }

  function ApplyOne(defs: seq<EndpointDef>, s: State, u: Update): State {
    if u.endpoint in s then s[u.endpoint := Updated(defs, s[u.endpoint], u)] else s
  }

  function ApplyAll(defs: seq<EndpointDef>, s: State, us: seq<Update>): State {
    if us == [] then s else ApplyOne(defs, ApplyAll(defs, s, us[..|us|-1]), us[|us|-1])
  }

  /** `applyEndpointUpdates` without persisting. */
  function Applied(defs: seq<EndpointDef>, s: State, payload: Json): Result<State, Refusal> {
    var raws := RawUpdates(payload);
    if raws.Err? then Err(raws.error)
    else
      var us := Validate(defs, raws.value);
      if us.Err? then Err(us.error) else Ok(ApplyAll(defs, s, us.value))
  }

  // ---------------------------------------------------------------------------------------------
  // Defaults, the state file, and restoring from it
  // ---------------------------------------------------------------------------------------------

  function DefaultEntry(def: EndpointDef): Entry {
    if def.presets == [] then Entry(200, Obj(map[]), Plain, def.mockedByDefault)
    else Entry(if def.presets[0].status.Some? then def.presets[0].status.value else 200,
               def.presets[0].body, Plain, def.mockedByDefault)
  }

  function Defaults(defs: seq<EndpointDef>): State {
    if defs == [] then map[] else Defaults(defs[..|defs|-1])[defs[|defs|-1].id := DefaultEntry(defs[|defs|-1])]
  }

  function EntryFields(id: string, e: Entry): map<string, Json> {
    map["endpoint" := Str(id), "status" := Num(e.status as real), "body" := e.body,
        "mode" := Str(ModeName(e.mode)), "active" := Bool(e.active)]
  }

  function Records(defs: seq<EndpointDef>, s: State): seq<Json>
    requires forall d <- defs :: d.id in s
  {
    if defs == [] then []
    else Records(defs[..|defs|-1], s) + [Obj(EntryFields(defs[|defs|-1].id, s[defs[|defs|-1].id]))]
  }

  /** What `persistEndpointState` writes. */
  function Saved(defs: seq<EndpointDef>, s: State): Json
    requires forall d <- defs :: d.id in s
  {
    Obj(map["endpoints" := Arr(Records(defs, s))])
  }

  /** The state of a freshly started server; `file` is the state file if it exists and parses. */
  function Restored(defs: seq<EndpointDef>, file: Option<Json>): State {
    if file.None? then Defaults(defs)
    else
      var r := Applied(defs, Defaults(defs), file.value);
      if r.Ok? then r.value else Defaults(defs)
  }

  // ---------------------------------------------------------------------------------------------
  // Restoring rebuilds the state
  // ---------------------------------------------------------------------------------------------

  predicate GoodStatus(n: int) {
    200 <= n <= 599
  }

  /** There are endpoints, their ids differ, and presets use valid statuses. */
  ghost predicate GoodDefs(defs: seq<EndpointDef>) {
    && defs != []
    && (forall i, j | 0 <= i < j < |defs| :: defs[i].id != defs[j].id)
    && (forall d <- defs :: forall p <- d.presets :: p.status.Some? ==> GoodStatus(p.status.value))
  }

  /** Every endpoint has an entry, nothing else has, and all statuses are valid. */
  ghost predicate GoodState(defs: seq<EndpointDef>, s: State) {
    && (forall d <- defs :: d.id in s)
    && (forall id <- s :: FindDef(defs, id).Some? && GoodStatus(s[id].status))
  }

  lemma {:induction false} FindDefIn(defs: seq<EndpointDef>, id: string)
    ensures FindDef(defs, id).Some? ==> FindDef(defs, id).value in defs && FindDef(defs, id).value.id == id
    ensures (exists d <- defs :: d.id == id) ==> FindDef(defs, id).Some?
  {
    if defs != [] {
      FindDefIn(defs[1..], id);
      assert forall d <- defs :: d == defs[0] || d in defs[1..];
    }
  }

  lemma {:induction false} FindPresetIn(presets: seq<Preset>, id: string)
    ensures FindPreset(presets, id).Some? ==> FindPreset(presets, id).value in presets
  {
    if presets != [] { FindPresetIn(presets[1..], id); }
  }

  lemma {:induction false} DefaultsHave(defs: seq<EndpointDef>, all: seq<EndpointDef>)
    requires forall d <- defs :: d in all
    requires forall d <- all :: forall p <- d.presets :: p.status.Some? ==> GoodStatus(p.status.value)
    ensures forall d <- defs :: d.id in Defaults(defs)
    ensures forall id <- Defaults(defs) :: FindDef(all, id).Some? && GoodStatus(Defaults(defs)[id].status)
  {
    if defs != [] {
      var n := |defs| - 1;
      DefaultsHave(defs[..n], all);
      FindDefIn(all, defs[n].id);
      assert defs[n] in all;
      assert forall d <- defs :: d in defs[..n] || d == defs[n];
      assert defs[n].presets != [] ==> defs[n].presets[0] in defs[n].presets;
    }
  }

  lemma DefaultsGood(defs: seq<EndpointDef>)
    requires GoodDefs(defs)
    ensures GoodState(defs, Defaults(defs))
  {
    DefaultsHave(defs, defs);
  }

  lemma ModeNamed(m: Mode)
    ensures ModeOf(Str(ModeName(m))) == Some(m)
  {}

  /** An entry's record is accepted and stands for an update that sets every field. */
  lemma RecordAccepted(defs: seq<EndpointDef>, seen: set<string>, id: string, e: Entry, i: nat)
    requires id !in seen && FindDef(defs, id).Some? && GoodStatus(e.status)
    ensures Refused(defs, seen, Obj(EntryFields(id, e)), i) == None
    ensures ToUpdate(EntryFields(id, e)) == Update(id, None, Some(e.status), Some(e.body), Some(e.mode), Some(e.active))
  {
    ModeNamed(e.mode);
    assert (e.status as real).Floor == e.status;
    assert EntryFields(id, e).Keys == {"endpoint", "status", "body", "mode", "active"};
  }

  /** The update that sets every field of an endpoint to what `s` has. */
  function Overwrite(s: State, id: string): Update
    requires id in s
  {
    Update(id, None, Some(s[id].status), Some(s[id].body), Some(s[id].mode), Some(s[id].active))
  }

  function Overwrites(defs: seq<EndpointDef>, s: State): seq<Update>
    requires forall d <- defs :: d.id in s
  {
    if defs == [] then [] else Overwrites(defs[..|defs|-1], s) + [Overwrite(s, defs[|defs|-1].id)]
  }

  function Ids(ds: seq<EndpointDef>): set<string> {
    set d <- ds :: d.id
  }

  lemma ValidatePush(defs: seq<EndpointDef>, raws: seq<Json>, us: seq<Update>, f: map<string, Json>)
    requires Validate(defs, raws) == Ok(us) && Refused(defs, Endpoints(us), Obj(f), |raws|) == None
    ensures Validate(defs, raws + [Obj(f)]) == Ok(us + [ToUpdate(f)])
  {
  }

  lemma EndpointsPush(us: seq<Update>, u: Update)
    ensures Endpoints(us + [u]) == Endpoints(us) + {u.endpoint}
  {}

  lemma IdsPush(ds: seq<EndpointDef>, d: EndpointDef)
    ensures Ids(ds + [d]) == Ids(ds) + {d.id}
  {}

  /** The definitions `ds` have different ids, are known, and `s` has valid entries for them. */
  ghost predicate Covered(defs: seq<EndpointDef>, ds: seq<EndpointDef>, s: State) {
    && (forall i, j | 0 <= i < j < |ds| :: ds[i].id != ds[j].id)
    && (forall d <- ds :: d.id in s && GoodStatus(s[d.id].status) && FindDef(defs, d.id).Some?)
  }

  lemma CoveredPrefix(defs: seq<EndpointDef>, ds: seq<EndpointDef>, s: State)
    requires Covered(defs, ds, s) && ds != []
    ensures Covered(defs, ds[..|ds|-1], s) && ds == ds[..|ds|-1] + [ds[|ds|-1]]
    ensures ds[|ds|-1].id !in Ids(ds[..|ds|-1])
  {}

  lemma {:induction false} RecordsValid(defs: seq<EndpointDef>, ds: seq<EndpointDef>, s: State)
    requires Covered(defs, ds, s)
    ensures |Records(ds, s)| == |ds| && Validate(defs, Records(ds, s)) == Ok(Overwrites(ds, s))
    ensures Endpoints(Overwrites(ds, s)) == Ids(ds)
  {
    if ds != [] {
      var before, d := ds[..|ds|-1], ds[|ds|-1];
      CoveredPrefix(defs, ds, s);
      RecordsValid(defs, before, s);
      RecordAccepted(defs, Ids(before), d.id, s[d.id], |before|);
      ValidatePush(defs, Records(before, s), Overwrites(before, s), EntryFields(d.id, s[d.id]));
      EndpointsPush(Overwrites(before, s), Overwrite(s, d.id));
      IdsPush(before, d);
    }
  }

  lemma ApplyPush(defs: seq<EndpointDef>, t: State, us: seq<Update>, u: Update)
    ensures ApplyAll(defs, t, us + [u]) == ApplyOne(defs, ApplyAll(defs, t, us), u)
  {
  }

  lemma OverwriteIsEntry(defs: seq<EndpointDef>, s: State, id: string, e: Entry)
    requires id in s
    ensures Updated(defs, e, Overwrite(s, id)) == s[id]
  {}

  lemma {:induction false} OverwritesApply(defs: seq<EndpointDef>, ds: seq<EndpointDef>, s: State, t: State)
    requires forall d <- ds :: d.id in s && d.id in t
    ensures ApplyAll(defs, t, Overwrites(ds, s)).Keys == t.Keys
    ensures forall id <- t :: ApplyAll(defs, t, Overwrites(ds, s))[id] == if id in Ids(ds) then s[id] else t[id]
  {
    if ds != [] {
      var before, d := ds[..|ds|-1], ds[|ds|-1];
      OverwritesApply(defs, before, s, t);
      assert ds == before + [d];
      IdsPush(before, d);
      ApplyPush(defs, t, Overwrites(before, s), Overwrite(s, d.id));
      OverwriteIsEntry(defs, s, d.id, ApplyAll(defs, t, Overwrites(before, s))[d.id]);
    }
  }

  lemma GoodKeys(defs: seq<EndpointDef>, s: State)
    requires GoodState(defs, s)
    ensures s.Keys == Ids(defs)
  {
    forall id <- s ensures id in Ids(defs) { FindDefIn(defs, id); }
  }

  lemma GoodCovers(defs: seq<EndpointDef>, s: State)
    requires GoodDefs(defs) && GoodState(defs, s)
    ensures Covered(defs, defs, s)
  {}

  /** Round trip: restoring from what was saved gives back the saved state. */
  lemma RestoreAfterSave(defs: seq<EndpointDef>, s: State)
    requires GoodDefs(defs) && GoodState(defs, s)
    ensures Restored(defs, Some(Saved(defs, s))) == s
  {
    SavedIsOverwritten(defs, s);
    OverwrittenIsState(defs, s);
  }

  lemma SavedIsOverwritten(defs: seq<EndpointDef>, s: State)
    requires GoodDefs(defs) && GoodState(defs, s)
    ensures Restored(defs, Some(Saved(defs, s))) == ApplyAll(defs, Defaults(defs), Overwrites(defs, s))
  {
    GoodCovers(defs, s);
    RecordsValid(defs, defs, s);
    SavedApplies(defs, s);
  }

  lemma OverwrittenIsState(defs: seq<EndpointDef>, s: State)
    requires GoodDefs(defs) && GoodState(defs, s)
    ensures ApplyAll(defs, Defaults(defs), Overwrites(defs, s)) == s
  {
    DefaultsGood(defs);
    GoodKeys(defs, s);
    GoodKeys(defs, Defaults(defs));
    OverwritesApply(defs, defs, s, Defaults(defs));
  }

  lemma SavedApplies(defs: seq<EndpointDef>, s: State)
    requires (forall d <- defs :: d.id in s) && defs != []
    requires |Records(defs, s)| == |defs| && Validate(defs, Records(defs, s)) == Ok(Overwrites(defs, s))
    ensures Restored(defs, Some(Saved(defs, s))) == ApplyAll(defs, Defaults(defs), Overwrites(defs, s))
  {
    assert Saved(defs, s).fields.Keys == {"endpoints"};
  }

  // ---------------------------------------------------------------------------------------------
  // A bulk update equals its items applied one by one, in any order
  // ---------------------------------------------------------------------------------------------

  function RawUpdate(raw: Json): Update {
    ToUpdate(if raw.Obj? then raw.fields else map[])
  }

  function Ups(raws: seq<Json>): seq<Update> {
    if raws == [] then [] else Ups(raws[..|raws|-1]) + [RawUpdate(raws[|raws|-1])]
  }

  /** Accepted as a payload of its own, and safe to apply. */
  ghost predicate Acceptable(defs: seq<EndpointDef>, raw: Json) {
    && raw.Obj? && "endpoints" !in raw.fields && Refused(defs, {}, raw, 0) == None
    && (RawUpdate(raw).status.Some? ==> GoodStatus(RawUpdate(raw).status.value))
  }

  ghost predicate DistinctTargets(raws: seq<Json>) {
    forall i, j | 0 <= i < j < |raws| :: RawUpdate(raws[i]).endpoint != RawUpdate(raws[j]).endpoint
  }

  lemma UpsPush(raws: seq<Json>, raw: Json)
    ensures Ups(raws + [raw]) == Ups(raws) + [RawUpdate(raw)]
  {
  }

  lemma NotRefused(defs: seq<EndpointDef>, seen: set<string>, raw: Json, i: nat)
    requires Refused(defs, seen, raw, i) == None
    ensures Acceptable(defs, raw) && RawUpdate(raw).endpoint !in seen
  {
  }

  lemma TargetsPush(raws: seq<Json>, raw: Json)
    ensures (set r <- raws + [raw] :: RawUpdate(r).endpoint) ==
            (set r <- raws :: RawUpdate(r).endpoint) + {RawUpdate(raw).endpoint}
  {}

  lemma DistinctPush(raws: seq<Json>, raw: Json)
    requires DistinctTargets(raws) && RawUpdate(raw).endpoint !in set r <- raws :: RawUpdate(r).endpoint
    ensures DistinctTargets(raws + [raw])
  {
    forall i | 0 <= i < |raws| ensures RawUpdate(raws[i]).endpoint != RawUpdate(raw).endpoint {
      assert raws[i] in raws;
    }
  }

  lemma {:induction false} ValidatedRaws(defs: seq<EndpointDef>, raws: seq<Json>)
    requires Validate(defs, raws).Ok?
    ensures Validate(defs, raws).value == Ups(raws) && DistinctTargets(raws)
    ensures forall raw <- raws :: Acceptable(defs, raw)
    ensures Endpoints(Ups(raws)) == set raw <- raws :: RawUpdate(raw).endpoint
  {
    if raws != [] {
      var before, raw := raws[..|raws|-1], raws[|raws|-1];
      ValidatedRaws(defs, before);
      assert raws == before + [raw];
      NotRefused(defs, Endpoints(Ups(before)), raw, |before|);
      UpsPush(before, raw);
      EndpointsPush(Ups(before), RawUpdate(raw));
      TargetsPush(before, raw);
      DistinctPush(before, raw);
    }
  }

  /** What updates of different endpoints do to each entry. */
  ghost predicate Pointwise(defs: seq<EndpointDef>, s: State, raws: seq<Json>, r: State) {
    && r.Keys == s.Keys
    && (forall raw <- raws :: RawUpdate(raw).endpoint in s ==>
          r[RawUpdate(raw).endpoint] == Updated(defs, s[RawUpdate(raw).endpoint], RawUpdate(raw)))
    && (forall id <- s :: (forall raw <- raws :: RawUpdate(raw).endpoint != id) ==> r[id] == s[id])
  }

  lemma PointwiseStep(defs: seq<EndpointDef>, s: State, before: seq<Json>, last: Json, t: State)
    requires Pointwise(defs, s, before, t)
    requires forall raw <- before :: RawUpdate(raw).endpoint != RawUpdate(last).endpoint
    ensures Pointwise(defs, s, before + [last], ApplyOne(defs, t, RawUpdate(last)))
  {
    var r, u := ApplyOne(defs, t, RawUpdate(last)), RawUpdate(last);
    if u.endpoint in s { assert t[u.endpoint] == s[u.endpoint]; }
    forall raw <- before + [last] | RawUpdate(raw).endpoint in s
      ensures r[RawUpdate(raw).endpoint] == Updated(defs, s[RawUpdate(raw).endpoint], RawUpdate(raw))
    {
      assert raw in before || raw == last;
    }
    forall id <- s | forall raw <- before + [last] :: RawUpdate(raw).endpoint != id ensures r[id] == s[id] {
      assert last in before + [last];
      assert forall raw <- before :: raw in before + [last];
    }
  }

  lemma EarlierTargets(raws: seq<Json>)
    requires DistinctTargets(raws) && raws != []
    ensures raws == raws[..|raws|-1] + [raws[|raws|-1]] && DistinctTargets(raws[..|raws|-1])
    ensures forall raw <- raws[..|raws|-1] :: RawUpdate(raw).endpoint != RawUpdate(raws[|raws|-1]).endpoint
  {
  }

  lemma {:induction false} ApplyPointwise(defs: seq<EndpointDef>, s: State, raws: seq<Json>)
    requires DistinctTargets(raws)
    ensures Pointwise(defs, s, raws, ApplyAll(defs, s, Ups(raws)))
  {
    if raws != [] {
      var before, last := raws[..|raws|-1], raws[|raws|-1];
      EarlierTargets(raws);
      ApplyPointwise(defs, s, before);
      UpsPush(before, last);
      ApplyPush(defs, s, Ups(before), RawUpdate(last));
      PointwiseStep(defs, s, before, last, ApplyAll(defs, s, Ups(before)));
    }
  }

  lemma {:induction false} CountOnce(raws: seq<Json>, raw: Json)
    requires DistinctTargets(raws)
    ensures multiset(raws)[raw] <= 1
  {
    if raws != [] {
      EarlierTargets(raws);
      CountOnce(raws[..|raws|-1], raw);
      assert raws[|raws|-1] !in raws[..|raws|-1];
    }
  }

  lemma CountTwice(raws: seq<Json>, i: nat, j: nat)
    requires i < j < |raws| && raws[i] == raws[j]
    ensures multiset(raws)[raws[i]] >= 2
  {
    assert raws == raws[..j] + raws[j..];
    assert raws[..j][i] in multiset(raws[..j]) && raws[j..][0] in multiset(raws[j..]);
  }

  lemma PermutedTargets(raws: seq<Json>, perm: seq<Json>)
    requires DistinctTargets(raws) && multiset(perm) == multiset(raws)
    ensures DistinctTargets(perm) && (forall raw :: raw in perm <==> raw in raws)
  {
    forall raw ensures raw in perm <==> raw in raws {
      assert raw in perm <==> raw in multiset(perm);
      assert raw in raws <==> raw in multiset(raws);
    }
    forall i, j | 0 <= i < j < |perm| ensures RawUpdate(perm[i]).endpoint != RawUpdate(perm[j]).endpoint {
      assert perm[i] in raws && perm[j] in raws;
      var i', j' :| 0 <= i' < |raws| && 0 <= j' < |raws| && raws[i'] == perm[i] && raws[j'] == perm[j];
      if i' == j' {
        CountTwice(perm, i, j);
        CountOnce(raws, perm[i]);
      }
    }
  }

  lemma PointwiseUnique(defs: seq<EndpointDef>, s: State, raws: seq<Json>, r: State, perm: seq<Json>, p: State)
    requires Pointwise(defs, s, raws, r) && Pointwise(defs, s, perm, p) && forall raw :: raw in perm <==> raw in raws
    ensures r == p
  {
  }

  lemma PermutedApply(defs: seq<EndpointDef>, s: State, raws: seq<Json>, perm: seq<Json>)
    requires DistinctTargets(raws) && multiset(perm) == multiset(raws)
    ensures ApplyAll(defs, s, Ups(perm)) == ApplyAll(defs, s, Ups(raws))
  {
    PermutedTargets(raws, perm);
    ApplyPointwise(defs, s, raws);
    ApplyPointwise(defs, s, perm);
    PointwiseUnique(defs, s, raws, ApplyAll(defs, s, Ups(raws)), perm, ApplyAll(defs, s, Ups(perm)));
  }

  /** The items sent as payloads of their own, one after another; `None` if one is refused. */
  function OneByOne(defs: seq<EndpointDef>, s: State, raws: seq<Json>): Option<State> {
    if raws == [] then Some(s)
    else
      var before := OneByOne(defs, s, raws[..|raws|-1]);
      if before.None? then None
      else
        var r := Applied(defs, before.value, raws[|raws|-1]);
        if r.Ok? then Some(r.value) else None
  }

  lemma SingleApplied(defs: seq<EndpointDef>, s: State, raw: Json)
    requires Acceptable(defs, raw)
    ensures Applied(defs, s, raw) == Ok(ApplyOne(defs, s, RawUpdate(raw)))
  {
    assert [raw][..0] == [];
    assert Validate(defs, [raw]) == Ok([] + [ToUpdate(raw.fields)]);
    ApplyPush(defs, s, [], RawUpdate(raw));
    assert [] + [RawUpdate(raw)] == [RawUpdate(raw)];
  }

  lemma {:induction false} SinglesApply(defs: seq<EndpointDef>, s: State, raws: seq<Json>)
    requires forall raw <- raws :: Acceptable(defs, raw)
    ensures OneByOne(defs, s, raws) == Some(ApplyAll(defs, s, Ups(raws)))
  {
    if raws != [] {
      var before, last := raws[..|raws|-1], raws[|raws|-1];
      assert raws == before + [last];
      SinglesApply(defs, s, before);
      SingleApplied(defs, ApplyAll(defs, s, Ups(before)), last);
      UpsPush(before, last);
      ApplyPush(defs, s, Ups(before), RawUpdate(last));
    }
  }

  /** An accepted bulk update has the effect of its items sent singly, in any order: all of them are
      accepted too, and the state is the same. */
  lemma BulkEqualsSingles(defs: seq<EndpointDef>, s: State, raws: seq<Json>, perm: seq<Json>)
    requires multiset(perm) == multiset(raws)
    requires Applied(defs, s, Obj(map["endpoints" := Arr(raws)])).Ok?
    ensures OneByOne(defs, s, perm) == Some(Applied(defs, s, Obj(map["endpoints" := Arr(raws)])).value)
  {
    BulkIsApply(defs, s, raws);
    ValidatedRaws(defs, raws);
    PermutedTargets(raws, perm);
    SinglesApply(defs, s, perm);
    PermutedApply(defs, s, raws, perm);
  }

  lemma BulkIsApply(defs: seq<EndpointDef>, s: State, raws: seq<Json>)
    requires Applied(defs, s, Obj(map["endpoints" := Arr(raws)])).Ok?
    ensures Validate(defs, raws).Ok? && Applied(defs, s, Obj(map["endpoints" := Arr(raws)])).value ==
      ApplyAll(defs, s, Validate(defs, raws).value)
  {}

  // ---------------------------------------------------------------------------------------------
  // Any run of updates, resets, failing writes, crashes and restarts
  // ---------------------------------------------------------------------------------------------

  /** How persisting goes: the new file takes effect in one rename. */
  datatype Io = Fine | Fails | CrashBeforeRename | CrashAfterRename

  /** `memory` is the state of the running server, if one is running. */
  datatype World = World(file: Option<Json>, memory: Option<State>)

  datatype Action = Post(payload: Json, io: Io) | Reset(io: Io) | Restart

  lemma {:induction false} ApplyKeys(defs: seq<EndpointDef>, s: State, us: seq<Update>)
    ensures ApplyAll(defs, s, us).Keys == s.Keys
  {
    if us != [] { ApplyKeys(defs, s, us[..|us|-1]); }
  }

  /** Persists first; memory changes only when that has succeeded. */
  function Commit(defs: seq<EndpointDef>, w: World, s: State, io: Io): World
    requires forall d <- defs :: d.id in s
  {
    match io
    case Fine => World(Some(Saved(defs, s)), Some(s))
    case Fails => w
    case CrashBeforeRename => w.(memory := None)
    case CrashAfterRename => World(Some(Saved(defs, s)), None)
  }

  predicate Enabled(defs: seq<EndpointDef>, w: World, a: Action) {
    !a.Restart? ==> w.memory.Some? && forall d <- defs :: d.id in w.memory.value
  }

  function Step(defs: seq<EndpointDef>, w: World, a: Action): World
    requires Enabled(defs, w, a)
  {
    match a
    case Post(payload, io) =>
      var r := Applied(defs, w.memory.value, payload);
      if r.Err? then w
      else
        AppliedKeys(defs, w.memory.value, payload);
        Commit(defs, w, r.value, io)
    case Reset(io) =>
      DefaultKeys(defs);
      Commit(defs, w, Defaults(defs), io)
    case Restart => w.(memory := Some(Restored(defs, w.file)))
  }

  lemma AppliedKeys(defs: seq<EndpointDef>, s: State, payload: Json)
    ensures Applied(defs, s, payload).Ok? ==> Applied(defs, s, payload).value.Keys == s.Keys
  {
    var raws := RawUpdates(payload);
    if raws.Ok? && Validate(defs, raws.value).Ok? { ApplyKeys(defs, s, Validate(defs, raws.value).value); }
  }

  lemma {:induction false} DefaultKeys(defs: seq<EndpointDef>)
    ensures forall d <- defs :: d.id in Defaults(defs)
  {
    if defs != [] {
      DefaultKeys(defs[..|defs|-1]);
      assert forall d <- defs :: d in defs[..|defs|-1] || d == defs[|defs|-1];
    }
  }

  ghost predicate Run(defs: seq<EndpointDef>, w0: World, acts: seq<Action>, w1: World)
    decreases |acts|
  {
    if acts == [] then w0 == w1
    else Enabled(defs, w0, acts[0]) && Run(defs, Step(defs, w0, acts[0]), acts[1..], w1)
  }

  lemma UpdatedGood(defs: seq<EndpointDef>, e: Entry, u: Update)
    requires GoodDefs(defs) && GoodStatus(e.status) && (u.status.Some? ==> GoodStatus(u.status.value))
    ensures GoodStatus(Updated(defs, e, u).status)
  {
    FindDefIn(defs, u.endpoint);
    var def := FindDef(defs, u.endpoint);
    if def.Some? && u.preset.Some? { FindPresetIn(def.value.presets, u.preset.value); }
  }

  lemma ApplyOneGood(defs: seq<EndpointDef>, s: State, u: Update)
    requires GoodDefs(defs) && GoodState(defs, s) && (u.status.Some? ==> GoodStatus(u.status.value))
    ensures GoodState(defs, ApplyOne(defs, s, u))
  {
    if u.endpoint in s { UpdatedGood(defs, s[u.endpoint], u); }
  }

  lemma {:induction false} ApplyGood(defs: seq<EndpointDef>, s: State, raws: seq<Json>)
    requires GoodDefs(defs) && GoodState(defs, s) && forall raw <- raws :: Acceptable(defs, raw)
    ensures GoodState(defs, ApplyAll(defs, s, Ups(raws)))
  {
    if raws != [] {
      var before, last := raws[..|raws|-1], raws[|raws|-1];
      assert raws == before + [last];
      ApplyGood(defs, s, before);
      UpsPush(before, last);
      ApplyPush(defs, s, Ups(before), RawUpdate(last));
      assert Acceptable(defs, last);
      ApplyOneGood(defs, ApplyAll(defs, s, Ups(before)), RawUpdate(last));
    }
  }

  lemma AppliedGood(defs: seq<EndpointDef>, s: State, payload: Json)
    requires GoodDefs(defs) && GoodState(defs, s) && Applied(defs, s, payload).Ok?
    ensures GoodState(defs, Applied(defs, s, payload).value)
  {
    var raws := RawUpdates(payload).value;
    ValidatedRaws(defs, raws);
    ApplyGood(defs, s, raws);
  }

  lemma RestoredGood(defs: seq<EndpointDef>, file: Option<Json>)
    requires GoodDefs(defs)
    ensures GoodState(defs, Restored(defs, file))
  {
    DefaultsGood(defs);
    if file.Some? && Applied(defs, Defaults(defs), file.value).Ok? { AppliedGood(defs, Defaults(defs), file.value); }
  }

  /** The running server has exactly the state that a restart would rebuild from the file. */
  ghost predicate Agrees(defs: seq<EndpointDef>, w: World) {
    w.memory.Some? ==> GoodState(defs, w.memory.value) && Restored(defs, w.file) == w.memory.value
  }

  lemma CommitAgrees(defs: seq<EndpointDef>, w: World, s: State, io: Io)
    requires GoodDefs(defs) && Agrees(defs, w) && GoodState(defs, s)
    ensures Agrees(defs, Commit(defs, w, s, io))
  {
    RestoreAfterSave(defs, s);
  }

  lemma StepAgrees(defs: seq<EndpointDef>, w: World, a: Action)
    requires GoodDefs(defs) && Agrees(defs, w) && Enabled(defs, w, a)
    ensures Agrees(defs, Step(defs, w, a))
  {
    match a
    case Post(payload, io) =>
      if Applied(defs, w.memory.value, payload).Ok? {
        AppliedGood(defs, w.memory.value, payload);
        CommitAgrees(defs, w, Applied(defs, w.memory.value, payload).value, io);
      }
    case Reset(io) =>
      DefaultsGood(defs);
      CommitAgrees(defs, w, Defaults(defs), io);
    case Restart => RestoredGood(defs, w.file);
  }

  /** Whatever file the first server found, and over any run of accepted and refused updates, resets,
      failed writes, crashes and restarts: a running server and its file always agree. */
  lemma {:induction false} RestoreAgreesWithMemory(defs: seq<EndpointDef>, w0: World, acts: seq<Action>, w: World)
    requires GoodDefs(defs) && Agrees(defs, w0) && Run(defs, w0, acts, w)
    ensures Agrees(defs, w)
    decreases |acts|
  {
    if acts != [] {
      StepAgrees(defs, w0, acts[0]);
      RestoreAgreesWithMemory(defs, Step(defs, w0, acts[0]), acts[1..], w);
    }
  }

  /** A crash while committing leaves the complete old or the complete new state to the next server; a
      refused payload or a failed write leaves everything as it was. */
  lemma CommitIsAtomic(defs: seq<EndpointDef>, w: World, payload: Json, io: Io)
    requires GoodDefs(defs) && Agrees(defs, w) && w.memory.Some? && Enabled(defs, w, Post(payload, io))
    ensures var before, r := w.memory.value, Applied(defs, w.memory.value, payload);
            var next := Step(defs, Step(defs, w, Post(payload, io)), Restart).memory.value;
            next == if r.Ok? && (io == Fine || io == CrashAfterRename) then r.value else before
    ensures Applied(defs, w.memory.value, payload).Err? || io == Fails ==> Step(defs, w, Post(payload, io)) == w
  {
    if Applied(defs, w.memory.value, payload).Ok? {
      AppliedGood(defs, w.memory.value, payload);
      RestoreAfterSave(defs, Applied(defs, w.memory.value, payload).value);
    }
  }

  // ---------------------------------------------------------------------------------------------
  // The server's module state
  // ---------------------------------------------------------------------------------------------

  datatype Outcome = Accepted | RefusedBecause(refusal: Refusal) | Threw

  lemma {:induction false} ValidatePrefix(defs: seq<EndpointDef>, raws: seq<Json>, n: nat)
    requires n <= |raws| && Validate(defs, raws[..n]).Err?
    ensures Validate(defs, raws) == Validate(defs, raws[..n])
    decreases |raws| - n
  {
    if n == |raws| {
      assert raws[..n] == raws;
    } else {
      assert raws[..n+1][..n] == raws[..n];
      ValidatePrefix(defs, raws, n + 1);
    }
  }

  class Server {
    const defs: seq<EndpointDef>
    var state: State
    var file: Option<Json>
    var hasPersistedState: bool

    constructor (defs: seq<EndpointDef>, file: Option<Json>)
      requires GoodDefs(defs)
      ensures this.defs == defs && this.file == file && Valid()
      ensures state == Restored(defs, file)
    {
      this.defs, this.file := defs, file;
      state, hasPersistedState := map[], false;
      new;
      InitializeEndpointState();
    }

    /** The state a restart would rebuild is the state in memory. */
    ghost predicate Valid()
      reads this
    {
      GoodDefs(defs) && Agrees(defs, World(file, Some(state)))
    }

    method CreateDefaultEndpointState() returns (result: State)
      ensures result == Defaults(defs)
    {
      result := map[];
      for i := 0 to |defs|
        invariant result == Defaults(defs[..i])
      {
        assert defs[..i+1][..i] == defs[..i];
        result := result[defs[i].id := DefaultEntry(defs[i])];
      }
      assert defs[..|defs|] == defs;
    }

    /** Writes a temporary file and renames it over the state file; the rename may never happen. */
    method PersistEndpointState(s: State, fails: bool) returns (ok: bool)
      requires forall d <- defs :: d.id in s
      modifies this`file, this`hasPersistedState
      ensures ok == !fails
      ensures file == if ok then Some(Saved(defs, s)) else old(file)
      ensures hasPersistedState == (ok || old(hasPersistedState))
    {
      var records: seq<Json> := [];
      for i := 0 to |defs|
        invariant records == Records(defs[..i], s)
      {
        assert defs[..i+1][..i] == defs[..i];
        records := records + [Obj(EntryFields(defs[i].id, s[defs[i].id]))];
      }
      assert defs[..|defs|] == defs;
      if fails {
        return false;
      }
      file := Some(Obj(map["endpoints" := Arr(records)]));
      hasPersistedState := true;
      ok := true;
    }

    method ValidateUpdates(payload: Json) returns (r: Result<seq<Update>, Refusal>)
      ensures var raws := RawUpdates(payload);
              r == if raws.Err? then Err(raws.error) else Validate(defs, raws.value)
    {
      var raws := RawUpdates(payload);
      if raws.Err? {
        return Err(raws.error);
      }
      var updates: seq<Update> := [];
      var seen: set<string> := {};
      for i := 0 to |raws.value|
        invariant Validate(defs, raws.value[..i]) == Ok(updates) && seen == Endpoints(updates)
      {
        var raw := raws.value[i];
        assert raws.value[..i+1][..i] == raws.value[..i];
        var refusal := Refused(defs, seen, raw, i);
        if refusal.Some? {
          ValidatePrefix(defs, raws.value, i + 1);
          return Err(refusal.value);
        }
        EndpointsPush(updates, ToUpdate(raw.fields));
        seen := seen + {ToUpdate(raw.fields).endpoint};
        updates := updates + [ToUpdate(raw.fields)];
      }
      assert raws.value[..|raws.value|] == raws.value;
      r := Ok(updates);
    }

    method NextState(updates: seq<Update>) returns (next: State)
      ensures next == ApplyAll(defs, state, updates)
    {
      next := state;
      for i := 0 to |updates|
        invariant next == ApplyAll(defs, state, updates[..i])
      {
        assert updates[..i+1][..i] == updates[..i];
        var u := updates[i];
        if u.endpoint in next {
          next := next[u.endpoint := Updated(defs, next[u.endpoint], u)];
        }
      }
      assert updates[..|updates|] == updates;
    }

    /** All updates are validated before any is applied, and applied to a copy that is persisted before
        it replaces the state. */
    method ApplyEndpointUpdates(payload: Json, persist: bool, fails: bool) returns (outcome: Outcome)
      requires forall d <- defs :: d.id in state
      modifies this
      ensures forall d <- defs :: d.id in state
      ensures outcome == Accepted <==> Applied(defs, old(state), payload).Ok? && !(persist && fails)
      ensures outcome == Threw <==> Applied(defs, old(state), payload).Ok? && persist && fails
      ensures outcome.RefusedBecause? ==> Applied(defs, old(state), payload) == Err(outcome.refusal)
      ensures state == if outcome == Accepted then Applied(defs, old(state), payload).value else old(state)
      ensures file == if outcome == Accepted && persist then Some(Saved(defs, state)) else old(file)
    {
      AppliedKeys(defs, state, payload);
      var updates := ValidateUpdates(payload);
      if updates.Err? {
        return RefusedBecause(updates.error);
      }
      var next := NextState(updates.value);
      if persist {
        var ok := PersistEndpointState(next, fails);
        if !ok {
          return Threw;
        }
      }
      state := next;
      outcome := Accepted;
    }

    method ResetEndpointState(fails: bool) returns (ok: bool)
      requires Valid()
      modifies this
      ensures Valid() && ok == !fails
      ensures state == if ok then Defaults(defs) else old(state)
      ensures file == if ok then Some(Saved(defs, Defaults(defs))) else old(file)
    {
      var nextState := CreateDefaultEndpointState();
      DefaultsGood(defs);
      RestoreAfterSave(defs, nextState);
      ok := PersistEndpointState(nextState, fails);
      if ok {
        state := nextState;
      }
    }

    method InitializeEndpointState()
      requires GoodDefs(defs)
      modifies this
      ensures state == Restored(defs, file) && file == old(file) && Valid()
    {
      state := CreateDefaultEndpointState();
      DefaultsGood(defs);
      RestoredGood(defs, file);
      if file.Some? {
        var outcome := ApplyEndpointUpdates(file.value, false, false);
        hasPersistedState := hasPersistedState || outcome == Accepted;
      }
    }

    /** The control API's update: persisted before it takes effect. */
    method Post(payload: Json, fails: bool) returns (outcome: Outcome)
      requires Valid()
      modifies this
      ensures Valid()
      ensures World(file, Some(state)) ==
              Step(defs, World(old(file), Some(old(state))), Action.Post(payload, if fails then Fails else Fine))
      ensures outcome == Accepted <==> Applied(defs, old(state), payload).Ok? && !fails
    {
      StepAgrees(defs, World(file, Some(state)), Action.Post(payload, if fails then Fails else Fine));
      outcome := ApplyEndpointUpdates(payload, true, fails);
    }
  }
}
