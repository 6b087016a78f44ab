/** What an update means in `scripts/mock-policy-server/server.ts`, said about the posted JSON and the
    endpoint definitions: which payloads are accepted, and what each field of each endpoint becomes. */
module PolicyMeaning {
  import opened Common
  import opened PolicyServer

  // ---------------------------------------------------------------------------------------------
  // Payloads
  // ---------------------------------------------------------------------------------------------

  /** The records of a payload: the items of its `endpoints`, or the payload itself. */
  function Items(payload: Json): seq<Json> {
    if payload.Obj? && "endpoints" in payload.fields && payload.fields["endpoints"].Arr?
    then payload.fields["endpoints"].items else [payload]
  }

  /** The first definition with that id. */
  ghost predicate IsDef(defs: seq<EndpointDef>, id: string, d: EndpointDef) {
    exists j :: 0 <= j < |defs| && defs[j] == d && d.id == id && forall i | 0 <= i < j :: defs[i].id != id
  }

  /** The first preset with that id. */
  ghost predicate IsPreset(d: EndpointDef, id: string, p: Preset) {
    exists j :: 0 <= j < |d.presets| && d.presets[j] == p && p.id == id
                && forall i | 0 <= i < j :: d.presets[i].id != id
  }

  lemma {:induction false} FindDefIff(defs: seq<EndpointDef>, id: string)
    ensures FindDef(defs, id).Some? ==> IsDef(defs, id, FindDef(defs, id).value)
    ensures (exists d :: IsDef(defs, id, d)) ==> FindDef(defs, id).Some?
  {
    if defs != [] {
      FindDefIff(defs[1..], id);
      if defs[0].id == id {
        assert IsDef(defs, id, defs[0]);
      } else {
        if FindDef(defs[1..], id).Some? {
          var d := FindDef(defs[1..], id).value;
          var j :| 0 <= j < |defs[1..]| && defs[1..][j] == d && forall i | 0 <= i < j :: defs[1..][i].id != id;
          assert defs[j + 1] == d && forall i | 0 < i < j + 1 :: defs[i] == defs[1..][i - 1];
        }
        if d :| IsDef(defs, id, d) {
          var j :| 0 <= j < |defs| && defs[j] == d && d.id == id && forall i | 0 <= i < j :: defs[i].id != id;
          assert defs[1..][j - 1] == d && IsDef(defs[1..], id, d);
        }
      }
    }
  }

  lemma {:induction false} FindPresetIff(d: EndpointDef, presets: seq<Preset>, from: nat, id: string)
    requires from <= |d.presets| && presets == d.presets[from..]
    requires forall i | 0 <= i < from :: d.presets[i].id != id
    ensures FindPreset(presets, id).Some? ==> IsPreset(d, id, FindPreset(presets, id).value)
    ensures (exists p :: IsPreset(d, id, p)) ==> FindPreset(presets, id).Some?
    decreases |presets|
  {
    if presets != [] {
      assert d.presets[from] == presets[0];
      if presets[0].id != id { FindPresetIff(d, presets[1..], from + 1, id); }
    }
  }

  lemma PresetFound(d: EndpointDef, id: string)
    ensures FindPreset(d.presets, id).Some? ==> IsPreset(d, id, FindPreset(d.presets, id).value)
    ensures (exists p :: IsPreset(d, id, p)) ==> FindPreset(d.presets, id).Some?
  {
    FindPresetIff(d, d.presets, 0, id);
  }

  // ---------------------------------------------------------------------------------------------
  // Which payloads are accepted
  // ---------------------------------------------------------------------------------------------

  predicate IsIntegerFrom200To599(j: Json) {
    j.Num? && j.n == j.n.Floor as real && 200.0 <= j.n <= 599.0
  }

  /** The endpoint with that id has that preset. */
  ghost predicate HasPreset(defs: seq<EndpointDef>, id: string, name: string) {
    exists d, p :: IsDef(defs, id, d) && IsPreset(d, name, p)
  }

  ghost predicate GoodRecord(defs: seq<EndpointDef>, raw: Json) {
    && raw.Obj?
    && var f := raw.fields;
       && (forall key <- f :: key in ["endpoint", "preset", "status", "body", "mode", "active"])
       && "endpoint" in f && f["endpoint"].Str?
       && (exists d :: IsDef(defs, f["endpoint"].s, d))
       && ("preset" in f || "status" in f || "body" in f || "mode" in f || "active" in f)
       && ("preset" in f ==> f["preset"].Str? && HasPreset(defs, f["endpoint"].s, f["preset"].s))
       && ("status" in f ==> IsIntegerFrom200To599(f["status"]))
       && ("active" in f ==> f["active"].Bool?)
       && ("mode" in f ==> f["mode"] in [Str("json"), Str("malformed-json"), Str("disconnect"), Str("timeout")])
  }

  function Target(raw: Json): Option<Json> {
    if raw.Obj? && "endpoint" in raw.fields then Some(raw.fields["endpoint"]) else None
  }

  ghost predicate DifferentTargets(raws: seq<Json>) {
    forall i, j | 0 <= i < j < |raws| :: Target(raws[i]) != Target(raws[j])
  }

  lemma UniqueDef(defs: seq<EndpointDef>, id: string, c: EndpointDef, d: EndpointDef)
    requires IsDef(defs, id, c) && IsDef(defs, id, d)
    ensures c == d
  {
  }

  lemma PresetIff(defs: seq<EndpointDef>, d: EndpointDef, id: string, name: string)
    requires IsDef(defs, id, d)
    ensures FindPreset(d.presets, name).Some? <==> HasPreset(defs, id, name)
  {
    PresetFound(d, name);
    if HasPreset(defs, id, name) {
      var c, p :| IsDef(defs, id, c) && IsPreset(c, name, p);
      UniqueDef(defs, id, c, d);
    }
  }

  lemma KeysIff(f: map<string, Json>)
    ensures f.Keys <= FIELDS <==> forall key <- f :: key in ["endpoint", "preset", "status", "body", "mode", "active"]
    ensures f.Keys !! {"preset", "status", "body", "mode", "active"} <==>
            !("preset" in f || "status" in f || "body" in f || "mode" in f || "active" in f)
  {
    if f.Keys !! {"preset", "status", "body", "mode", "active"} {
      assert "preset" !in f.Keys && "status" !in f.Keys && "body" !in f.Keys;
      assert "mode" !in f.Keys && "active" !in f.Keys;
    }
  }

  lemma ModeIff(j: Json)
    ensures ModeOf(j).Some? <==> j in [Str("json"), Str("malformed-json"), Str("disconnect"), Str("timeout")]
  {
  }

  lemma FieldsIff(defs: seq<EndpointDef>, d: EndpointDef, id: string, f: map<string, Json>, i: nat)
    requires IsDef(defs, id, d)
    ensures FieldRefusal(d, f, i) == None <==>
              && ("preset" in f || "status" in f || "body" in f || "mode" in f || "active" in f)
              && ("preset" in f ==> f["preset"].Str? && HasPreset(defs, id, f["preset"].s))
              && ("status" in f ==> IsIntegerFrom200To599(f["status"]))
              && ("active" in f ==> f["active"].Bool?)
              && ("mode" in f ==> f["mode"] in [Str("json"), Str("malformed-json"), Str("disconnect"), Str("timeout")])
  {
    KeysIff(f);
    if "preset" in f && f["preset"].Str? { PresetIff(defs, d, id, f["preset"].s); }
    if "mode" in f { ModeIff(f["mode"]); }
  }

  lemma RecordIff(defs: seq<EndpointDef>, seen: set<string>, raw: Json, i: nat)
    ensures Refused(defs, seen, raw, i) == None <==> GoodRecord(defs, raw) && raw.fields["endpoint"].s !in seen
  {
    if raw.Obj? {
      KeysIff(raw.fields);
      if "endpoint" in raw.fields && raw.fields["endpoint"].Str? {
        var id := raw.fields["endpoint"].s;
        FindDefIff(defs, id);
        if FindDef(defs, id).Some? { FieldsIff(defs, FindDef(defs, id).value, id, raw.fields, i); }
      }
    }
  }

  lemma TargetPush(before: seq<Json>, last: Json)
    ensures DifferentTargets(before + [last]) <==>
              DifferentTargets(before) && forall raw <- before :: Target(raw) != Target(last)
  {
    var all := before + [last];
    if DifferentTargets(all) {
      forall raw <- before ensures Target(raw) != Target(last) {
        var i :| 0 <= i < |before| && before[i] == raw;
        assert Target(all[i]) != Target(all[|before|]);
      }
      forall i, j | 0 <= i < j < |before| ensures Target(before[i]) != Target(before[j]) {
        assert Target(all[i]) != Target(all[j]);
      }
    }
  }

  lemma GoodTarget(defs: seq<EndpointDef>, raw: Json)
    requires GoodRecord(defs, raw)
    ensures Target(raw) == Some(Str(RawUpdate(raw).endpoint)) && RawUpdate(raw).endpoint == raw.fields["endpoint"].s
  {
  }

  lemma SeenIff(defs: seq<EndpointDef>, before: seq<Json>, last: Json)
    requires (forall raw <- before :: GoodRecord(defs, raw)) && GoodRecord(defs, last)
    ensures last.fields["endpoint"].s !in (set raw <- before :: RawUpdate(raw).endpoint) <==>
              forall raw <- before :: Target(raw) != Target(last)
  {
    GoodTarget(defs, last);
    forall raw <- before ensures Target(raw) == Some(Str(RawUpdate(raw).endpoint)) { GoodTarget(defs, raw); }
  }

  ghost predicate AllGood(defs: seq<EndpointDef>, raws: seq<Json>) {
    (forall raw <- raws :: GoodRecord(defs, raw)) && DifferentTargets(raws)
  }

  lemma GoodPush(defs: seq<EndpointDef>, before: seq<Json>, last: Json)
    ensures AllGood(defs, before + [last]) <==>
              AllGood(defs, before) && GoodRecord(defs, last) && forall raw <- before :: Target(raw) != Target(last)
  {
    TargetPush(before, last);
    assert forall raw <- before :: raw in before + [last];
    assert last in before + [last];
  }

  lemma LastIff(defs: seq<EndpointDef>, before: seq<Json>, last: Json)
    requires Validate(defs, before).Ok? && AllGood(defs, before)
    ensures Validate(defs, before + [last]).Ok? <==>
              GoodRecord(defs, last) && forall raw <- before :: Target(raw) != Target(last)
  {
    assert (before + [last])[..|before|] == before;
    ValidatedRaws(defs, before);
    RecordIff(defs, Endpoints(Ups(before)), last, |before|);
    if GoodRecord(defs, last) { SeenIff(defs, before, last); }
  }

  lemma {:induction false} ValidateIff(defs: seq<EndpointDef>, raws: seq<Json>)
    ensures Validate(defs, raws).Ok? <==> (forall raw <- raws :: GoodRecord(defs, raw)) && DifferentTargets(raws)
  {
    if raws != [] {
      var before, last := raws[..|raws|-1], raws[|raws|-1];
      ValidateIff(defs, before);
      assert raws == before + [last];
      GoodPush(defs, before, last);
      if Validate(defs, before).Ok? { LastIff(defs, before, last); }
    }
  }

  /** A payload is accepted if and only if it is an object, its list of endpoints, if it has one, is not
      empty and comes alone, every record has only known fields, names a known endpoint and changes
      something, with a preset of that endpoint, an integer status from 200 to 599, a boolean and a known
      mode, and no endpoint comes twice. */
  lemma AcceptedIff(defs: seq<EndpointDef>, s: State, payload: Json)
    ensures Applied(defs, s, payload).Ok? <==>
              && payload.Obj?
              && ("endpoints" in payload.fields ==>
                    && (forall key <- payload.fields :: key == "endpoints")
                    && payload.fields["endpoints"].Arr? && payload.fields["endpoints"].items != [])
              && (forall raw <- Items(payload) :: GoodRecord(defs, raw))
              && DifferentTargets(Items(payload))
  {
    if payload.Obj? {
      assert payload.fields.Keys == {"endpoints"} <==>
               "endpoints" in payload.fields && forall key <- payload.fields :: key == "endpoints";
      ValidateIff(defs, Items(payload));
    }
  }

  /** The reason given for record `i` is a fault of that record. */
  ghost predicate Faulty(defs: seq<EndpointDef>, raws: seq<Json>, i: nat, e: Refusal)
    requires i < |raws|
  {
    if !raws[i].Obj? then e == NotARecord(i)
    else
      var f := raws[i].fields;
      match e
      case UnknownField(k) =>
        k == i && exists key <- f :: key !in ["endpoint", "preset", "status", "body", "mode", "active"]
      case EndpointNotString(k) => k == i && !("endpoint" in f && f["endpoint"].Str?)
      case Repeated(k) => k == i && "endpoint" in f && exists j | 0 <= j < i :: Target(raws[j]) == Target(raws[i])
      case UnknownEndpoint(k) => k == i && "endpoint" in f && f["endpoint"].Str?
                                 && !exists d :: IsDef(defs, f["endpoint"].s, d)
      case NothingToUpdate(k) =>
        k == i && !("preset" in f || "status" in f || "body" in f || "mode" in f || "active" in f)
      case PresetNotString(k) => k == i && "preset" in f && !f["preset"].Str?
      case UnknownPreset(k) => k == i && "preset" in f && f["preset"].Str? && "endpoint" in f && f["endpoint"].Str?
                               && !HasPreset(defs, f["endpoint"].s, f["preset"].s)
      case BadStatus(k) => k == i && "status" in f && !IsIntegerFrom200To599(f["status"])
      case BadActive(k) => k == i && "active" in f && !f["active"].Bool?
      case BadMode(k) =>
        k == i && "mode" in f && f["mode"] !in [Str("json"), Str("malformed-json"), Str("disconnect"), Str("timeout")]
      case _ => false
  }

  /** The order in which a record is checked. */
  function CheckOrder(e: Refusal): nat {
    match e
    case NotARecord(_) => 1
    case UnknownField(_) => 2
    case EndpointNotString(_) => 3
    case Repeated(_) => 4
    case UnknownEndpoint(_) => 5
    case NothingToUpdate(_) => 6
    case PresetNotString(_) => 7
    case UnknownPreset(_) => 8
    case BadStatus(_) => 9
    case BadActive(_) => 10
    case BadMode(_) => 11
    case _ => 0
  }

  /** Of all faults of record `i`, the one that is checked first. */
  ghost predicate FirstReason(defs: seq<EndpointDef>, raws: seq<Json>, i: nat, e: Refusal)
    requires i < |raws|
  {
    Faulty(defs, raws, i, e) && forall e' :: Faulty(defs, raws, i, e') ==> CheckOrder(e) <= CheckOrder(e')
  }

  /** The record gets to the checks of its fields. */
  ghost predicate Addressed(defs: seq<EndpointDef>, raws: seq<Json>, i: nat, d: EndpointDef)
    requires i < |raws|
  {
    && raws[i].Obj?
    && (forall key <- raws[i].fields :: key in ["endpoint", "preset", "status", "body", "mode", "active"])
    && "endpoint" in raws[i].fields && raws[i].fields["endpoint"].Str?
    && (forall j | 0 <= j < i :: Target(raws[j]) != Target(raws[i]))
    && IsDef(defs, raws[i].fields["endpoint"].s, d)
  }

  lemma FieldFault(defs: seq<EndpointDef>, raws: seq<Json>, i: nat, d: EndpointDef)
    requires i < |raws| && Addressed(defs, raws, i, d) && FieldRefusal(d, raws[i].fields, i).Some?
    ensures Faulty(defs, raws, i, FieldRefusal(d, raws[i].fields, i).value)
  {
    var f := raws[i].fields;
    KeysIff(f);
    if "preset" in f && f["preset"].Str? { PresetIff(defs, d, f["endpoint"].s, f["preset"].s); }
    if "mode" in f { ModeIff(f["mode"]); }
  }

  lemma FieldFaultFirst(defs: seq<EndpointDef>, raws: seq<Json>, i: nat, d: EndpointDef, e: Refusal)
    requires i < |raws| && Addressed(defs, raws, i, d) && FieldRefusal(d, raws[i].fields, i).Some?
    requires Faulty(defs, raws, i, e)
    ensures CheckOrder(FieldRefusal(d, raws[i].fields, i).value) <= CheckOrder(e)
  {
    var f := raws[i].fields;
    KeysIff(f);
    if "preset" in f && f["preset"].Str? { PresetIff(defs, d, f["endpoint"].s, f["preset"].s); }
    if "mode" in f { ModeIff(f["mode"]); }
  }

  /** What is refused before the fields are looked at. */
  lemma EarlyFault(defs: seq<EndpointDef>, raws: seq<Json>, i: nat, seen: set<string>)
    requires i < |raws| && Refused(defs, seen, raws[i], i).Some?
    requires raws[i].Obj? && "endpoint" in raws[i].fields && raws[i].fields["endpoint"].Str? ==>
               FindDef(defs, raws[i].fields["endpoint"].s).None? || raws[i].fields["endpoint"].s in seen
               || !(raws[i].fields.Keys <= FIELDS)
    requires forall id :: id in seen <==> exists j | 0 <= j < i :: Target(raws[j]) == Some(Str(id))
    ensures Faulty(defs, raws, i, Refused(defs, seen, raws[i], i).value)
  {
    if raws[i].Obj? {
      var f := raws[i].fields;
      KeysIff(f);
      if "endpoint" in f && f["endpoint"].Str? { FindDefIff(defs, f["endpoint"].s); }
    }
  }

  lemma EarlyFaultFirst(defs: seq<EndpointDef>, raws: seq<Json>, i: nat, seen: set<string>, e: Refusal)
    requires i < |raws| && Refused(defs, seen, raws[i], i).Some? && Faulty(defs, raws, i, e)
    requires raws[i].Obj? && "endpoint" in raws[i].fields && raws[i].fields["endpoint"].Str? ==>
               FindDef(defs, raws[i].fields["endpoint"].s).None? || raws[i].fields["endpoint"].s in seen
               || !(raws[i].fields.Keys <= FIELDS)
    requires forall id :: id in seen <==> exists j | 0 <= j < i :: Target(raws[j]) == Some(Str(id))
    ensures CheckOrder(Refused(defs, seen, raws[i], i).value) <= CheckOrder(e)
  {
    if raws[i].Obj? {
      var f := raws[i].fields;
      KeysIff(f);
      if "endpoint" in f && f["endpoint"].Str? { FindDefIff(defs, f["endpoint"].s); }
    }
  }

  lemma IsAddressed(defs: seq<EndpointDef>, raws: seq<Json>, i: nat, seen: set<string>)
    requires i < |raws| && raws[i].Obj? && "endpoint" in raws[i].fields && raws[i].fields["endpoint"].Str?
    requires raws[i].fields.Keys <= FIELDS && raws[i].fields["endpoint"].s !in seen
    requires FindDef(defs, raws[i].fields["endpoint"].s).Some?
    requires forall id :: id in seen <==> exists j | 0 <= j < i :: Target(raws[j]) == Some(Str(id))
    ensures Addressed(defs, raws, i, FindDef(defs, raws[i].fields["endpoint"].s).value)
  {
    KeysIff(raws[i].fields);
    FindDefIff(defs, raws[i].fields["endpoint"].s);
  }

  lemma RecordFault(defs: seq<EndpointDef>, raws: seq<Json>, i: nat, seen: set<string>)
    requires i < |raws| && Refused(defs, seen, raws[i], i).Some?
    requires forall id :: id in seen <==> exists j | 0 <= j < i :: Target(raws[j]) == Some(Str(id))
    ensures FirstReason(defs, raws, i, Refused(defs, seen, raws[i], i).value)
  {
    var refusal := Refused(defs, seen, raws[i], i).value;
    if raws[i].Obj? && raws[i].fields.Keys <= FIELDS && "endpoint" in raws[i].fields && raws[i].fields["endpoint"].Str?
       && raws[i].fields["endpoint"].s !in seen && FindDef(defs, raws[i].fields["endpoint"].s).Some? {
      var d := FindDef(defs, raws[i].fields["endpoint"].s).value;
      IsAddressed(defs, raws, i, seen);
      FieldFault(defs, raws, i, d);
      forall e | Faulty(defs, raws, i, e) ensures CheckOrder(refusal) <= CheckOrder(e) {
        FieldFaultFirst(defs, raws, i, d, e);
      }
    } else {
      EarlyFault(defs, raws, i, seen);
      forall e | Faulty(defs, raws, i, e) ensures CheckOrder(refusal) <= CheckOrder(e) {
        EarlyFaultFirst(defs, raws, i, seen, e);
      }
    }
  }

  lemma SameFault(defs: seq<EndpointDef>, before: seq<Json>, last: Json, i: nat, e: Refusal)
    requires i < |before|
    ensures Faulty(defs, before, i, e) <==> Faulty(defs, before + [last], i, e)
  {
    var all := before + [last];
    assert forall j | 0 <= j <= i :: all[j] == before[j];
    if e.Repeated? {
      if j :| 0 <= j < i && Target(before[j]) == Target(before[i]) { assert Target(all[j]) == Target(all[i]); }
      if j :| 0 <= j < i && Target(all[j]) == Target(all[i]) { assert Target(before[j]) == Target(before[i]); }
    }
  }

  /** The record that is refused, for the reason `e`: all records before it are good. */
  ghost predicate FirstFault(defs: seq<EndpointDef>, raws: seq<Json>, i: nat, e: Refusal) {
    && i < |raws| && FirstReason(defs, raws, i, e)
    && (forall raw <- raws[..i] :: GoodRecord(defs, raw)) && DifferentTargets(raws[..i])
  }

  /** Records are refused because of the first bad one, and for the first of its faults. */
  lemma {:induction false} RefusedForFirst(defs: seq<EndpointDef>, raws: seq<Json>)
    requires Validate(defs, raws).Err?
    ensures exists i :: FirstFault(defs, raws, i, Validate(defs, raws).error)
  {
    var n := |raws| - 1;
    var before, e := raws[..n], Validate(defs, raws).error;
    if Validate(defs, before).Err? {
      RefusedForFirst(defs, before);
      var i :| FirstFault(defs, before, i, e);
      FaultStays(defs, before, raws[n], i, e);
      assert raws == before + [raws[n]];
    } else {
      ValidateIff(defs, before);
      ValidatedRaws(defs, before);
      var seen := Endpoints(Ups(before));
      SeenAre(defs, raws, n, seen);
      RecordFault(defs, raws, n, seen);
      assert FirstFault(defs, raws, n, e);
    }
  }

  lemma SeenAre(defs: seq<EndpointDef>, raws: seq<Json>, n: nat, seen: set<string>)
    requires n <= |raws| && forall raw <- raws[..n] :: GoodRecord(defs, raw)
    requires seen == set raw <- raws[..n] :: RawUpdate(raw).endpoint
    ensures forall id :: id in seen <==> exists j | 0 <= j < n :: Target(raws[j]) == Some(Str(id))
  {
    forall id ensures id in seen <==> exists j | 0 <= j < n :: Target(raws[j]) == Some(Str(id)) {
      if id in seen {
        var raw :| raw in raws[..n] && RawUpdate(raw).endpoint == id;
        GoodTarget(defs, raw);
        var j :| 0 <= j < n && raws[..n][j] == raw;
        assert Target(raws[j]) == Some(Str(id));
      }
      if j :| 0 <= j < n && Target(raws[j]) == Some(Str(id)) {
        assert raws[..n][j] == raws[j];
        GoodTarget(defs, raws[j]);
      }
    }
  }

  lemma FaultStays(defs: seq<EndpointDef>, before: seq<Json>, last: Json, i: nat, e: Refusal)
    requires FirstFault(defs, before, i, e)
    ensures FirstFault(defs, before + [last], i, e)
  {
    var all := before + [last];
    assert all[..i] == before[..i] && all[i] == before[i];
    forall r ensures Faulty(defs, before, i, r) <==> Faulty(defs, all, i, r) {
      SameFault(defs, before, last, i, r);
    }
  }

  // ---------------------------------------------------------------------------------------------
  // What an accepted payload does
  // ---------------------------------------------------------------------------------------------

  /** What a record says about one entry: `e` before, `r` afterwards. */
  ghost predicate Explicit(f: map<string, Json>, r: Entry) {
    && ("status" in f ==> f["status"] == Num(r.status as real))
    && ("body" in f ==> f["body"] == r.body)
    && ("mode" in f ==>
          f["mode"] == Str(match r.mode
                           case Plain => "json"
                           case MalformedJson => "malformed-json"
                           case Disconnect => "disconnect"
                           case Timeout => "timeout"))
    && ("active" in f ==> f["active"] == Bool(r.active))
  }

  /** Where the record is silent, its preset decides. */
  ghost predicate FromPreset(f: map<string, Json>, p: Preset, r: Entry) {
    && ("status" !in f ==> r.status == if p.status.Some? then p.status.value else 200)
    && ("body" !in f ==> r.body == p.body)
    && ("active" !in f ==> r.active)
  }

  ghost predicate Kept(f: map<string, Json>, e: Entry, r: Entry) {
    && ("status" !in f ==> r.status == e.status)
    && ("body" !in f ==> r.body == e.body)
    && ("active" !in f ==> r.active == e.active)
  }

  ghost predicate Changed(defs: seq<EndpointDef>, id: string, f: map<string, Json>, e: Entry, r: Entry) {
    && Explicit(f, r)
    && ("mode" !in f ==> r.mode == e.mode)
    && if "preset" in f
       then f["preset"].Str? &&
            exists d, p :: IsDef(defs, id, d) && IsPreset(d, f["preset"].s, p) && FromPreset(f, p, r)
       else Kept(f, e, r)
  }

  lemma RecordChanges(defs: seq<EndpointDef>, raw: Json, e: Entry)
    requires GoodRecord(defs, raw)
    ensures RawUpdate(raw).endpoint == raw.fields["endpoint"].s
    ensures Changed(defs, raw.fields["endpoint"].s, raw.fields, e, Updated(defs, e, RawUpdate(raw)))
  {
    var f, id, r := raw.fields, raw.fields["endpoint"].s, Updated(defs, e, RawUpdate(raw));
    FindDefIff(defs, id);
    ExplicitWins(defs, raw, e);
    if "preset" in f {
      var d := FindDef(defs, id).value;
      PresetFound(d, f["preset"].s);
      var p := FindPreset(d.presets, f["preset"].s).value;
      assert IsDef(defs, id, d) && IsPreset(d, f["preset"].s, p) && FromPreset(f, p, r);
    }
  }

  lemma ExplicitWins(defs: seq<EndpointDef>, raw: Json, e: Entry)
    requires GoodRecord(defs, raw)
    ensures Explicit(raw.fields, Updated(defs, e, RawUpdate(raw)))
  {
    if "status" in raw.fields {
      var n := raw.fields["status"].n;
      assert n == n.Floor as real;
    }
  }

  /** After an accepted payload, for every record and its endpoint: an explicit field is the new value;
      otherwise, with a preset, the status is the preset's or 200, the body is the preset's, and the
      endpoint is active; otherwise the old value stays. Endpoints that no record names keep their
      entries, and no endpoint comes or goes. */
  lemma UpdateMeaning(defs: seq<EndpointDef>, s: State, payload: Json, t: State)
    requires Applied(defs, s, payload) == Ok(t)
    ensures t.Keys == s.Keys
    ensures forall raw <- Items(payload) :: raw.Obj? && "endpoint" in raw.fields && raw.fields["endpoint"].Str?
    ensures forall raw <- Items(payload) :: raw.fields["endpoint"].s in s ==>
              Changed(defs, raw.fields["endpoint"].s, raw.fields, s[raw.fields["endpoint"].s],
                      t[raw.fields["endpoint"].s])
    ensures forall id <- s :: (forall raw <- Items(payload) :: raw.fields["endpoint"] != Str(id)) ==> t[id] == s[id]
  {
    var raws := Items(payload);
    AcceptedIff(defs, s, payload);
    AppliedKeys(defs, s, payload);
    ItemsApplied(defs, s, payload);
    ValidatedRaws(defs, raws);
    ApplyPointwise(defs, s, raws);
    forall raw <- raws
      ensures RawUpdate(raw).endpoint == raw.fields["endpoint"].s
      ensures raw.fields["endpoint"].s in s ==>
                Changed(defs, raw.fields["endpoint"].s, raw.fields, s[raw.fields["endpoint"].s],
                        t[raw.fields["endpoint"].s])
    {
      assert GoodRecord(defs, raw);
      var id := raw.fields["endpoint"].s;
      RecordChanges(defs, raw, if id in s then s[id] else Entry(200, Null, Plain, false));
    }
  }

  lemma ItemsApplied(defs: seq<EndpointDef>, s: State, payload: Json)
    requires Applied(defs, s, payload).Ok?
    ensures Validate(defs, Items(payload)).Ok?
    ensures Applied(defs, s, payload).value == ApplyAll(defs, s, Validate(defs, Items(payload)).value)
  {
  }

  // ---------------------------------------------------------------------------------------------
  // Defaults
  // ---------------------------------------------------------------------------------------------

  /** Status (or 200) and body of the first preset, an empty object without presets, answered as JSON, and
      active if the endpoint is mocked by default. */
  ghost predicate IsDefault(d: EndpointDef, e: Entry) {
    && (d.presets != [] && d.presets[0].status.Some? ==> e.status == d.presets[0].status.value)
    && (d.presets == [] || d.presets[0].status.None? ==> e.status == 200)
    && (d.presets != [] ==> e.body == d.presets[0].body)
    && (d.presets == [] ==> e.body == Obj(map[]))
    && e.mode == Plain && e.active == d.mockedByDefault
  }

  lemma DefaultIs(d: EndpointDef)
    ensures IsDefault(d, DefaultEntry(d))
  {
  }

  lemma IdsApart(before: seq<EndpointDef>, last: EndpointDef)
    requires var defs := before + [last]; forall i, j | 0 <= i < j < |defs| :: defs[i].id != defs[j].id
    ensures forall i, j | 0 <= i < j < |before| :: before[i].id != before[j].id
    ensures forall d <- before :: d.id != last.id
  {
    var defs := before + [last];
    forall i, j | 0 <= i < j < |before| ensures before[i].id != before[j].id {
      assert defs[i].id != defs[j].id;
    }
    forall d <- before ensures d.id != last.id {
      var i :| 0 <= i < |before| && before[i] == d;
      assert defs[i].id != defs[|before|].id;
    }
  }

  /** Every endpoint has its default entry, and nothing else has an entry. */
  lemma {:induction false} DefaultMeaning(defs: seq<EndpointDef>)
    requires forall i, j | 0 <= i < j < |defs| :: defs[i].id != defs[j].id
    ensures Defaults(defs).Keys == Ids(defs)
    ensures forall d <- defs :: d.id in Defaults(defs) && IsDefault(d, Defaults(defs)[d.id])
  {
    if defs != [] {
      var before, last := defs[..|defs|-1], defs[|defs|-1];
      assert defs == before + [last];
      IdsApart(before, last);
      DefaultMeaning(before);
      IdsPush(before, last);
      DefaultIs(last);
      forall d <- defs ensures d.id in Defaults(defs) && IsDefault(d, Defaults(defs)[d.id]) {
        assert d in before || d == last;
      }
    }
  }
}
