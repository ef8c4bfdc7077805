/**
 * Node runtime versions (versioning.rs): how they advance with the data of a node, their JSON form, and
 * the check a restored node's version must pass.
 */
module NodeVersions {
  import opened Prelude
  import opened Json
  import JsonCodec

  /** The resolved versioning policy of a node; `hash` maps canonical text to a content id. */
  datatype Policy = Disabled | Level0 | Level1(hash: string -> string)

  datatype Version = V0(counter: nat) | V1(counter: nat, cid: string, prev: Option<string>)

  datatype VersionError =
    | Required | Malformed | PolicyDisabled | LevelMismatch | NoData | NotStrict | CidMismatch | CounterExhausted

  // ---- advancing ----

  /** What is hashed where there is no data. */
  function AbsentSeed(): Value {
    Object(map["@graphrefly/node-version" := Str("v1-absent")])
  }

  ghost function Cid(hash: string -> string, data: Option<Value>): Option<string> {
    var json := if data.Some? then data.value else AbsentSeed();
    if Strict(json) then Some(hash(Canonical(json))) else None
  }

  ghost function Created(policy: Policy, initial: Option<Value>): Result<Option<Version>, VersionError> {
    match policy
    case Disabled => Ok(None)
    case Level0 => Ok(Some(V0(0)))
    case Level1(hash) =>
      var cid := Cid(hash, initial);
      if cid.None? then Err(NotStrict) else Ok(Some(V1(0, cid.value, None)))
  }

  function NextCounter(current: Option<Version>): Option<nat> {
    if current.None? then Some(1)
    else if current.value.counter + 1 > MAX_SAFE_INTEGER then None
    else Some(current.value.counter + 1)
  }

  ghost function Advanced(current: Option<Version>, policy: Policy, data: Value): Result<Option<Version>, VersionError> {
    match policy
    case Disabled => Ok(None)
    case Level0 =>
      var n := NextCounter(current);
      if n.None? then Err(CounterExhausted) else Ok(Some(V0(n.value)))
    case Level1(hash) =>
      var n, cid := NextCounter(current), Cid(hash, Some(data));
      var previous := if current.Some? && current.value.V1? then Some(current.value.cid) else None;
      if n.None? then Err(CounterExhausted)
      else if cid.None? then Err(NotStrict)
      else Ok(Some(V1(n.value, cid.value, previous)))
  }

  /** One more datum: one more count, from 0 where there was no version. */
  lemma AdvancedCounts(current: Option<Version>, policy: Policy, data: Value)
    requires !policy.Disabled? && Advanced(current, policy, data).Ok?
    ensures var v := Advanced(current, policy, data).value;
            v.Some? && v.value.counter == 1 + if current.Some? then current.value.counter else 0
  {
  }

  /** A node's version after some data. */
  ghost function AfterData(policy: Policy, initial: Option<Value>, data: seq<Value>): Result<Option<Version>, VersionError> {
    if data == [] then Created(policy, initial)
    else
      var before := AfterData(policy, initial, data[..|data| - 1]);
      if before.Err? then before else Advanced(before.value, policy, data[|data| - 1])
  }

  /** What the node last held. */
  function Latest(initial: Option<Value>, data: seq<Value>): Option<Value> {
    if data == [] then initial else Some(data[|data| - 1])
  }

  /** What stands for a node's data in its content id: the data, or a fixed seed where there is none. */
  function Content(data: Option<Value>): Value {
    if data.Some? then data.value else Object(map["@graphrefly/node-version" := Str("v1-absent")])
  }

  /** `cid` is the hash of the canonical text of the content, which is strict. */
  ghost predicate Names(hash: string -> string, cid: string, data: Option<Value>) {
    Strict(Content(data)) && hash(Canonical(Content(data))) == cid
  }

  /** A version counts the data, and at level 1 names the last two contents. */
  lemma {:induction false} VersionCounts(policy: Policy, initial: Option<Value>, data: seq<Value>)
    requires AfterData(policy, initial, data).Ok?
    ensures var v := AfterData(policy, initial, data).value;
            && (policy.Disabled? <==> v.None?)
            && (v.Some? ==> v.value.counter == |data| <= MAX_SAFE_INTEGER && (v.value.V1? <==> policy.Level1?))
            && (policy.Level1? ==>
                  && Names(policy.hash, v.value.cid, Latest(initial, data))
                  && (data == [] <==> v.value.prev.None?)
                  && (data != [] ==> Names(policy.hash, v.value.prev.value, Latest(initial, data[..|data| - 1]))))
  {
    if data != [] { VersionCounts(policy, initial, data[..|data| - 1]); }
  }

  /** A node can keep versioning exactly while its counter is safe and, at level 1, all its contents are strict. */
  lemma {:induction false} VersionsIff(policy: Policy, initial: Option<Value>, data: seq<Value>)
    ensures AfterData(policy, initial, data).Ok? <==>
            policy.Disabled? ||
            (|data| <= MAX_SAFE_INTEGER
             && (policy.Level1? ==> Strict(Content(initial)) && forall i :: 0 <= i < |data| ==> Strict(data[i])))
  {
    if data != [] {
      var init := data[..|data| - 1];
      VersionsIff(policy, initial, init);
      if AfterData(policy, initial, init).Ok? { VersionCounts(policy, initial, init); }
      assert forall i :: 0 <= i < |init| ==> data[i] == init[i];
    }
  }

  // ---- the JSON form ----

  function ToJson(v: Version): Value {
    match v
    case V0(counter) => Object(map["level" := Number(0), "counter" := Number(counter)])
    case V1(counter, cid, prev) =>
      Object(map["level" := Number(1), "counter" := Number(counter), "cid" := Str(cid),
                 "prev" := if prev.Some? then Str(prev.value) else Null])
  }

  function CounterOf(j: Value): Option<nat> {
    if j.Number? && 0 <= j.n <= MAX_SAFE_INTEGER then Some(j.n) else None
  }

  /** `validate_node_version_json`. */
  function FromJson(j: Value): Option<Version> {
    if !Strict(j) || !j.Object? then None
    else
      var m := j.members;
      if "level" !in m then None
      else if m["level"] == Number(0) then
        if m.Keys != {"level", "counter"} || CounterOf(m["counter"]).None? then None
        else Some(V0(CounterOf(m["counter"]).value))
      else if m["level"] == Number(1) then
        if m.Keys != {"level", "counter", "cid", "prev"} then None else FromLevel1(m["counter"], m["cid"], m["prev"])
      else None
  }

  function FromLevel1(counter: Value, cid: Value, prev: Value): Option<Version> {
    if CounterOf(counter).None? || !cid.Str? || !(prev.Null? || prev.Str?) then None
    else if (CounterOf(counter).value == 0) != prev.Null? then None
    else Some(V1(CounterOf(counter).value, cid.s, if prev.Str? then Some(prev.s) else None))
  }

  /** A safe counter, and a previous content exactly after the first data. */
  predicate Sound(v: Version) {
    v.counter <= MAX_SAFE_INTEGER && (v.V1? ==> (v.counter == 0 <==> v.prev.None?))
  }

  /** Exactly the sound versions are read back, as they were. */
  lemma VersionReads(v: Version)
    ensures FromJson(ToJson(v)) == if Sound(v) then Some(v) else None
  {
    var m := ToJson(v).members;
    assert m["counter"] == Number(v.counter);
    if v.V0? {
      assert m.Keys == {"level", "counter"};
    } else {
      assert m.Keys == {"level", "counter", "cid", "prev"};
    }
    if v.counter <= MAX_SAFE_INTEGER {
      forall k | k in m ensures StrictAt(m[k], 1) {}
    }
  }

  /** Nothing else is read: the form is canonical. */
  lemma VersionReadFrom(j: Value)
    requires FromJson(j).Some?
    ensures Sound(FromJson(j).value) && j == ToJson(FromJson(j).value)
  {
    var m := j.members;
    var n := ToJson(FromJson(j).value).members;
    if m["level"] == Number(0) {
      assert n.Keys == {"level", "counter"};
    } else {
      assert n.Keys == {"level", "counter", "cid", "prev"};
    }
    assert forall k :: k in m ==> m[k] == n[k];
    assert m == n;
  }

  // ---- the check at restore ----

  /** What a version must be for a node with this data under the policy. */
  ghost function Mismatch(policy: Policy, v: Version, data: Option<Value>): Option<VersionError> {
    match policy
    case Disabled => Some(PolicyDisabled)
    case Level0 => if v.V0? then None else Some(LevelMismatch)
    case Level1(hash) =>
      if v.V0? then Some(LevelMismatch)
      else if data.None? && v.counter > 0 then Some(NoData)
      else if Cid(hash, data).None? then Some(NotStrict)
      else if Cid(hash, data) != Some(v.cid) then Some(CidMismatch)
      else None
  }

  ghost function VersionProblem(policy: Policy, restored: Option<Value>, data: Option<Value>): Option<VersionError> {
    if restored.None? then if policy.Disabled? then None else Some(Required)
    else if FromJson(restored.value).None? then Some(Malformed)
    else Mismatch(policy, FromJson(restored.value).value, data)
  }

  /** The record is the JSON form of a sound version of level 0. */
  ghost predicate RecordsV0(restored: Option<Value>) {
    exists counter: nat :: counter <= MAX_SAFE_INTEGER
      && restored == Some(Object(map["level" := Number(0), "counter" := Number(counter)]))
  }

  /** The record is the JSON form of a sound version of level 1 with this counter and content id. */
  ghost predicate RecordsV1(restored: Option<Value>, counter: nat, cid: string) {
    counter <= MAX_SAFE_INTEGER && exists prev: Value :: RecordsV1With(restored, counter, cid, prev)
  }

  predicate RecordsV1With(restored: Option<Value>, counter: nat, cid: string, prev: Value) {
    && (if counter == 0 then prev.Null? else prev.Str?)
    && restored == Some(Object(map["level" := Number(1), "counter" := Number(counter), "cid" := Str(cid), "prev" := prev]))
  }

  /** The id names the held data; only a counter of 0 needs none. */
  ghost predicate NamesHeld(hash: string -> string, counter: nat, cid: string, data: Option<Value>) {
    Names(hash, cid, data) && (data.None? ==> counter == 0)
  }

  /** No record without a policy; else a record of the policy's level that, at level 1, names the held data. */
  ghost predicate Verifies(policy: Policy, restored: Option<Value>, data: Option<Value>) {
    match policy
    case Disabled => restored.None?
    case Level0 => RecordsV0(restored)
    case Level1(hash) =>
      exists counter: nat, cid :: RecordsV1(restored, counter, cid) && NamesHeld(hash, counter, cid, data)
  }

  lemma ReadsV0Iff(j: Value)
    ensures FromJson(j).Some? && FromJson(j).value.V0? <==> RecordsV0(Some(j))
  {
    if FromJson(j).Some? {
      VersionReadFrom(j);
      var v := FromJson(j).value;
      if v.V0? { assert j == Object(map["level" := Number(0), "counter" := Number(v.counter)]); }
    }
    if RecordsV0(Some(j)) {
      var counter: nat :| counter <= MAX_SAFE_INTEGER
                          && Some(j) == Some(Object(map["level" := Number(0), "counter" := Number(counter)]));
      VersionReads(V0(counter));
    }
  }

  lemma ReadsV1Iff(j: Value, counter: nat, cid: string)
    ensures FromJson(j).Some? && FromJson(j).value.V1? && FromJson(j).value.counter == counter
            && FromJson(j).value.cid == cid
            <==> RecordsV1(Some(j), counter, cid)
  {
    if FromJson(j).Some? && FromJson(j).value.V1? {
      VersionReadFrom(j);
      var v := FromJson(j).value;
      var prev := if v.prev.Some? then Str(v.prev.value) else Null;
      assert RecordsV1With(Some(j), v.counter, v.cid, prev);
    }
    if RecordsV1(Some(j), counter, cid) {
      var prev: Value :| RecordsV1With(Some(j), counter, cid, prev);
      VersionReads(V1(counter, cid, if prev.Str? then Some(prev.s) else None));
    }
  }

  lemma NamedIff(hash: string -> string, v: Version, data: Option<Value>)
    requires v.V1?
    ensures Mismatch(Level1(hash), v, data).None? <==> NamesHeld(hash, v.counter, v.cid, data)
  {
  }

  lemma Level1Iff(hash: string -> string, j: Value, data: Option<Value>)
    ensures VersionProblem(Level1(hash), Some(j), data).None? <==> Verifies(Level1(hash), Some(j), data)
  {
    if FromJson(j).Some? && FromJson(j).value.V1? {
      var v := FromJson(j).value;
      ReadsV1Iff(j, v.counter, v.cid);
      NamedIff(hash, v, data);
    }
    if Verifies(Level1(hash), Some(j), data) {
      var counter: nat, cid :| RecordsV1(Some(j), counter, cid) && NamesHeld(hash, counter, cid, data);
      ReadsV1Iff(j, counter, cid);
    }
  }

  /** No problem is found exactly when the record verifies. */
  lemma VerifiesIff(policy: Policy, restored: Option<Value>, data: Option<Value>)
    ensures VersionProblem(policy, restored, data).None? <==> Verifies(policy, restored, data)
  {
    if restored.Some? {
      match policy
      case Disabled =>
      case Level0 => ReadsV0Iff(restored.value);
      case Level1(hash) => Level1Iff(hash, restored.value, data);
    }
  }

  /** A record of level 1 with this counter and no data to it. */
  ghost predicate Cold(restored: Option<Value>, data: Option<Value>) {
    data.None? && exists counter: nat, cid :: counter > 0 && RecordsV1(restored, counter, cid)
  }

  ghost predicate RecordsLevel1(restored: Option<Value>) {
    exists counter: nat, cid :: RecordsV1(restored, counter, cid)
  }

  lemma ReadsLevel1Iff(j: Value, data: Option<Value>)
    ensures FromJson(j).Some? && FromJson(j).value.V1? <==> RecordsLevel1(Some(j))
    ensures FromJson(j).Some? && FromJson(j).value.V1? && FromJson(j).value.counter > 0 && data.None? <==> Cold(Some(j), data)
  {
    if FromJson(j).Some? && FromJson(j).value.V1? { ReadsV1Iff(j, FromJson(j).value.counter, FromJson(j).value.cid); }
    forall counter: nat, cid | RecordsV1(Some(j), counter, cid)
      ensures FromJson(j).Some? && FromJson(j).value.V1? && FromJson(j).value.counter == counter
    {
      ReadsV1Iff(j, counter, cid);
    }
  }

  /** Which problem a level 1 version has. */
  lemma Level1Tells(hash: string -> string, v: Version, data: Option<Value>)
    requires v.V1?
    ensures var problem, cold := Mismatch(Level1(hash), v, data), data.None? && v.counter > 0;
            && (problem == Some(NoData) <==> cold)
            && (problem == Some(NotStrict) <==> !cold && !Strict(Content(data)))
            && problem !in {Some(Required), Some(Malformed), Some(PolicyDisabled), Some(LevelMismatch), Some(CounterExhausted)}
  {
  }

  /** Which problem it is. */
  lemma ProblemTells(policy: Policy, restored: Option<Value>, data: Option<Value>)
    ensures var problem := VersionProblem(policy, restored, data);
            var level0, level1 := RecordsV0(restored), RecordsLevel1(restored);
            && (problem == Some(Required) <==> restored.None? && !policy.Disabled?)
            && (problem == Some(Malformed) <==> restored.Some? && !level0 && !level1)
            && (problem == Some(PolicyDisabled) <==> (level0 || level1) && policy.Disabled?)
            && (problem == Some(LevelMismatch) <==> (level0 && policy.Level1?) || (level1 && policy.Level0?))
            && (problem == Some(NoData) <==> policy.Level1? && Cold(restored, data))
            && (problem == Some(NotStrict) <==>
                  policy.Level1? && level1 && !Cold(restored, data) && !Strict(Content(data)))
            && problem != Some(CounterExhausted)
  {
    if restored.Some? {
      var v := FromJson(restored.value);
      ReadsV0Iff(restored.value);
      ReadsLevel1Iff(restored.value, data);
      assert v.Some? && v.value.V0? <==> RecordsV0(restored);
      assert v.Some? && v.value.V1? <==> RecordsLevel1(restored);
      if v.Some? && v.value.V1? && policy.Level1? { Level1Tells(policy.hash, v.value, data); }
    } else {
      assert !RecordsV0(restored) && !RecordsLevel1(restored) && !Cold(restored, data);
    }
  }

  /** `verify_restored_node_version`. */
  method VerifyVersion(policy: Policy, restored: Option<Value>, data: Option<Value>)
    returns (r: Result<Option<Version>, VersionError>)
    ensures r.Ok? <==> Verifies(policy, restored, data)
    ensures r.Err? ==> VersionProblem(policy, restored, data) == Some(r.error)
    ensures r.Ok? ==> r.value == if restored.None? then None else FromJson(restored.value)
  {
    VerifiesIff(policy, restored, data);
    if restored.None? {
      return if policy.Disabled? then Ok(None) else Err(Required);
    }
    var version := FromJson(restored.value);
    if version.None? { return Err(Malformed); }
    if policy.Disabled? { return Err(PolicyDisabled); }
    if policy.Level1? != version.value.V1? { return Err(LevelMismatch); }
    if policy.Level1? {
      if data.None? && version.value.counter > 0 { return Err(NoData); }
      var text := JsonCodec.StableJsonString(if data.Some? then data.value else AbsentSeed());
      if text.None? { return Err(NotStrict); }
      if policy.hash(text.value) != version.value.cid { return Err(CidMismatch); }
    }
    r := Ok(version);
  }

  function VersionToJson(v: Option<Version>): Option<Value> {
    if v.Some? then Some(ToJson(v.value)) else None
  }

  /** A version reached by the node's own data passes under the same policy while that data is there. */
  lemma OwnVersionVerifies(policy: Policy, initial: Option<Value>, data: seq<Value>)
    requires AfterData(policy, initial, data).Ok?
    ensures VersionProblem(policy, VersionToJson(AfterData(policy, initial, data).value), Latest(initial, data)) == None
  {
    VersionCounts(policy, initial, data);
    var v := AfterData(policy, initial, data).value;
    if v.Some? { SoundProblem(policy, v.value, Latest(initial, data)); }
  }

  /** The check on a sound version is the check on its JSON form. */
  lemma SoundProblem(policy: Policy, v: Version, data: Option<Value>)
    ensures VersionProblem(policy, Some(ToJson(v)), data) == if Sound(v) then Mismatch(policy, v, data) else Some(Malformed)
  {
    VersionReads(v);
  }

  /** Without its data it passes at level 1 exactly while there never was any. */
  lemma ColdVersionIff(policy: Policy, initial: Option<Value>, data: seq<Value>)
    requires AfterData(policy, initial, data).Ok? && policy.Level1? && initial.None?
    ensures VersionProblem(policy, VersionToJson(AfterData(policy, initial, data).value), None) == None <==> data == []
  {
    VersionCounts(policy, initial, data);
    var v := AfterData(policy, initial, data).value.value;
    SoundProblem(policy, v, None);
    assert data == [] ==> Cid(policy.hash, None) == Some(v.cid);
  }

  /** Under another level it never passes; versions switched off on one side only never pass. */
  lemma PolicyMustMatch(policy: Policy, initial: Option<Value>, data: seq<Value>, other: Policy, held: Option<Value>)
    requires AfterData(policy, initial, data).Ok?
    requires policy.Disabled? != other.Disabled? || policy.Level0? != other.Level0?
    ensures VersionProblem(other, VersionToJson(AfterData(policy, initial, data).value), held).Some?
  {
    VersionCounts(policy, initial, data);
  }
}
