/** The pure content of the entity's lifecycle: which messages a batch
    records, how accepted values are normalised before they are stored,
    which columns a save writes, and what a load copies in. The class in
    module Entities is specified with these functions. */
module EntityRules {
  import opened Wrappers
  import opened PhpValues
  import opened Schema
  import opened Environment
  import opened Validator

  /** PHP truthiness of an id (`if ($this->id)`): set and non-zero. */
  predicate Truthy(id: Option<int>) {
    id.Some? && id.value != 0
  }

  /** `$array[$key]`, reading null for a missing key. */
  function Lookup(m: map<string, Value>, key: string): Value {
    if key in m then m[key] else Null
  }

  // ---------------------------------------------------------------- setData

  /** The messages `setData` collects for a batch: one per key whose rule
      recorded one. */
  function BatchErrors(info: TypeInfo, dataKeys: set<string>, batch: map<string, Value>, env: Env): map<string, string> {
    ErrorsBut(info, dataKeys, batch, env, {})
  }

  /** The messages recorded once the batch keys outside `pending` have been
      validated. */
  function ErrorsBut(info: TypeInfo, dataKeys: set<string>, batch: map<string, Value>, env: Env,
                     pending: set<string>): map<string, string> {
    map k | k in batch && k !in pending && Check(info, dataKeys, k, batch[k], env).error.Some? ::
      Check(info, dataKeys, k, batch[k], env).error.value
  }

  /** Validating one more key adds its message, if it records one. */
  lemma ErrorsButStep(info: TypeInfo, dataKeys: set<string>, batch: map<string, Value>, env: Env,
                      pending: set<string>, key: string)
    requires key in pending && key in batch
    ensures var verdict := Check(info, dataKeys, key, batch[key], env);
      ErrorsBut(info, dataKeys, batch, env, pending - {key}) ==
        if verdict.error.Some? then ErrorsBut(info, dataKeys, batch, env, pending)[key := verdict.error.value]
        else ErrorsBut(info, dataKeys, batch, env, pending)
  {
  }

  lemma ErrorsButAll(info: TypeInfo, dataKeys: set<string>, batch: map<string, Value>, env: Env)
    ensures ErrorsBut(info, dataKeys, batch, env, batch.Keys) == map[]
  {
  }

  /** The value `setData` stores for an accepted one: '' becomes null, and a
      'json' value that is not null and not a decodable string is stored as
      its JSON encoding. */
  function Normalise(kind: PropertyType, v: Value, env: Env): Value {
    if v == Str("") then Null
    else if kind == Json && v != Null && (!v.Str? || env.jsonDecode(v.s) == Null) then Str(env.jsonEncode(v))
    else v
  }

  /** Every value of the batch, normalised. */
  function Normalised(info: TypeInfo, batch: map<string, Value>, env: Env): map<string, Value> {
    NormalisedBut(info, batch, env, {})
  }

  /** The normalised values of the batch keys outside `pending`. */
  function NormalisedBut(info: TypeInfo, batch: map<string, Value>, env: Env, pending: set<string>): map<string, Value> {
    map k | k in batch && k !in pending :: Normalise(KindOf(info, k), batch[k], env)
  }

  /** Writing one more normalised value over the data. */
  lemma NormalisedButStep(data: map<string, Value>, info: TypeInfo, batch: map<string, Value>, env: Env,
                          pending: set<string>, key: string)
    requires key in pending && key in batch
    ensures data + NormalisedBut(info, batch, env, pending - {key}) ==
      (data + NormalisedBut(info, batch, env, pending))[key := Normalise(KindOf(info, key), batch[key], env)]
  {
  }

  lemma NormalisedButAll(info: TypeInfo, batch: map<string, Value>, env: Env)
    ensures NormalisedBut(info, batch, env, batch.Keys) == map[]
  {
  }

  /** What `getData` hands out for a stored value: 'json' strings decoded. */
  function Decoded(kind: PropertyType, v: Value, env: Env): Value {
    if kind == Json && v.Str? then env.jsonDecode(v.s) else v
  }

  /** A batch is accepted exactly when no key recorded a message, whatever
      the rules returned. */
  lemma BatchAcceptedIffNoMessage(info: TypeInfo, dataKeys: set<string>, batch: map<string, Value>, env: Env)
    ensures BatchErrors(info, dataKeys, batch, env) == map[] <==>
      forall k :: k in batch ==> Check(info, dataKeys, k, batch[k], env).error.None?
  {
    if exists k :: k in batch && Check(info, dataKeys, k, batch[k], env).error.Some? {
      var k :| k in batch && Check(info, dataKeys, k, batch[k], env).error.Some?;
      assert k in BatchErrors(info, dataKeys, batch, env);
    }
  }

  /** An accepted batch only names declared properties. */
  lemma AcceptedBatchIsDeclared(info: TypeInfo, dataKeys: set<string>, batch: map<string, Value>, env: Env)
    requires BatchErrors(info, dataKeys, batch, env) == map[]
    ensures batch.Keys <= info.properties.Keys && batch.Keys <= dataKeys
  {
    BatchAcceptedIffNoMessage(info, dataKeys, batch, env);
  }

  /** A key that is not a declared property rejects the whole batch with
      'Key does not exists'. */
  lemma UndeclaredKeyRejectsBatch(info: TypeInfo, dataKeys: set<string>, batch: map<string, Value>, env: Env, key: string)
    requires key in batch && key !in info.properties
    ensures key in BatchErrors(info, dataKeys, batch, env)
    ensures BatchErrors(info, dataKeys, batch, env)[key] == KeyMissing
  {
  }

  /** A required property given null or '' rejects the batch with
      'Value is empty' under its key; an optional one records nothing. */
  lemma EmptyValueRule(info: TypeInfo, dataKeys: set<string>, batch: map<string, Value>, env: Env, key: string)
    requires key in batch && key in info.properties && key in dataKeys
    requires batch[key] == Null || batch[key] == Str("")
    ensures info.properties[key].required ==>
      key in BatchErrors(info, dataKeys, batch, env) && BatchErrors(info, dataKeys, batch, env)[key] == ValueEmpty
    ensures !info.properties[key].required ==> key !in BatchErrors(info, dataKeys, batch, env)
  {
  }

  /** A project the user may not access rejects the batch even though its
      rule reports acceptance. */
  lemma PermissionFailureRejectsBatch(info: TypeInfo, dataKeys: set<string>, batch: map<string, Value>, env: Env, key: string)
    requires key in batch && ReachesTypeRule(info, dataKeys, key, batch[key], Project)
    requires env.projectExists(batch[key]) && env.userId.Some? && !env.superUser && !env.accountManager
    requires !env.hasPrivileges(batch[key], env.userId.value)
    ensures Check(info, dataKeys, key, batch[key], env).accepted
    ensures BatchErrors(info, dataKeys, batch, env) != map[]
  {
    ProjectPermissionFailure(info, dataKeys, key, batch[key], env);
    assert key in BatchErrors(info, dataKeys, batch, env);
  }

  /** A rule that refuses without a message (an unknown type tag, a value
      outside the choices, an empty optional value) does not count: the
      batch records the same messages with or without that key, so it is
      accepted or rejected alike. */
  lemma SilentRefusalDoesNotReject(info: TypeInfo, dataKeys: set<string>, batch: map<string, Value>, env: Env, key: string)
    requires key in batch && Check(info, dataKeys, key, batch[key], env) == Verdict(false, None)
    ensures key !in BatchErrors(info, dataKeys, batch, env)
    ensures BatchErrors(info, dataKeys, batch - {key}, env) == BatchErrors(info, dataKeys, batch, env)
  {
    var without := BatchErrors(info, dataKeys, batch - {key}, env);
    var with := BatchErrors(info, dataKeys, batch, env);
    assert without.Keys == with.Keys;
    forall k | k in without
      ensures without[k] == with[k]
    {
      assert (batch - {key})[k] == batch[k];
    }
  }

  /** Normalisation: '' becomes null; a 'json' value that is neither null
      nor a decodable string becomes its encoding; anything else is kept. */
  lemma NormaliseRules(kind: PropertyType, v: Value, env: Env)
    ensures v == Str("") ==> Normalise(kind, v, env) == Null
    ensures v != Str("") && kind == Json && v != Null && !v.Str? ==> Normalise(kind, v, env) == Str(env.jsonEncode(v))
    ensures v != Str("") && kind == Json && v.Str? && env.jsonDecode(v.s) == Null ==> Normalise(kind, v, env) == Str(env.jsonEncode(v))
    ensures v != Str("") && kind == Json && v.Str? && env.jsonDecode(v.s) != Null ==> Normalise(kind, v, env) == v
    ensures v != Str("") && kind != Json ==> Normalise(kind, v, env) == v
  {
  }

  /** A structured value given to a 'json' property comes back from
      `getData` unchanged whenever decoding undoes encoding for it. */
  lemma JsonRoundTrip(v: Value, env: Env)
    requires v != Null && !v.Str?
    requires env.jsonDecode(env.jsonEncode(v)) == v
    ensures Decoded(Json, Normalise(Json, v, env), env) == v
  {
  }

  /** Any other property hands back what it was given, with '' read as null. */
  lemma PlainRoundTrip(kind: PropertyType, v: Value, env: Env)
    requires kind != Json
    ensures Decoded(kind, Normalise(kind, v, env), env) == if v == Str("") then Null else v
  {
  }

  // ------------------------------------------------------------------- save

  /** `save` runs only after a `setData` that recorded no message. */
  predicate Savable(errors: Option<map<string, string>>) {
    errors.Some? && errors.value == map[]
  }

  /** `$this->oldData[$key]`, null when there is no snapshot or no key. */
  function OldValue(oldData: Option<map<string, Value>>, key: string): Value {
    if oldData.Some? then Lookup(oldData.value, key) else Null
  }

  /** The keys whose value is not identical to the snapshot's. */
  function ChangedKeys(data: map<string, Value>, oldData: Option<map<string, Value>>): set<string> {
    set k | k in data && data[k] != OldValue(oldData, k)
  }

  /** The row of the update branch: 'updated' and then every changed key. */
  function UpdateRow(now: Int64, data: map<string, Value>, oldData: Option<map<string, Value>>): map<string, Value> {
    map["updated" := Int(now)] + ChangedBut(data, oldData, {})
  }

  /** The changed keys outside `pending`, with their current values. */
  function ChangedBut(data: map<string, Value>, oldData: Option<map<string, Value>>, pending: set<string>): map<string, Value> {
    map k | k in data && k !in pending && data[k] != OldValue(oldData, k) :: data[k]
  }

  /** Comparing one more key with the snapshot. */
  lemma ChangedButStep(now: Int64, data: map<string, Value>, oldData: Option<map<string, Value>>,
                       pending: set<string>, key: string)
    requires key in pending && key in data
    ensures map["updated" := Int(now)] + ChangedBut(data, oldData, pending - {key}) ==
      if data[key] != OldValue(oldData, key) then (map["updated" := Int(now)] + ChangedBut(data, oldData, pending))[key := data[key]]
      else map["updated" := Int(now)] + ChangedBut(data, oldData, pending)
  {
  }

  lemma ChangedButAll(data: map<string, Value>, oldData: Option<map<string, Value>>)
    ensures ChangedBut(data, oldData, data.Keys) == map[]
  {
  }

  /** The value of `constant('USERID')`, when defined. */
  function UserConstant(env: Env): Option<Value> {
    if env.userId.Some? then Some(Str(env.userId.value)) else None
  }

  /** The roles the insert branch fills, each with its constant. */
  function SpecialRoles(env: Env): seq<(string, Option<Value>)> {
    [("author", UserConstant(env)), ("project", env.projectId)]
  }

  /** One role: when its constant is defined and the type declares the
      role, the role's column gets the constant if the row's value is empty. */
  function FillSpecial(row: map<string, Value>, info: TypeInfo, role: string, constant: Option<Value>): map<string, Value> {
    if constant.Some? && role in info.specialKeys && IsEmpty(Lookup(row, info.specialKeys[role])) then
      row[info.specialKeys[role] := constant.value]
    else
      row
  }

  function FillRoles(row: map<string, Value>, info: TypeInfo, roles: seq<(string, Option<Value>)>): map<string, Value>
    decreases |roles|
  {
    if roles == [] then row else FillRoles(FillSpecial(row, info, roles[0].0, roles[0].1), info, roles[1..])
  }

  /** The row of the insert branch: 'created' and 'updated' (which win over
      properties of the same name), every property, then the special keys. */
  function InsertRow(info: TypeInfo, data: map<string, Value>, env: Env): map<string, Value> {
    FillRoles(data + map["created" := Int(env.now), "updated" := Int(env.now)], info, SpecialRoles(env))
  }

  /** The update writes 'updated' and exactly the keys whose value is not
      identical to the snapshot, each with its current value. */
  lemma {:induction false} UpdateRowColumns(now: Int64, data: map<string, Value>, oldData: Option<map<string, Value>>)
    ensures UpdateRow(now, data, oldData).Keys == {"updated"} + ChangedKeys(data, oldData)
    ensures forall k :: k in ChangedKeys(data, oldData) ==> UpdateRow(now, data, oldData)[k] == data[k]
    ensures "updated" !in ChangedKeys(data, oldData) ==> UpdateRow(now, data, oldData)["updated"] == Int(now)
  {
  }

  /** Saving a record whose data equals its snapshot writes only 'updated'. */
  lemma {:induction false} CleanUpdateWritesOnlyTimestamp(now: Int64, data: map<string, Value>)
    ensures UpdateRow(now, data, Some(data)) == map["updated" := Int(now)]
  {
    assert ChangedKeys(data, Some(data)) == {};
  }

  /** After a load, changing one property to a new value makes the update
      write exactly that property and 'updated'. */
  lemma {:induction false} SingleChangeWritesOneColumn(now: Int64, snapshot: map<string, Value>, key: string, v: Value)
    requires key in snapshot && snapshot[key] != v
    ensures UpdateRow(now, snapshot[key := v], Some(snapshot)).Keys == {"updated", key}
  {
    var data := snapshot[key := v];
    assert ChangedKeys(data, Some(snapshot)) == {key} by {
      forall k | k in data ensures (data[k] != OldValue(Some(snapshot), k)) <==> k == key {
        assert k in snapshot;
      }
    }
  }

  /** The special-key roles only touch the column of a declared role. */
  lemma {:induction false} FillRolesKeepsOtherColumns(row: map<string, Value>, info: TypeInfo,
                                                     roles: seq<(string, Option<Value>)>, column: string)
    requires forall i :: 0 <= i < |roles| ==> roles[i].0 !in info.specialKeys || info.specialKeys[roles[i].0] != column
    ensures column in FillRoles(row, info, roles) <==> column in row
    ensures column in row ==> FillRoles(row, info, roles)[column] == row[column]
    ensures row.Keys <= FillRoles(row, info, roles).Keys
    decreases |roles|
  {
    if roles != [] {
      var next := FillSpecial(row, info, roles[0].0, roles[0].1);
      FillRolesKeepsOtherColumns(next, info, roles[1..], column);
    }
  }

  /** `column` is the column of the author or the project role, the only
      roles the insert fills. */
  predicate FilledRoleColumn(info: TypeInfo, column: string) {
    ("author" in info.specialKeys && info.specialKeys["author"] == column) ||
    ("project" in info.specialKeys && info.specialKeys["project"] == column)
  }

  /** The insert row has 'created' = 'updated' = now and every property
      with its value, unless the property is the author or project role's
      column; a label or name column keeps the data's value. */
  lemma InsertRowColumns(info: TypeInfo, data: map<string, Value>, env: Env)
    requires !FilledRoleColumn(info, "created") && !FilledRoleColumn(info, "updated")
    ensures var row := InsertRow(info, data, env);
      data.Keys + {"created", "updated"} <= row.Keys &&
      row["created"] == Int(env.now) && row["updated"] == Int(env.now) &&
      forall k :: k in data && k != "created" && k != "updated" && !FilledRoleColumn(info, k) ==>
        row[k] == data[k]
  {
    var base := data + map["created" := Int(env.now), "updated" := Int(env.now)];
    var roles := SpecialRoles(env);
    FillRolesKeepsOtherColumns(base, info, roles, "created");
    FillRolesKeepsOtherColumns(base, info, roles, "updated");
    forall k | k in data
      ensures k in InsertRow(info, data, env)
    {
      FillRolesGrows(base, info, roles);
    }
    forall k | k in data && k != "created" && k != "updated" && !FilledRoleColumn(info, k)
      ensures InsertRow(info, data, env)[k] == data[k]
    {
      FillRolesKeepsOtherColumns(base, info, roles, k);
    }
  }

  /** The special roles only add or overwrite columns, never drop one. */
  lemma {:induction false} FillRolesGrows(row: map<string, Value>, info: TypeInfo, roles: seq<(string, Option<Value>)>)
    ensures row.Keys <= FillRoles(row, info, roles).Keys
    decreases |roles|
  {
    if roles != [] {
      FillRolesGrows(FillSpecial(row, info, roles[0].0, roles[0].1), info, roles[1..]);
    }
  }

  /** The author column gets `USERID` exactly when the type declares the
      role, the constant is defined and the property is empty; a value the
      caller supplied is never overwritten. */
  lemma InsertFillsAuthor(info: TypeInfo, data: map<string, Value>, env: Env)
    requires "author" in info.specialKeys && info.specialKeys["author"] in data
    requires var col := info.specialKeys["author"];
      col != "created" && col != "updated" && ("project" !in info.specialKeys || info.specialKeys["project"] != col)
    ensures var col := info.specialKeys["author"];
      var row := InsertRow(info, data, env);
      col in row &&
      (env.userId.Some? && IsEmpty(Lookup(data, col)) ==> row[col] == Str(env.userId.value)) &&
      (env.userId.None? || !IsEmpty(Lookup(data, col)) ==> row[col] == Lookup(data, col))
  {
    var col := info.specialKeys["author"];
    var base := data + map["created" := Int(env.now), "updated" := Int(env.now)];
    assert Lookup(base, col) == Lookup(data, col);
    var afterAuthor := FillSpecial(base, info, "author", UserConstant(env));
    assert SpecialRoles(env)[1..] == [("project", env.projectId)];
    assert InsertRow(info, data, env) == FillRoles(afterAuthor, info, [("project", env.projectId)]);
    FillRolesKeepsOtherColumns(afterAuthor, info, [("project", env.projectId)], col);
  }

  /** The project column gets `PROJECT_ID` exactly when the type declares
      the role, the constant is defined and the column is still empty after
      the author role; when both roles share a column, a filled-in author
      is kept. */
  lemma InsertFillsProject(info: TypeInfo, data: map<string, Value>, env: Env)
    requires "project" in info.specialKeys && info.specialKeys["project"] in data
    requires info.specialKeys["project"] != "created" && info.specialKeys["project"] != "updated"
    ensures var col := info.specialKeys["project"];
      var row := InsertRow(info, data, env);
      var afterAuthor :=
        if "author" in info.specialKeys && info.specialKeys["author"] == col &&
           env.userId.Some? && IsEmpty(data[col])
        then Str(env.userId.value) else data[col];
      col in row &&
      (env.projectId.Some? && IsEmpty(afterAuthor) ==> row[col] == env.projectId.value) &&
      (env.projectId.None? || !IsEmpty(afterAuthor) ==> row[col] == afterAuthor)
  {
    var col := info.specialKeys["project"];
    var base := data + map["created" := Int(env.now), "updated" := Int(env.now)];
    assert Lookup(base, col) == data[col];
    var afterAuthor := FillSpecial(base, info, "author", UserConstant(env));
    var afterProject := FillSpecial(afterAuthor, info, "project", env.projectId);
    assert SpecialRoles(env)[1..] == [("project", env.projectId)];
    assert InsertRow(info, data, env) == FillRoles(afterAuthor, info, [("project", env.projectId)]);
    assert [("project", env.projectId)][1..] == [];
    assert FillRoles(afterAuthor, info, [("project", env.projectId)]) == FillRoles(afterProject, info, []);
  }

  // ------------------------------------------------------------------- load

  /** `load` copies every column of the row that is a key of the data. */
  function Overlay(data: map<string, Value>, row: map<string, Value>): map<string, Value> {
    OverlayBut(data, row, {})
  }

  /** The data after the row's columns outside `pending` have been copied. */
  function OverlayBut(data: map<string, Value>, row: map<string, Value>, pending: set<string>): map<string, Value> {
    map k | k in data :: if k in row && k !in pending then row[k] else data[k]
  }

  /** Copying one more column of the row. */
  lemma OverlayButStep(data: map<string, Value>, row: map<string, Value>, pending: set<string>, key: string)
    requires key in pending && key in row
    ensures OverlayBut(data, row, pending - {key}) ==
      if key in data then OverlayBut(data, row, pending)[key := row[key]] else OverlayBut(data, row, pending)
  {
  }

  lemma OverlayButAll(data: map<string, Value>, row: map<string, Value>)
    ensures OverlayBut(data, row, row.Keys) == data
  {
  }

  // ----------------------------------------------------------------- delete

  /** The data after the keys outside `pending` have been reset to null. */
  function ResetBut(data: map<string, Value>, pending: set<string>): map<string, Value> {
    map k | k in data :: if k in pending then data[k] else Null
  }

  /** Resetting one more key. */
  lemma ResetButStep(data: map<string, Value>, pending: set<string>, key: string)
    requires key in pending && key in data
    ensures ResetBut(data, pending - {key}) == ResetBut(data, pending)[key := Null]
  {
  }

  lemma ResetButEnds(data: map<string, Value>)
    ensures ResetBut(data, data.Keys) == data
    ensures ResetBut(data, {}) == map k | k in data :: Null
  {
  }

  /** A load keeps the key set, takes the row's value for every key the row
      has, and ignores the row's other columns. */
  lemma OverlayColumns(data: map<string, Value>, row: map<string, Value>)
    ensures Overlay(data, row).Keys == data.Keys
    ensures forall k :: k in data && k in row ==> Overlay(data, row)[k] == row[k]
    ensures forall k :: k in data && k !in row ==> Overlay(data, row)[k] == data[k]
  {
  }
}
