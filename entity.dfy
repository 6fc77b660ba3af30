/** `REDCapEntity\Entity`: a record of one entity type, with its current
    data, the snapshot taken at the last load or save, and the messages of
    the last `setData`. */
module Entities {
  import opened Wrappers
  import opened PhpValues
  import opened Schema
  import opened Environment
  import opened Validator
  import opened SqlFormat
  import opened Storage
  import opened EntityRules

  /** `redcap_entity_<type>`, the table of an entity type. */
  function TableNameOf(typeKey: string, env: Env): string {
    "redcap_entity_" + env.escape(typeKey)
  }

  /** The loop of the update branch of `save`: 'updated', then every key
      whose value is not identical to the snapshot's. */
  method ChangedColumns(now: Int64, data: map<string, Value>, oldData: Option<map<string, Value>>)
    returns (row: map<string, Value>)
    ensures row == UpdateRow(now, data, oldData)
  {
    row := map["updated" := Int(now)];
    var pending := data.Keys;
    ChangedButAll(data, oldData);
    while pending != {}
      invariant pending <= data.Keys
      invariant row == map["updated" := Int(now)] + ChangedBut(data, oldData, pending)
      decreases pending
    {
      var key :| key in pending;
      ChangedButStep(now, data, oldData, pending, key);
      if data[key] != OldValue(oldData, key) {
        row := row[key := data[key]];
      }
      pending := pending - {key};
    }
  }

  /** The second loop of `setData`: each value of an accepted batch,
      normalised, written over the data. */
  method WriteBatch(data: map<string, Value>, info: TypeInfo, batch: map<string, Value>, env: Env)
    returns (written: map<string, Value>)
    ensures written == data + Normalised(info, batch, env)
  {
    written := data;
    var pending := batch.Keys;
    NormalisedButAll(info, batch, env);
    while pending != {}
      invariant pending <= batch.Keys
      invariant written == data + NormalisedBut(info, batch, env, pending)
      decreases pending
    {
      var key :| key in pending;
      NormalisedButStep(data, info, batch, env, pending, key);
      var value := NormaliseValue(KindOf(info, key), batch[key], env);
      NormaliseRules(KindOf(info, key), batch[key], env);
      written := written[key := value];
      pending := pending - {key};
    }
  }

  /** The body of the second loop of `setData` for one value, the
      step-by-step form of `EntityRules.Normalise`: '' becomes null, a
      'json' value that is neither null nor a decodable string becomes its
      encoding, and anything else is kept. */
  method NormaliseValue(kind: PropertyType, given: Value, env: Env) returns (value: Value)
    ensures given == Str("") ==> value == Null
    ensures given != Str("") && kind == Json && given != Null && (!given.Str? || env.jsonDecode(given.s) == Null) ==>
      value == Str(env.jsonEncode(given))
    ensures given != Str("") && (kind != Json || given == Null || (given.Str? && env.jsonDecode(given.s) != Null)) ==>
      value == given
  {
    value := given;
    if value == Str("") {
      value := Null;
    } else if kind == Json && value != Null && (!value.Str? || env.jsonDecode(value.s) == Null) {
      value := Str(env.jsonEncode(value));
    }
  }

  /** The loop of the insert branch of `save` over the special roles. */
  method FillSpecialKeys(row: map<string, Value>, info: TypeInfo, env: Env) returns (filled: map<string, Value>)
    ensures filled == FillRoles(row, info, SpecialRoles(env))
  {
    var roles := SpecialRoles(env);
    filled := row;
    for i := 0 to |roles|
      invariant FillRoles(filled, info, roles[i..]) == FillRoles(row, info, roles)
    {
      var (role, constant) := roles[i];
      if constant.Some? && role in info.specialKeys {
        var column := info.specialKeys[role];
        if IsEmpty(Lookup(filled, column)) {
          filled := filled[column := constant.value];
        }
      }
      assert roles[i..][1..] == roles[i + 1..];
    }
  }

  /** The loop of `load`: every column of the row that is a key of the
      data is copied over it. */
  method CopyColumns(data: map<string, Value>, row: map<string, Value>) returns (loaded: map<string, Value>)
    ensures loaded == Overlay(data, row)
  {
    loaded := data;
    var pending := row.Keys;
    OverlayButAll(data, row);
    while pending != {}
      invariant pending <= row.Keys
      invariant loaded == OverlayBut(data, row, pending)
      decreases pending
    {
      var key :| key in pending;
      OverlayButStep(data, row, pending, key);
      if key in loaded {
        loaded := loaded[key := row[key]];
      }
      pending := pending - {key};
    }
  }

  /** The loop of `delete`: every key mapped to null. */
  method ResetAll(data: map<string, Value>) returns (reset: map<string, Value>)
    ensures reset == map k | k in data :: Null
  {
    reset := data;
    var pending := data.Keys;
    ResetButEnds(data);
    while pending != {}
      invariant pending <= data.Keys
      invariant reset == ResetBut(data, pending)
      decreases pending
    {
      var key :| key in pending;
      ResetButStep(data, pending, key);
      reset := reset[key := Null];
      pending := pending - {key};
    }
  }

  class Entity {
    var id: Option<int>
    var created: Value
    var updated: Value
    var data: map<string, Value>
    var oldData: Option<map<string, Value>>
    var errors: Option<map<string, string>>
    const typeKey: string
    const info: TypeInfo
    const db: Database

    /** The data has exactly the declared properties as keys. */
    ghost predicate Valid()
      reads this
    {
      data.Keys == info.properties.Keys
    }

    /** The first half of `__construct`: every declared property starts as
        null; nothing is persisted, validated or snapshotted. */
    constructor (db: Database, typeKey: string, info: TypeInfo)
      ensures Valid()
      ensures data == map k | k in info.properties :: Null
      ensures id.None? && created == Null && updated == Null && oldData.None? && errors.None?
      ensures this.db == db && this.typeKey == typeKey && this.info == info
    {
      var initial: map<string, Value> := map[];
      var pending := info.properties.Keys;
      while pending != {}
        invariant pending <= info.properties.Keys
        invariant initial == map k | k in info.properties.Keys - pending :: Null
        decreases pending
      {
        var key :| key in pending;
        initial := initial[key := Null];
        pending := pending - {key};
      }
      this.db := db;
      this.typeKey := typeKey;
      this.info := info;
      data := initial;
      id, created, updated, oldData, errors := None, Null, Null, None, None;
    }

    /** `validateProperty`: run the rule and record its message, if any. */
    method ValidateProperty(key: string, value: Value, env: Env) returns (accepted: bool)
      modifies this`errors
      ensures var verdict := Check(info, data.Keys, key, value, env);
        accepted == verdict.accepted &&
        errors == if verdict.error.Some? then Some(old(if errors.Some? then errors.value else map[])[key := verdict.error.value])
                  else old(errors)
    {
      var verdict := Check(info, data.Keys, key, value, env);
      if verdict.error.Some? {
        var recorded := if errors.Some? then errors.value else map[];
        errors := Some(recorded[key := verdict.error.value]);
      }
      accepted := verdict.accepted;
    }

    /** The first half of `setData`: the messages are reset, then every
        entry of the batch is validated and its message, if any, recorded. */
    method ValidateBatch(batch: map<string, Value>, env: Env)
      modifies this`errors
      ensures errors == Some(BatchErrors(info, data.Keys, batch, env))
    {
      errors := Some(map[]);
      var pending := batch.Keys;
      ErrorsButAll(info, data.Keys, batch, env);
      while pending != {}
        invariant pending <= batch.Keys
        invariant errors == Some(ErrorsBut(info, data.Keys, batch, env, pending))
        decreases pending
      {
        var key :| key in pending;
        ErrorsButStep(info, data.Keys, batch, env, pending, key);
        var _ := ValidateProperty(key, batch[key], env);
        pending := pending - {key};
      }
    }

    /** `setData`: validate the whole batch, deciding on the recorded
        messages alone; only a batch without messages is written, with its
        values normalised, and keys outside the batch keep their values. */
    method SetData(batch: map<string, Value>, env: Env) returns (ok: bool)
      requires Valid()
      modifies this
      ensures Valid()
      ensures errors == Some(BatchErrors(info, old(data).Keys, batch, env))
      ensures ok <==> BatchErrors(info, old(data).Keys, batch, env) == map[]
      ensures data == if ok then old(data) + Normalised(info, batch, env) else old(data)
      ensures id == old(id) && created == old(created) && updated == old(updated) && oldData == old(oldData)
    {
      ValidateBatch(batch, env);
      if errors.value != map[] {
        return false;
      }
      AcceptedBatchIsDeclared(info, old(data).Keys, batch, env);

      data := WriteBatch(data, info, batch, env);
      return true;
    }

    /** `create`: only for an entity without an id; `setData`, then `save`. */
    method Create(batch: map<string, Value>, env: Env) returns (r: Option<int>)
      requires Valid() && db.Valid()
      modifies this, db
      ensures Valid() && db.Valid()
      ensures Truthy(old(id)) ==> r.None? && unchanged(this) && db.tables == old(db.tables)
      ensures !Truthy(old(id)) && BatchErrors(info, old(data).Keys, batch, env) != map[] ==>
        r.None? && data == old(data) && errors == Some(BatchErrors(info, old(data).Keys, batch, env)) &&
        id == old(id) && created == old(created) && updated == old(updated) && oldData == old(oldData) &&
        db.tables == old(db.tables)
      ensures !Truthy(old(id)) && BatchErrors(info, old(data).Keys, batch, env) == map[] ==>
        data == old(data) + Normalised(info, batch, env) && errors == Some(map[]) &&
        db.tables == AfterInsert(old(db.tables), TableNameOf(typeKey, env), RenderRow(InsertRow(info, data, env), env), db.evalLiteral) &&
        (r.Some? <==> TableNameOf(typeKey, env) in old(db.tables)) &&
        (r.Some? ==> r == id && r.value == old(db.tables)[TableNameOf(typeKey, env)].nextId && r.value >= 1 &&
                     created == Null && updated == Null && oldData == Some(data)) &&
        (r.None? ==> id == old(id) && created == old(created) && updated == old(updated) && oldData == old(oldData))
    {
      if Truthy(id) {
        return None;
      }
      var ok := SetData(batch, env);
      if !ok {
        return None;
      }
      r := Save(env);
    }

    /** `save`: refused unless the last `setData` recorded no message. With
        an id, the changed columns and 'updated' are written; without one, a
        full row is inserted and the generated id taken. On success the
        snapshot becomes the data and `updated` is read from an undefined
        variable and so becomes null; `created` becomes null the same way on
        insert only, and an update keeps it. */
    method Save(env: Env) returns (r: Option<int>)
      requires Valid() && db.Valid()
      modifies this, db
      ensures Valid() && db.Valid()
      ensures data == old(data) && errors == old(errors)
      ensures !Savable(old(errors)) ==> r.None? && unchanged(this) && db.tables == old(db.tables)
      ensures Savable(old(errors)) && Truthy(old(id)) ==>
        db.tables == AfterUpdate(old(db.tables), TableNameOf(typeKey, env), old(id).value,
                                 RenderRow(UpdateRow(env.now, data, old(oldData)), env), db.evalLiteral) &&
        (r.Some? <==> TableNameOf(typeKey, env) in old(db.tables)) &&
        id == old(id) && created == old(created) &&
        (r.Some? ==> r == id && updated == Null && oldData == Some(data)) &&
        (r.None? ==> updated == old(updated) && oldData == old(oldData))
      ensures Savable(old(errors)) && !Truthy(old(id)) ==>
        db.tables == AfterInsert(old(db.tables), TableNameOf(typeKey, env), RenderRow(InsertRow(info, data, env), env), db.evalLiteral) &&
        (r.Some? <==> TableNameOf(typeKey, env) in old(db.tables)) &&
        (r.Some? ==> r == id && r.value == old(db.tables)[TableNameOf(typeKey, env)].nextId && r.value >= 1 &&
                     created == Null && updated == Null && oldData == Some(data)) &&
        (r.None? ==> id == old(id) && created == old(created) && updated == old(updated) && oldData == old(oldData))
    {
      if !(errors.Some? && errors.value == map[]) {
        return None;
      }
      var name := TableNameOf(typeKey, env);
      if Truthy(id) {
        var row := ChangedColumns(env.now, data, oldData);
        var cells := FormatQueryValues(row, env);
        var ok := db.Update(name, id.value, cells);
        if !ok {
          return None;
        }
      } else {
        var row := FillSpecialKeys(data + map["created" := Int(env.now), "updated" := Int(env.now)], info, env);
        var cells := FormatQueryValues(row, env);
        var newId := db.Insert(name, cells);
        if newId.None? {
          return None;
        }
        id := newId;
        created := Null;
      }
      updated := Null;
      oldData := Some(data);
      r := id;
    }

    /** `load`: fetch the row by id; on success take the id, the timestamps
        and every column that is a key of the data, and snapshot the data. */
    method Load(requested: int, env: Env) returns (ok: bool)
      requires Valid()
      modifies this
      ensures Valid()
      ensures ok <==> Fetch(db.tables, TableNameOf(typeKey, env), requested).Some?
      ensures !ok ==> unchanged(this)
      ensures ok ==>
        var row := Fetch(db.tables, TableNameOf(typeKey, env), requested).value;
        id == Some(requested) && created == Lookup(row, "created") && updated == Lookup(row, "updated") &&
        data == Overlay(old(data), row) && oldData == Some(data) && errors == old(errors)
    {
      var found := db.Select(TableNameOf(typeKey, env), requested);
      if found.None? {
        return false;
      }
      var row := found.value;
      id := Some(requested);
      created := Lookup(row, "created");
      updated := Lookup(row, "updated");
      data := CopyColumns(data, row);
      oldData := Some(data);
      return true;
    }

    /** `delete`: without an id nothing is queried; otherwise the row is
        deleted and the object reset, keeping its keys, all mapped to null. */
    method Delete(env: Env) returns (ok: bool)
      requires Valid() && db.Valid()
      modifies this, db
      ensures Valid() && db.Valid()
      ensures ok <==> Truthy(old(id)) && TableNameOf(typeKey, env) in old(db.tables)
      ensures !ok ==> unchanged(this) && db.tables == old(db.tables)
      ensures ok ==>
        db.tables == AfterDelete(old(db.tables), TableNameOf(typeKey, env), old(id).value) &&
        id.None? && created == Null && updated == Null && errors.None? && oldData.None? &&
        data == map k | k in old(data) :: Null
    {
      if !Truthy(id) {
        return false;
      }
      ok := db.Delete(TableNameOf(typeKey, env), id.value);
      if !ok {
        return false;
      }
      id, created, updated, errors, oldData := None, Null, Null, None, None;
      data := ResetAll(data);
    }

    /** `getData`: the data with 'json' strings decoded. */
    method GetData(env: Env) returns (view: map<string, Value>)
      ensures view.Keys == data.Keys
      ensures forall k :: k in data ==> view[k] == Decoded(KindOf(info, k), data[k], env)
    {
      view := map[];
      var pending := data.Keys;
      while pending != {}
        invariant pending <= data.Keys
        invariant view.Keys == data.Keys - pending
        invariant forall k :: k in view ==> view[k] == Decoded(KindOf(info, k), data[k], env)
        decreases pending
      {
        var key :| key in pending;
        var value := data[key];
        if KindOf(info, key) == Json && value.Str? {
          value := env.jsonDecode(value.s);
        }
        view := view[key := value];
        pending := pending - {key};
      }
    }

    /** `getLabel`: false without an id, '#<id>' when the type has no label
        role, otherwise the label property's value. */
    function GetLabel(): (shown: Value)
      reads this
      ensures !Truthy(id) ==> shown == Bool(false)
      ensures Truthy(id) && "label" !in info.specialKeys ==> shown == Str("#" + IntToString(id.value))
      ensures Truthy(id) && "label" in info.specialKeys ==> shown == Lookup(data, info.specialKeys["label"])
    {
      if !Truthy(id) then Bool(false)
      else if "label" !in info.specialKeys then Str("#" + IntToString(id.value))
      else Lookup(data, info.specialKeys["label"])
    }
  }

  /** `new Entity($factory, $type, $id)`: an unknown type and an id that
      does not load are exceptions; otherwise a fresh entity, loaded when an
      id was given. */
  method Instantiate(db: Database, registry: map<string, TypeInfo>, typeKey: string, id: Option<int>, env: Env)
    returns (r: Result<Entity>)
    ensures typeKey !in registry ==> r == Thrown("Invalid entity type.")
    ensures typeKey in registry && Truthy(id) && Fetch(db.tables, TableNameOf(typeKey, env), id.value).None? ==>
      r == Thrown("The entity does not exist.")
    ensures r.Ok? ==>
      fresh(r.value) && r.value.Valid() && r.value.db == db && r.value.typeKey == typeKey &&
      r.value.info == registry[typeKey] && r.value.errors.None?
    ensures r.Ok? && !Truthy(id) ==>
      r.value.id.None? && r.value.oldData.None? && r.value.created == Null && r.value.updated == Null &&
      r.value.data == map k | k in registry[typeKey].properties :: Null
    ensures r.Ok? && Truthy(id) ==>
      var row := Fetch(db.tables, TableNameOf(typeKey, env), id.value).value;
      r.value.id == id && r.value.oldData == Some(r.value.data) &&
      r.value.created == Lookup(row, "created") && r.value.updated == Lookup(row, "updated") &&
      r.value.data == Overlay(map k | k in registry[typeKey].properties :: Null,
                              Fetch(db.tables, TableNameOf(typeKey, env), id.value).value)
    ensures typeKey in registry && (!Truthy(id) || Fetch(db.tables, TableNameOf(typeKey, env), id.value).Some?) ==> r.Ok?
  {
    if typeKey !in registry {
      return Thrown("Invalid entity type.");
    }
    var entity := new Entity(db, typeKey, registry[typeKey]);
    if Truthy(id) {
      var loaded := entity.Load(id.value, env);
      if !loaded {
        return Thrown("The entity does not exist.");
      }
    }
    return Ok(entity);
  }
}
