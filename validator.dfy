/** `Entity::validateProperty`: the per-type acceptance rules. The rules
    decide two things that the caller uses separately: the boolean the
    method returns, and the message it records under the key in
    `$this->errors`. */
module Validator {
  import opened Wrappers
  import opened PhpValues
  import opened Schema
  import opened Environment

  const KeyMissing := "Key does not exists"
  const ValueEmpty := "Value is empty"
  const EmailInvalid := "Email is invalid"
  const NotString := "Not String"
  const WrongDate := "Wrong date format provided"
  const NotAnInteger := "Not Integer"
  const NoProjectId := "Attribute marked as Project but no project ID defined"
  const NoRecord := "Attribute marked as Project but no record does not exist"
  const NoUser := "User does not exist"
  const NoProject := "Project does not exist"
  const NoPermission := "User has no permission"
  const NotBoolean := "Not Boolean"
  const NoReferencedEntity := "Entity Referance cant be found"

  /** What one call of `validateProperty` returns, and the message it
      records (`None`: it records nothing). */
  datatype Verdict = Verdict(accepted: bool, error: Option<string>)

  /** `validateDate`: only a comparison with the platform integer range. */
  predicate ValidDate(v: Value, env: Env) {
    WithinPhpIntRange(v, env.numericString)
  }

  /** The cases of `validateDate`: integers, objects and `true` pass;
      arrays, null and `false` fail; floats and numeric strings pass iff
      they lie within plus or minus 2^63; other strings pass iff they sort
      between the bounds' decimal text. */
  lemma DateRangeCases(v: Value, env: Env)
    ensures v.Int? || v.Obj? || v == Bool(true) ==> ValidDate(v, env)
    ensures v.Arr? || v == Null || v == Bool(false) ==> !ValidDate(v, env)
    ensures v.Float? ==> (ValidDate(v, env) <==> -9223372036854775808.0 <= v.r <= 9223372036854775808.0)
    ensures v.Str? && env.numericString(v.s).Some? ==>
      (ValidDate(v, env) <==> -9223372036854775808.0 <= env.numericString(v.s).value <= 9223372036854775808.0)
    ensures v.Str? && env.numericString(v.s).None? ==>
      (ValidDate(v, env) <==> StrLe(v.s, "9223372036854775807") && StrLe("-9223372036854775808", v.s))
  {
  }

  /** The choice rule reached after an 'email', 'text' or 'integer' value
      passed its type rule. It only decides the return value. */
  function CheckChoices(p: PropertyInfo, value: Value, env: Env): (r: Verdict)
    ensures r.error.None?
    ensures p.choices.None? && p.choicesCallback.None? ==> r.accepted
    ensures p.choices.Some? ==> (r.accepted <==> value in p.choices.value)
    // the callback is consulted only without a choice list; no usable list refuses
    ensures p.choices.None? && p.choicesCallback.Some? ==>
      (r.accepted <==> env.choicesFrom(p.choicesCallback.value).Some? &&
                       value in env.choicesFrom(p.choicesCallback.value).value)
  {
    if p.choices.Some? then
      Verdict(value in p.choices.value, None)
    else if p.choicesCallback.Some? then
      match env.choicesFrom(p.choicesCallback.value)
      case None => Verdict(false, None)
      case Some(keys) => Verdict(value in keys, None)
    else
      Verdict(true, None)
  }

  /** `PROJECT_ID` as PHP 7 reads it: an undefined constant reads as its
      own name. */
  function ProjectConstant(env: Env): Value {
    if env.projectId.Some? then env.projectId.value else Str("PROJECT_ID")
  }

  /** The 'record' rule. When `PROJECT_ID` is undefined the first message is
      recorded, and the lookup still runs with the constant's bare name,
      possibly replacing that message. */
  function CheckRecord(value: Value, env: Env): (r: Verdict)
    ensures r.accepted <==> env.projectId.Some? && env.recordExists(env.projectId.value, value)
    ensures !env.recordExists(ProjectConstant(env), value) ==> r.error == Some(NoRecord)
    ensures env.recordExists(ProjectConstant(env), value) ==>
      r.error == if env.projectId.None? then Some(NoProjectId) else None
    ensures r.accepted <==> env.projectId.Some? && r.error.None?
  {
    var found := env.recordExists(ProjectConstant(env), value);
    var error :=
      if !found then Some(NoRecord)
      else if env.projectId.None? then Some(NoProjectId)
      else None;
    Verdict(env.projectId.Some? && found, error)
  }

  /** The 'project' rule: a missing project is refused; a project the user
      may not access records a message but is still reported as accepted. */
  function CheckProject(value: Value, env: Env): (r: Verdict)
    ensures r.accepted <==> env.projectExists(value)
    ensures r.error.None? <==>
      env.projectExists(value) &&
      (env.userId.None? || env.superUser || env.accountManager || env.hasPrivileges(value, env.userId.value))
  {
    if !env.projectExists(value) then
      Verdict(false, Some(NoProject))
    else if !(env.userId.None? || env.superUser || env.accountManager || env.hasPrivileges(value, env.userId.value)) then
      Verdict(true, Some(NoPermission))
    else
      Verdict(true, None)
  }

  /** `validateProperty($key, $value)` for an entity whose data has the keys
      `dataKeys`. */
  function Check(info: TypeInfo, dataKeys: set<string>, key: string, value: Value, env: Env): (r: Verdict)
    // an undeclared key always records a message
    ensures key !in dataKeys || key !in info.properties ==> r == Verdict(false, Some(KeyMissing))
    // a message always comes with a refusal, except the project permission one
    ensures r.error.Some? && r.accepted ==>
      key in info.properties && info.properties[key].kind == Project && r.error == Some(NoPermission)
    // an empty value records a message exactly when the property is required
    ensures key in dataKeys && key in info.properties && (value == Null || value == Str("")) ==>
      !r.accepted && (r.error.Some? <==> info.properties[key].required)
  {
    if key !in dataKeys || key !in info.properties then
      Verdict(false, Some(KeyMissing))
    else
      var p := info.properties[key];
      if value == Null || value == Str("") then
        if p.required then Verdict(false, Some(ValueEmpty)) else Verdict(false, None)
      else
        match p.kind
        case Email =>
          if !env.isEmail(value) then Verdict(false, Some(EmailInvalid)) else CheckChoices(p, value, env)
        case Text =>
          if !value.Str? then Verdict(false, Some(NotString)) else CheckChoices(p, value, env)
        case Date =>
          if !ValidDate(value, env) then Verdict(false, Some(WrongDate)) else Verdict(true, None)
        case Integer =>
          if NotInteger(value, env.numericString) then Verdict(false, Some(NotAnInteger))
          else CheckChoices(p, value, env)
        case Record =>
          CheckRecord(value, env)
        case User =>
          if !env.usernameExists(value) then Verdict(false, Some(NoUser)) else Verdict(true, None)
        case Project =>
          CheckProject(value, env)
        case LongText =>
          if !value.Str? then Verdict(false, Some(NotString)) else Verdict(true, None)
        case Boolean =>
          if !value.Bool? && LooseEqualsInt(value, 1, env.numericString) && LooseEqualsInt(value, 0, env.numericString)
          then Verdict(false, Some(NotBoolean))
          else Verdict(true, None)
        case EntityReference =>
          if !(!IsEmpty(Str(p.entityType)) && env.getInstance(p.entityType, value))
          then Verdict(false, Some(NoReferencedEntity))
          else Verdict(true, None)
        case Data =>
          Verdict(true, None)
        case Json =>
          Verdict(true, None)
        case Other(_) =>
          Verdict(false, None)
  }

  /** Whether `key` is declared with type `kind` and `value` is not empty,
      so that the type rule is reached. */
  predicate ReachesTypeRule(info: TypeInfo, dataKeys: set<string>, key: string, value: Value, kind: PropertyType) {
    key in dataKeys && key in info.properties && info.properties[key].kind == kind &&
    value != Null && value != Str("")
  }

  /** The type rules followed by the choice rules: which message each type
      records and when it accepts. */
  lemma ChoiceTypeRules(info: TypeInfo, dataKeys: set<string>, key: string, value: Value, env: Env)
    ensures ReachesTypeRule(info, dataKeys, key, value, Email) ==>
      var r := Check(info, dataKeys, key, value, env);
      r.error == (if env.isEmail(value) then None else Some(EmailInvalid)) &&
      (r.accepted <==> env.isEmail(value) && CheckChoices(info.properties[key], value, env).accepted)
    ensures ReachesTypeRule(info, dataKeys, key, value, Text) ==>
      var r := Check(info, dataKeys, key, value, env);
      r.error == (if value.Str? then None else Some(NotString)) &&
      (r.accepted <==> value.Str? && CheckChoices(info.properties[key], value, env).accepted)
    ensures ReachesTypeRule(info, dataKeys, key, value, Integer) ==>
      var r := Check(info, dataKeys, key, value, env);
      r.error == (if NotInteger(value, env.numericString) then Some(NotAnInteger) else None) &&
      (r.accepted <==> !NotInteger(value, env.numericString) && CheckChoices(info.properties[key], value, env).accepted)
  {
  }

  /** The type rules that decide alone, with their message iff they refuse. */
  lemma DecidingTypeRules(info: TypeInfo, dataKeys: set<string>, key: string, value: Value, env: Env)
    ensures ReachesTypeRule(info, dataKeys, key, value, Date) ==>
      var r := Check(info, dataKeys, key, value, env);
      (r.accepted <==> ValidDate(value, env)) && r.error == (if r.accepted then None else Some(WrongDate))
    ensures ReachesTypeRule(info, dataKeys, key, value, User) ==>
      var r := Check(info, dataKeys, key, value, env);
      (r.accepted <==> env.usernameExists(value)) && r.error == (if r.accepted then None else Some(NoUser))
    ensures ReachesTypeRule(info, dataKeys, key, value, LongText) ==>
      var r := Check(info, dataKeys, key, value, env);
      (r.accepted <==> value.Str?) && r.error == (if r.accepted then None else Some(NotString))
    ensures ReachesTypeRule(info, dataKeys, key, value, EntityReference) ==>
      var r := Check(info, dataKeys, key, value, env);
      (r.accepted <==> !IsEmpty(Str(info.properties[key].entityType)) &&
                       env.getInstance(info.properties[key].entityType, value)) &&
      r.error == (if r.accepted then None else Some(NoReferencedEntity))
  {
  }

  /** The types whose rule is another function or accepts outright. */
  lemma DelegatedTypeRules(info: TypeInfo, dataKeys: set<string>, key: string, value: Value, env: Env)
    ensures ReachesTypeRule(info, dataKeys, key, value, Record) ==>
      Check(info, dataKeys, key, value, env) == CheckRecord(value, env)
    ensures ReachesTypeRule(info, dataKeys, key, value, Project) ==>
      Check(info, dataKeys, key, value, env) == CheckProject(value, env)
    ensures ReachesTypeRule(info, dataKeys, key, value, Data) || ReachesTypeRule(info, dataKeys, key, value, Json) ==>
      Check(info, dataKeys, key, value, env) == Verdict(true, None)
  {
  }

  /** An 'integer' property records 'Not Integer' exactly for a value that
      is not numeric or is not equal to its integer truncation, and nothing
      else. */
  lemma IntegerRule(info: TypeInfo, dataKeys: set<string>, key: string, value: Value, env: Env)
    requires ReachesTypeRule(info, dataKeys, key, value, Integer)
    ensures Check(info, dataKeys, key, value, env).error.Some? <==> NotInteger(value, env.numericString)
    ensures Check(info, dataKeys, key, value, env).error.Some? ==>
      Check(info, dataKeys, key, value, env).error == Some(NotAnInteger)
  {
  }

  /** A number with a fractional part differs from its truncation. */
  lemma FractionalIsNotIntval(x: real)
    requires x != x.Floor as real
    ensures Intval(x) as real != x
  {
  }

  /** A whole number in the 64-bit range equals its truncation. */
  lemma WholeIsIntval(x: real)
    requires x == x.Floor as real && IntMin <= x.Floor <= IntMax
    ensures Intval(x) as real == x
  {
    if x < 0.0 {
      assert (-x).Floor == -(x.Floor);
    }
  }

  /** A float with a fractional part, a non-numeric string and a boolean
      are refused by the integer rule; an integer, and a whole float in the
      64-bit range, pass it. */
  lemma IntegerRuleCases(v: Value, numericString: string -> Option<real>)
    ensures v.Float? && v.r != v.r.Floor as real ==> NotInteger(v, numericString)
    ensures v.Str? && numericString(v.s).None? ==> NotInteger(v, numericString)
    ensures v.Bool? ==> NotInteger(v, numericString)
    ensures v.Int? ==> !NotInteger(v, numericString)
    ensures v.Float? && v.r == v.r.Floor as real && IntMin <= v.r.Floor <= IntMax ==> !NotInteger(v, numericString)
  {
    if v.Float? {
      if v.r != v.r.Floor as real {
        FractionalIsNotIntval(v.r);
      } else if IntMin <= v.r.Floor <= IntMax {
        WholeIsIntval(v.r);
      }
    } else if v.Int? {
      WholeIsIntval(v.i as real);
    }
  }

  /** The boolean rule can never refuse: no value is loosely equal to both
      1 and 0. */
  lemma BooleanNeverRejects(info: TypeInfo, dataKeys: set<string>, key: string, value: Value, env: Env)
    requires ReachesTypeRule(info, dataKeys, key, value, Boolean)
    ensures Check(info, dataKeys, key, value, env) == Verdict(true, None)
  {
    if value.Str? && env.numericString(value.s).None? {
      assert IntToString(1) == "1" && IntToString(0) == "0";
    }
  }

  /** An unknown type tag is refused without a message. */
  lemma UnknownTypeRecordsNothing(info: TypeInfo, dataKeys: set<string>, key: string, value: Value, env: Env, tag: string)
    requires ReachesTypeRule(info, dataKeys, key, value, Other(tag))
    ensures Check(info, dataKeys, key, value, env) == Verdict(false, None)
  {
  }

  /** The choice rules never record a message: the recorded message of a
      property does not depend on its choices or its choices callback. */
  lemma ChoicesRecordNothing(info: TypeInfo, dataKeys: set<string>, key: string, value: Value, env: Env,
                             choices: Option<set<Value>>, callback: Option<string>)
    requires key in info.properties
    ensures
      var p := info.properties[key];
      var info' := info.(properties := info.properties[key := p.(choices := choices, choicesCallback := callback)]);
      Check(info', dataKeys, key, value, env).error == Check(info, dataKeys, key, value, env).error
  {
  }

  /** A project the user may not access: the rule reports acceptance but
      records 'User has no permission'. */
  lemma ProjectPermissionFailure(info: TypeInfo, dataKeys: set<string>, key: string, value: Value, env: Env)
    requires ReachesTypeRule(info, dataKeys, key, value, Project)
    requires env.projectExists(value) && env.userId.Some? && !env.superUser && !env.accountManager
    requires !env.hasPrivileges(value, env.userId.value)
    ensures Check(info, dataKeys, key, value, env) == Verdict(true, Some(NoPermission))
  {
  }

  /** The date rule is loose: every integer passes, every object passes (it
      compares as 1), and so does a string that is not a date at all as
      long as it sorts between the bounds' text, such as "2024-13-45". */
  lemma DateRuleIsLoose(info: TypeInfo, dataKeys: set<string>, key: string, env: Env, i: Int64,
                        props: map<string, Value>)
    requires key in dataKeys && key in info.properties && info.properties[key].kind == Date
    requires env.numericString("2024-13-45").None?
    ensures Check(info, dataKeys, key, Int(i), env) == Verdict(true, None)
    ensures Check(info, dataKeys, key, Obj(props), env) == Verdict(true, None)
    ensures Check(info, dataKeys, key, Str("2024-13-45"), env) == Verdict(true, None)
  {
  }
}
