/** `Entity::_formatQueryValues`: every column value rendered as the SQL
    literal that is interpolated into an INSERT or UPDATE statement. */
module SqlFormat {
  import opened PhpValues
  import opened Environment

  function Quote(text: string): string {
    "\"" + text + "\""
  }

  /** The literal for one value: booleans as "1"/"0" (quoted, not escaped),
      null as the bare word NULL, arrays and objects JSON-encoded and then
      escaped and quoted, every other value escaped and quoted. */
  function FormatValue(v: Value, env: Env): string {
    match v
    case Bool(b) => if b then "\"1\"" else "\"0\""
    case Null => "NULL"
    case Arr(_) => Quote(env.escape(env.jsonEncode(v)))
    case Obj(_) => Quote(env.escape(env.jsonEncode(v)))
    case Str(s) => Quote(env.escape(s))
    case Int(i) => Quote(env.escape(IntToString(i)))
    case Float(r) => Quote(env.escape(env.floatText(r)))
  }

  /** A row with every value rendered. */
  function RenderRow(row: map<string, Value>, env: Env): map<string, string> {
    map k | k in row :: FormatValue(row[k], env)
  }

  /** The loop of `_formatQueryValues`, column by column. */
  method FormatQueryValues(row: map<string, Value>, env: Env) returns (formatted: map<string, string>)
    ensures formatted.Keys == row.Keys
    ensures forall k :: k in row ==> formatted[k] == FormatValue(row[k], env)
    ensures formatted == RenderRow(row, env)
  {
    formatted := map[];
    var pending := row.Keys;
    while pending != {}
      invariant pending <= row.Keys
      invariant formatted.Keys == row.Keys - pending
      invariant forall k :: k in formatted ==> formatted[k] == FormatValue(row[k], env)
      decreases pending
    {
      var key :| key in pending;
      formatted := formatted[key := FormatValue(row[key], env)];
      pending := pending - {key};
    }
  }

  /** Only null renders as the bare word NULL; everything else is a quoted
      literal, so a stored string "NULL" is never confused with SQL NULL. */
  lemma {:induction false} NullIsTheOnlyBareLiteral(v: Value, env: Env)
    ensures FormatValue(v, env) == "NULL" <==> v == Null
    ensures v != Null ==>
      var f := FormatValue(v, env);
      |f| >= 2 && f[0] == '"' && f[|f| - 1] == '"'
  {
    if v != Null {
      var f := FormatValue(v, env);
      assert f[0] == '"';
      assert "NULL"[0] == 'N';
    }
  }

  /** Booleans render as the two distinct literals "1" and "0", without
      consulting the escaping function. */
  lemma BooleansRenderAsDigits(env: Env, env': Env)
    ensures FormatValue(Bool(true), env) == "\"1\"" == FormatValue(Bool(true), env')
    ensures FormatValue(Bool(false), env) == "\"0\"" == FormatValue(Bool(false), env')
    ensures FormatValue(Bool(true), env) != FormatValue(Bool(false), env)
  {
  }

  /** Arrays and objects are JSON-encoded before escaping; strings are
      escaped as they are. */
  lemma StructuredValuesAreEncoded(v: Value, env: Env)
    ensures (v.Arr? || v.Obj?) ==> FormatValue(v, env) == Quote(env.escape(env.jsonEncode(v)))
    ensures v.Str? ==> FormatValue(v, env) == Quote(env.escape(v.s))
  {
  }
}
