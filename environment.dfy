/** What the entity reads from its surroundings: the global constants of the
    request and the collaborators it consults, given as plain values and
    total functions so that every operation sees them as parameters. */
module Environment {
  import opened Wrappers
  import opened PhpValues

  datatype Env = Env(
    /** `strtotime(NOW)`. */
    now: Int64,
    /** `USERID`, when defined. */
    userId: Option<string>,
    /** `PROJECT_ID`, when defined. */
    projectId: Option<Value>,
    /** `SUPER_USER` and `ACCOUNT_MANAGER`. */
    superUser: bool,
    accountManager: bool,
    /** `isEmail($value)`. */
    isEmail: Value -> bool,
    /** `Records::recordExists($project, $record)`. */
    recordExists: (Value, Value) -> bool,
    /** `RedCapDB::usernameExists($value)`. */
    usernameExists: Value -> bool,
    /** `RedCapDB::getProject($value)` found a project. */
    projectExists: Value -> bool,
    /** `UserRights::getPrivileges($project, $user)` is non-empty. */
    hasPrivileges: (Value, string) -> bool,
    /** The factory's `getInstance($type, $id)` found an entity. */
    getInstance: (string, Value) -> bool,
    /** Calling the named 'choices_callback': `None` when it is not callable
        or does not return an array, otherwise the keys of that array. */
    choicesFrom: string -> Option<set<Value>>,
    /** Which strings `is_numeric()` accepts, and the number each denotes. */
    numericString: string -> Option<real>,
    /** `json_encode` and `json_decode` (`Null` when decoding fails). */
    jsonEncode: Value -> string,
    jsonDecode: string -> Value,
    /** `db_escape` and PHP's float-to-string conversion. */
    escape: string -> string,
    floatText: real -> string)
}
