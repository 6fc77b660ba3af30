# REDCap entity record, modelled in Dafny

This project models the generic entity record of the REDCap entity
framework (`REDCapEntity\Entity`). An entity belongs to an entity type, a
declared set of typed properties. It holds:

- its data, one value per property;
- the snapshot taken at the last load or save (`oldData`);
- the messages recorded by the last `setData` (`errors`);
- its id and its two timestamps.

Its lifecycle is a small state machine: constructed (all properties null),
validated (`setData`), persisted (`save`, insert or update), loaded
(`load`) and deleted (`delete`).

Modules:

- `PhpValues`: the PHP values an entity holds, as one datatype. It also has
  the few PHP conversions the rules need (`empty()`, `intval()`, the PHP 8
  loose comparisons with an integer and with the platform integer bounds).
- `Schema`: an entity type's property declarations and special keys.
- `Environment`: the ambient constants (`NOW`, `USERID`, `PROJECT_ID`,
  `SUPER_USER`, `ACCOUNT_MANAGER`) and the foreign lookups, passed in as one
  value. The lookups are e-mail syntax, record, user and project existence,
  privileges, the factory's `getInstance`, choice callbacks, `is_numeric`
  on strings, JSON, `db_escape` and float printing.
- `Validator`: `validateProperty` as a decision procedure. It returns both
  the boolean the PHP method returns and the message it records.
- `SqlFormat`: `_formatQueryValues`, the SQL literal of each value.
- `Storage`: the database as one table per entity type. A table maps ids to
  rows and keeps an auto-increment counter. `INSERT`, `UPDATE`, `DELETE`
  and `SELECT` by id are modelled, and a statement fails when its table
  does not exist.
- `EntityRules`: pure specification functions (which messages a batch
  records, how accepted values are normalised, which columns a save writes,
  what a load copies) and the lemmas about them.
- `Entities`: the `Entity` class itself, whose methods update its fields in
  place. Most loops of the PHP code are methods of their own, each proved
  against the specification function it computes. The constructor's
  loop stays inline, with its invariants. The loop that joins the update's column assignments into SQL
  text is not modelled.

## Model

| member | source | states |
|---|---|---|
| Entities.Entity.constructor | classes/Entity.php:34-39 | every declared property starts as null; no id, no snapshot, no messages |
| Entities.Instantiate | classes/Entity.php:29-46 | an unknown type throws 'Invalid entity type.'; a given id that does not load throws 'The entity does not exist.'; otherwise the fresh entity is all-null with null timestamps, or loaded from that row with its timestamps taken from the row's columns |
| Entities.Entity.Create | classes/Entity.php:48-58 | refused with an id, changing nothing; a rejected batch leaves data, id, timestamps, snapshot and database unchanged and keeps its messages; an accepted one is written, its messages become empty and the full row is inserted; a successful insert takes the generated id, snapshots the data and nulls the timestamps, a failed one keeps id, timestamps and snapshot |
| Entities.Entity.SetData | classes/Entity.php:60-90 | messages are reset and become exactly the batch's messages; the call succeeds iff there are none; a rejected batch changes no data; an accepted one overwrites the batch keys with normalised values and keeps every other key |
| Entities.Entity.ValidateProperty | classes/Entity.php:116-239 | returns the rule's boolean and adds the rule's message, if any, under the key, leaving other messages |
| Entities.Entity.ValidateBatch | classes/Entity.php:61-68 | the messages are reset and then become exactly the messages the batch's entries record, one per key |
| Entities.WriteBatch | classes/Entity.php:74-87 | the data after the write loop is the old data overridden by the normalised batch |
| Entities.NormaliseValue | classes/Entity.php:75-84 | '' becomes null; a 'json' value that is neither null nor a decodable string becomes its JSON encoding; every other value is kept |
| EntityRules.BatchAcceptedIffNoMessage | classes/Entity.php:63-72 | a batch is accepted iff no key's rule recorded a message, whatever the rules returned |
| EntityRules.AcceptedBatchIsDeclared | classes/Entity.php:117-120 | an accepted batch names only declared properties that are keys of the data |
| EntityRules.UndeclaredKeyRejectsBatch | classes/Entity.php:117-120 | a key that is not a declared property rejects the batch with 'Key does not exists' under that key |
| EntityRules.EmptyValueRule | classes/Entity.php:123-129 | null or '' records 'Value is empty' for a required property and nothing for an optional one |
| EntityRules.PermissionFailureRejectsBatch | classes/Entity.php:188-192 | a project the user may not access is reported accepted by its rule, yet rejects the batch |
| EntityRules.SilentRefusalDoesNotReject | classes/Entity.php:67-72 | a rule that refuses without a message does not reject the batch: the batch records the same messages with or without that key |
| EntityRules.NormaliseRules | classes/Entity.php:75-84 | '' becomes null; a 'json' value that is not null and not a decodable string becomes its encoding; every other value is kept |
| EntityRules.JsonRoundTrip | classes/Entity.php:78-84 | a structured value written to a 'json' property is handed back by `getData` unchanged whenever decoding undoes encoding |
| EntityRules.PlainRoundTrip | classes/Entity.php:75-77 | any other property hands back what it was given, with '' read as null |
| Validator.Check | classes/Entity.php:116-129 | an undeclared key records 'Key does not exists'; a message comes with a refusal except the project permission message; an empty value is refused and records a message iff the property is required |
| Validator.ChoiceTypeRules | classes/Entity.php:131-160 | 'email', 'text' and 'integer' record 'Email is invalid', 'Not String' or 'Not Integer' exactly when their type test fails, and otherwise accept iff the choice rules accept |
| Validator.DecidingTypeRules | classes/Entity.php:148-213 | 'date', 'user', 'long_text' and 'entity_reference' accept exactly when their test passes (range, user exists, is a string, type named and instance found) and record their message exactly when they refuse |
| Validator.DelegatedTypeRules | classes/Entity.php:162-217 | 'record' and 'project' follow their own rules; 'data' and 'json' accept without a message |
| Validator.CheckChoices | classes/Entity.php:223-238 | the choice rules never record a message; without choices or callback the value is accepted; with a choice list it is accepted iff it is one of the choices; otherwise, with a callback, it is accepted iff the callback yields a list holding it |
| Validator.CheckRecord | classes/Entity.php:162-171 | accepted iff `PROJECT_ID` is defined and the record exists in that project; a record not found records 'no record' (overriding 'no project ID'); a record found records 'no project ID' iff the constant is undefined, else nothing |
| Validator.CheckProject | classes/Entity.php:181-192 | accepted iff the project exists; no message iff it exists and the user is absent, a super user, an account manager or privileged |
| Validator.IntegerRule | classes/Entity.php:154-160 | an 'integer' property records a message iff the value is not numeric or differs from its `intval`, and that message is 'Not Integer' |
| Validator.IntegerRuleCases | classes/Entity.php:155 | fractional floats, non-numeric strings and booleans fail the integer test; integers and whole floats in the 64-bit range pass it |
| Validator.FractionalIsNotIntval | classes/Entity.php:155 | a number with a fractional part differs from its `intval` |
| Validator.WholeIsIntval | classes/Entity.php:155 | a whole number in the 64-bit range equals its `intval` |
| PhpValues.Trunc | classes/Entity.php:155 | truncation toward zero lies within one of its argument, on the side of zero |
| Validator.BooleanNeverRejects | classes/Entity.php:201-206 | the boolean rule accepts every non-empty value without a message, since no value is loosely equal to both 1 and 0 |
| Validator.UnknownTypeRecordsNothing | classes/Entity.php:219-220 | an unknown type tag is refused without a message |
| Validator.ChoicesRecordNothing | classes/Entity.php:223-238 | the message a property records does not depend on its choices or its choices callback |
| Validator.ProjectPermissionFailure | classes/Entity.php:188-192 | an existing project without privileges yields acceptance together with 'User has no permission' |
| Validator.DateRangeCases | classes/Entity.php:241-246 | `validateDate`: integers, objects and `true` pass; arrays, null and `false` fail; floats and numeric strings pass iff within plus or minus 2^63; other strings pass iff they sort between the bounds' decimal text |
| Validator.DateRuleIsLoose | classes/Entity.php:241-246 | every integer and every object passes the date rule, and so does the non-date "2024-13-45" |
| Entities.Entity.Delete | classes/Entity.php:92-114 | without an id, or when the query fails, nothing changes; otherwise the row is deleted, id, timestamps, messages and snapshot become null and every key of the data maps to null |
| Entities.ResetAll | classes/Entity.php:109-111 | the reset loop maps every key to null and keeps the key set |
| Entities.Entity.Load | classes/Entity.php:248-269 | succeeds iff the row exists; on failure nothing changes; on success id and timestamps come from the row, the row's columns that are data keys are copied and the snapshot equals the data |
| Entities.CopyColumns | classes/Entity.php:261-265 | the copy loop yields the data overlaid with the row's columns that are data keys |
| EntityRules.OverlayColumns | classes/Entity.php:261-265 | a load keeps the key set, takes the row's value for each key the row has and keeps the others |
| Entities.Entity.GetData | classes/Entity.php:295-306 | the view has the data's keys, with 'json' strings decoded and every other value as stored |
| Entities.Entity.GetLabel | classes/Entity.php:275-285 | false without an id; '#' followed by the id's decimal text without a label role; otherwise the label property's value |
| Entities.Entity.Save | classes/Entity.php:320-374 | refused unless the last `setData` recorded no message; with an id the changed columns are updated, without one the full row is inserted and the generated id taken; on success the snapshot equals the data and `updated` becomes null; `created` becomes null only on insert and is kept on update |
| Entities.ChangedColumns | classes/Entity.php:326-334 | the update row is 'updated' plus every key whose value is not identical to the snapshot's |
| EntityRules.UpdateRowColumns | classes/Entity.php:326-334 | the update writes 'updated' and exactly the changed keys, each with its current value |
| EntityRules.CleanUpdateWritesOnlyTimestamp | classes/Entity.php:330-334 | saving unchanged data writes only 'updated' |
| EntityRules.SingleChangeWritesOneColumn | classes/Entity.php:330-334 | changing one property after a load writes exactly that property and 'updated' |
| Entities.FillSpecialKeys | classes/Entity.php:349-357 | the special-key loop fills each declared role's column from its defined constant when the column is empty |
| EntityRules.FillRolesKeepsOtherColumns | classes/Entity.php:349-357 | the special-key loop touches no column other than the declared roles' columns |
| EntityRules.FillRolesGrows | classes/Entity.php:349-357 | the special-key loop never drops a column |
| EntityRules.InsertRowColumns | classes/Entity.php:345-357 | the insert row holds 'created' = 'updated' = now and every property with its value, unless it is the author or project role's column; a label or name column keeps the data's value |
| EntityRules.InsertFillsAuthor | classes/Entity.php:349-357 | the author column gets `USERID` when it is defined and the property is empty; a value the caller supplied is kept |
| EntityRules.InsertFillsProject | classes/Entity.php:349-357 | the project column gets `PROJECT_ID` when it is defined and the column is still empty after the author role; otherwise it keeps that value, so an author filled into a shared column wins |
| SqlFormat.FormatQueryValues | classes/Entity.php:376-397 | the key set is preserved and each value is rendered as its literal |
| SqlFormat.NullIsTheOnlyBareLiteral | classes/Entity.php:379-391 | only null renders as NULL; every other value is a double-quoted literal |
| SqlFormat.BooleansRenderAsDigits | classes/Entity.php:379-381 | true and false render as "1" and "0" whatever the escaping function |
| SqlFormat.StructuredValuesAreEncoded | classes/Entity.php:386-390 | arrays and objects are JSON-encoded before escaping; strings are escaped as they are |
| Storage.Database.Insert | classes/Entity.php:362-366 | the insert fails iff the table is missing; otherwise the row gets the next free id, which is returned |
| Storage.Database.Update | classes/Entity.php:341 | the update fails iff the table is missing; only the listed columns of the matching row change |
| Storage.Database.Delete | classes/Entity.php:98 | the delete fails iff the table is missing; otherwise the row is removed |
| Storage.Database.Select | classes/Entity.php:251-255 | the fetch returns the row with that id, if the table and row exist |
| Storage.InsertKeepsRows | classes/Entity.php:362-366 | an insert never overwrites a row and keeps every earlier row |
| Storage.UpdateTouchesListedColumns | classes/Entity.php:341 | an update writes the listed columns of the matching row and keeps every other column and row |
| Storage.DeleteRemovesRow | classes/Entity.php:98 | after a delete the id fetches nothing and every other row is kept |

## Left out

- `EntityList.php` is not part of this model. It is an HTML listing page
  driven by request globals and templates.
- The SQL text itself is not modelled. A statement is its table name, its
  row id and its rendered column literals. `db_escape`, the float-to-text
  conversion and what the database stores for a literal are uninterpreted
  functions.
- `intval($id)` in the queries is not modelled: ids are integers throughout.
- A failed query is modelled only as a missing table. `db_num_rows` is
  modelled as "the row exists".
- `json_encode`, `json_decode`, `is_numeric` on strings, the e-mail check,
  the record, user and project lookups, privileges, the factory's
  `getInstance` and `choices_callback` are uninterpreted functions of the
  environment. An uncallable callback and a callback that does not return
  an array are both modelled as "no choices".
- Choice lists are a set of values. PHP's coercion of array keys (for
  example "1" and 1 naming the same key) is not modelled.
- PHP arrays and objects are kept by their entries only. Key order,
  integer keys and references are not modelled.
- EntityRules.ChangedKeys: `!==` compares objects by identity in PHP. The
  model compares them by their properties, so a distinct but equal object
  counts as unchanged.
- Floats are exact real numbers throughout. NaN, infinities and double
  rounding are not represented. For example, a float is compared with the
  date bounds as a real number, not after rounding to a double.
- Validator.ValidDate: a numeric string's value is given by the
  environment. Comparisons follow PHP 8. An object compares as the integer
  1, as in PHP 7 and 8; an object with its own comparison handler is not
  modelled.
- Validator.CheckRecord: an undefined `PROJECT_ID` is read as its own
  name, as PHP 7 does; PHP 8 throws an error there instead.
- PhpValues.Intval: out of the 64-bit range the result is 0. PHP
  saturates a numeric string and wraps or zeroes a float, and then compares
  with double rounding. So the model records 'Not Integer' for a numeric
  string just past the range, such as "9223372036854775808", which PHP
  accepts, because `PHP_INT_MAX` and that string compare equal as doubles.
- The getters that only return a field (`getId`, `getCreationTimestamp`,
  `getLastUpdateTimestamp`, `getFactory`, `getEntityTypeInfo`,
  `getErrors`) are not modelled separately. The fields are public in the
  model.
- The factory reference held by an entity is not modelled. The entity type
  registry is a map passed to `Instantiate`.
