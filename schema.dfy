/** The entity type information a factory hands to an entity: its
    properties and the properties that play a special role. */
module Schema {
  import opened Wrappers
  import opened PhpValues

  /** The property type tags the validator knows ('email', 'text', 'date',
      'integer', 'record', 'user', 'project', 'long_text', 'boolean',
      'entity_reference', 'data', 'json'), and any other tag. */
  datatype PropertyType =
    | Email | Text | Date | Integer | Record | User | Project | LongText
    | Boolean | EntityReference | Data | Json
    | Other(tag: string)

  /** One entry of the type's 'properties': its type, whether it is
      'required', its static 'choices' keys, the name of its
      'choices_callback' and, for references, the target 'entity_type'
      ("" when not given). */
  datatype PropertyInfo = PropertyInfo(
    kind: PropertyType,
    required: bool,
    choices: Option<set<Value>>,
    choicesCallback: Option<string>,
    entityType: string)

  /** 'properties' by name and 'special_keys' from role ('label', 'name',
      'author', 'project') to property name. */
  datatype TypeInfo = TypeInfo(
    properties: map<string, PropertyInfo>,
    specialKeys: map<string, string>)

  /** The type of a key; a key that is not a property reads as no known tag. */
  function KindOf(info: TypeInfo, key: string): PropertyType {
    if key in info.properties then info.properties[key].kind else Other("")
  }
}
