// JSON values as the runtime sees them after parsing.

module Json {
  datatype Field = Field(key: string, value: Json)

  datatype Json =
    | JNull
    | JBool(flag: bool)
    | JNum(literal: string)
    | JStr(text: string)
    | JList(items: seq<Json>)
    | JDict(fields: seq<Field>)
}
