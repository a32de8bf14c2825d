/** The fields of a target, as its descriptor declares them. */
module TargetSchema {
  datatype FieldType = StringType | NumberType | DateType | BooleanType

  datatype Field = Field(
    key: string, title: string, kind: FieldType, required: bool,
    aliases: seq<string>, options: seq<string>)
}
