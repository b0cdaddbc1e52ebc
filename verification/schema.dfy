/**
  The explicit schema that stands in for Go reflection: a record type is an
  ordered list of field descriptors, and a record value is a list of field
  values in the same order.
 */
module Schema {
  import opened Strconv
  import opened Tags

  /** An instant as `time.Time` holds it; only the zero time is singled out. */
  datatype Time = ZeroTime | Instant(stamp: int)

  /** The declared type of a field: the integer kinds, string, `time.Time` itself, another struct, or anything else. */
  datatype Kind = Int | Str | Date | Nested(fields: seq<Field>) | Other

  /**
    A struct field: its name, its kind, the value of its `record` struct tag,
    whether the decoder should treat it as optional, and whether reflection
    may set it (false for unexported fields).
   */
  datatype Field = Field(name: string, kind: Kind, tag: string, optional: bool, settable: bool)

  datatype Value = IntVal(i: int) | StrVal(s: string) | TimeVal(t: Time) | NestedVal(fields: seq<Value>) | OtherVal

  /** A value has the shape its field's kind demands; integers are int64. */
  predicate FieldConforms(f: Field, v: Value)
    decreases f, 0
  {
    match f.kind
    case Int => v.IntVal? && IsInt64(v.i)
    case Str => v.StrVal?
    case Date => v.TimeVal?
    case Nested(sub) => v.NestedVal? && Conforms(sub, v.fields)
    case Other => v.OtherVal?
  }

  /** A record value fits a schema field by field. */
  predicate Conforms(schema: seq<Field>, rec: seq<Value>)
    decreases schema, 1
  {
    && |rec| == |schema|
    && forall k :: 0 <= k < |schema| ==> FieldConforms(schema[k], rec[k])
  }

  /** A struct type without nested struct fields. */
  predicate Flat(schema: seq<Field>) {
    forall k :: 0 <= k < |schema| ==> !schema[k].kind.Nested?
  }

  /** The directive the decoder acts on: the parsed tag plus the schema's optional flag. */
  function FieldTag(f: Field): (t: Tag)
    ensures t.optional == f.optional
    ensures t.(optional := false) == ParseTags(f.tag)
  {
    ParseTags(f.tag).(optional := f.optional)
  }

  /**
    The directives of all fields, in declaration order. The decoder parses
    each field's directive when its turn comes; parsing is pure, so reading
    them all up front gives the same directives.
   */
  function Directives(schema: seq<Field>): (tags: seq<Tag>)
    ensures |tags| == |schema|
  {
    seq(|schema|, k requires 0 <= k < |schema| => FieldTag(schema[k]))
  }

  /** What a caller hands to `Encode`/`Decode` through an `interface{}`. */
  datatype Target = StructOf(schema: seq<Field>, rec: seq<Value>) | NonStruct

  datatype Arg =
    | NilPointer              // a typed nil pointer
    | Pointer(target: Target) // a non-nil pointer
    | Direct(target: Target)  // a value passed by copy

  predicate ArgConforms(a: Arg) {
    match a
    case NilPointer => true
    case Pointer(t) => t.StructOf? ==> Conforms(t.schema, t.rec)
    case Direct(t) => t.StructOf? ==> Conforms(t.schema, t.rec)
  }
}
