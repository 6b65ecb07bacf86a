/** The static Java types of annotated action fields, classified into the
    cases the helper generator distinguishes. */
module JavaTypes {

  /** The eight Java primitive types. */
  datatype PrimitiveKind =
    | BooleanKind | ByteKind | ShortKind | CharKind
    | IntKind | LongKind | FloatKind | DoubleKind

  /** A field's declared type. `OtherType` stands for every reference type
      the generator does not single out (user classes, generic collections,
      the remaining boxed numbers); its name is the type as written. */
  datatype JType =
    | Primitive(kind: PrimitiveKind)
    | BoxedBoolean
    | BoxedInteger
    | BoxedLong
    | StringType
    | ByteArrayType
    | FileType
    | ActionBodyType
    | OtherType(name: string)

  /** Only primitive fields can never hold null. */
  predicate IsPrimitive(t: JType) {
    t.Primitive?
  }
}
