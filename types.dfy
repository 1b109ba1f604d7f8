/** The resolver: from a dereferenced Swagger 2.0 schema to the Python type
    annotation that stands for it. Arrays wrap their item type in the array
    policy's template, objects tagged with a model name become the model's
    type, a lone `allOf` branch stands for itself, other objects are open
    maps, primitives go through the format tables, and `x-nullable` wraps
    whatever was found in `typing.Optional[...]` last. Warnings are returned
    beside the type, in the order they would be emitted. */
module Types {
  import opened Wrappers
  import opened Templates
  import opened DataModel
  import Config

  /** A schema after dereferencing. `kind` is what the schema classifier
      reports (the "type" key when present; None when nothing identifies a
      type); the other fields are the keys the resolver and the extractor
      read: "items", "x-model", "allOf", whether "properties" is present,
      "format", "x-nullable" and "required". An absent "allOf" and an empty
      one are read alike by every reader, so both are the empty list. */
  datatype Schema = Schema(
    kind: Option<string>,
    items: Option<Schema>,
    xModel: Option<string>,
    allOf: seq<Schema>,
    hasProperties: bool,
    format: Option<string>,
    nullable: bool,
    required: seq<string>)

  /** Every array schema, at any depth, carries its "items" (a validated
      document guarantees it; the resolver indexes it unguarded). */
  predicate WellFormed(s: Schema)
    decreases s
  {
    (s.kind == Some("array") ==> s.items.Some?) &&
    (s.items.Some? ==> WellFormed(s.items.value)) &&
    (forall b | b in s.allOf :: WellFormed(b))
  }

  datatype Warning = UnknownSchemaType(kind: string) | UnknownFormat(format: string, kind: string)

  /** A resolved type together with the warnings raised while resolving it. */
  datatype Resolved = Resolved(typ: TypeDef, warnings: seq<Warning>)

  const SwaggerPrimitiveTypes: map<string, string> := map[
    "integer" := "int",
    "number" := "float",
    "string" := "str",
    "boolean" := "bool",
    "null" := "None"]

  const SwaggerFormats: map<(string, string), string> := map[
    ("integer", "int32") := "int",
    ("integer", "int64") := "int",
    ("number", "float") := "float",
    ("number", "double") := "float",
    ("string", "byte") := "bytes",
    ("string", "date") := "datetime.date",
    ("string", "date-time") := "datetime.datetime",
    ("string", "password") := "str"]

  const AnyType := "typing.Any"
  const MapType := "typing.Mapping[str, typing.Any]"
  const OptionalTemplate: Template := Around("typing.Optional[", "]")

  /** `get_type_info`: resolve by kind, then wrap in `typing.Optional[...]`
      when the schema is nullable. No resolved type carries a model name. */
  function GetTypeInfo(c: Config.Config, s: Schema): (r: Resolved)
    requires WellFormed(s)
    ensures r.typ.model.None?
    decreases s, 2
  {
    var base := GetKindTypeInfo(c, s);
    if s.nullable then Resolved(Wrap(base.typ, OptionalTemplate), base.warnings) else base
  }

  /** The dispatch on the classified kind inside `get_type_info`. */
  function GetKindTypeInfo(c: Config.Config, s: Schema): (r: Resolved)
    requires WellFormed(s)
    ensures r.typ.model.None?
    decreases s, 1
  {
    if s.kind == Some("array") then GetArrayTypeInfo(c, s)
    else if s.kind == Some("object") then GetObjectTypeInfo(c, s)
    else if s.kind.Some? && s.kind.value in SwaggerPrimitiveTypes then GetPrimitiveTypeInfo(c, s)
    else if s.kind == Some("file") || s.kind.None? then Resolved(Plain(AnyType), [])
    else Resolved(Plain(AnyType), [UnknownSchemaType(s.kind.value)])
  }

  /** `_get_array_type_info`: the item type inside the policy's array template. */
  function GetArrayTypeInfo(c: Config.Config, s: Schema): (r: Resolved)
    requires WellFormed(s) && s.items.Some?
    ensures r.typ.model.None?
    decreases s, 0
  {
    var item := GetTypeInfo(c, s.items.value);
    Resolved(Wrap(item.typ, Config.ArrayTypeTemplate(c)), item.warnings)
  }

  /** `_get_object_type_info`: a model reference, a lone `allOf` branch, or
      an open map. */
  function GetObjectTypeInfo(c: Config.Config, s: Schema): (r: Resolved)
    requires WellFormed(s)
    ensures r.typ.model.None?
    decreases s, 0
  {
    if s.xModel.Some? then Resolved(Plain(Config.ModelType(c, s.xModel.value)), [])
    else if |s.allOf| == 1 && !s.hasProperties then
      assert s.allOf[0] in s.allOf;
      GetTypeInfo(c, s.allOf[0])
    else Resolved(Plain(MapType), [])
  }

  /** The type name a (type, format) pair selects: a custom-format entry
      first, then the builtin table. */
  function FormatLookup(c: Config.Config, key: (string, string)): Option<string>
  {
    if c.customFormats.Some? && key in c.customFormats.value.formats then Some(c.customFormats.value.formats[key])
    else if key in SwaggerFormats then Some(SwaggerFormats[key])
    else None
  }

  /** `_get_primitive_type_info`: a known format selects its type name; an
      unknown one warns and falls back to the primitive's own name. */
  function GetPrimitiveTypeInfo(c: Config.Config, s: Schema): (r: Resolved)
    requires s.kind.Some? && s.kind.value in SwaggerPrimitiveTypes
    ensures r.typ.model.None?
    ensures |r.warnings| <= 1
  {
    var t := s.kind.value;
    if s.format.Some? then
      var found := FormatLookup(c, (t, s.format.value));
      if found.Some? then Resolved(Plain(found.value), [])
      else Resolved(Plain(SwaggerPrimitiveTypes[t]), [UnknownFormat(s.format.value, t)])
    else Resolved(Plain(SwaggerPrimitiveTypes[t]), [])
  }

  /** `get_response_type_info`: a response without a schema returns nothing. */
  function GetResponseTypeInfo(c: Config.Config, schema: Option<Schema>): (r: Resolved)
    requires schema.Some? ==> WellFormed(schema.value)
    ensures schema.None? ==> r == Resolved(Plain("None"), [])
    ensures schema.Some? ==> r == GetTypeInfo(c, schema.value)
  {
    if schema.Some? then GetTypeInfo(c, schema.value) else Resolved(Plain("None"), [])
  }

  /** `s` with "x-nullable" removed. */
  function NotNull(s: Schema): Schema { s.(nullable := false) }

  lemma WellFormedNotNull(s: Schema)
    requires WellFormed(s)
    ensures WellFormed(NotNull(s))
  {
  }

  /** Nullability is applied last: a nullable schema resolves to
      `typing.Optional[...]` around what the schema resolves to without it,
      with the same warnings. */
  lemma NullableOutermost(c: Config.Config, s: Schema)
    requires WellFormed(s) && s.nullable
    ensures GetTypeInfo(c, s).typ.fmt == "typing.Optional[" + GetTypeInfo(c, NotNull(s)).typ.fmt + "]"
    ensures GetTypeInfo(c, s).warnings == GetTypeInfo(c, NotNull(s)).warnings
  {
    KindIgnoresNullable(c, s);
    var inner := GetTypeInfo(c, NotNull(s));
    FillAround("typing.Optional[", "]", inner.typ.fmt);
  }

  /** The dispatch on the kind does not read "x-nullable". */
  lemma KindIgnoresNullable(c: Config.Config, s: Schema)
    requires WellFormed(s)
    ensures WellFormed(NotNull(s))
    ensures GetKindTypeInfo(c, s) == GetKindTypeInfo(c, NotNull(s))
  {
    var n := NotNull(s);
    if s.kind == Some("array") {
      assert GetArrayTypeInfo(c, s) == GetArrayTypeInfo(c, n);
    } else if s.kind == Some("object") {
      assert GetObjectTypeInfo(c, s) == GetObjectTypeInfo(c, n);
    } else if s.kind.Some? && s.kind.value in SwaggerPrimitiveTypes {
      assert GetPrimitiveTypeInfo(c, s) == GetPrimitiveTypeInfo(c, n);
    }
  }

  /** A (non-nullable) array resolves to its item type filled into the
      policy's array template, with the items' warnings. */
  lemma ArrayWrapsItems(c: Config.Config, s: Schema)
    requires WellFormed(s) && s.kind == Some("array") && !s.nullable
    ensures GetTypeInfo(c, s).typ.fmt == Fill(Config.ArrayTypeTemplate(c), GetTypeInfo(c, s.items.value).typ.fmt)
    ensures GetTypeInfo(c, s).warnings == GetTypeInfo(c, s.items.value).warnings
  {
    assert GetTypeInfo(c, s) == GetKindTypeInfo(c, s) == GetArrayTypeInfo(c, s);
  }

  /** The schema shapes the lemmas below speak about. */
  function Leaf(kind: string): Schema { Schema(Some(kind), None, None, [], false, None, false, []) }

  function ArrayOf(item: Schema): Schema { Schema(Some("array"), Some(item), None, [], false, None, false, []) }

  function Nullable(s: Schema): Schema { s.(nullable := true) }

  /** An array of arrays nests the array template twice. */
  lemma NestedArrays(c: Config.Config, item: Schema)
    requires WellFormed(item)
    ensures GetTypeInfo(c, ArrayOf(ArrayOf(item))).typ.fmt ==
      Fill(Config.ArrayTypeTemplate(c), Fill(Config.ArrayTypeTemplate(c), GetTypeInfo(c, item).typ.fmt))
  {
    ArrayWrapsItems(c, ArrayOf(ArrayOf(item)));
    ArrayWrapsItems(c, ArrayOf(item));
  }

  /** A nullable array is `typing.Optional[...]` around the array type. */
  lemma NullableArray(c: Config.Config, item: Schema)
    requires WellFormed(item)
    ensures GetTypeInfo(c, Nullable(ArrayOf(item))).typ.fmt ==
      "typing.Optional[" + Fill(Config.ArrayTypeTemplate(c), GetTypeInfo(c, item).typ.fmt) + "]"
  {
    NullableOutermost(c, Nullable(ArrayOf(item)));
    assert NotNull(Nullable(ArrayOf(item))) == ArrayOf(item);
    ArrayWrapsItems(c, ArrayOf(item));
  }

  /** An array of nullable items puts `typing.Optional[...]` inside the
      array template. */
  lemma ArrayOfNullable(c: Config.Config, item: Schema)
    requires WellFormed(item) && !item.nullable
    ensures GetTypeInfo(c, ArrayOf(Nullable(item))).typ.fmt ==
      Fill(Config.ArrayTypeTemplate(c), "typing.Optional[" + GetTypeInfo(c, item).typ.fmt + "]")
  {
    NullableOutermost(c, Nullable(item));
    assert NotNull(Nullable(item)) == item;
    ArrayWrapsItems(c, ArrayOf(Nullable(item)));
  }

  /** The two differ under every array policy: the first starts
      "typing.Optional", the second "typing.List", "typing.Sequence" or
      "typing.Union". */
  lemma NullableArrayDiffersFromArrayOfNullable(c: Config.Config, item: Schema)
    requires WellFormed(item) && !item.nullable
    ensures GetTypeInfo(c, Nullable(ArrayOf(item))) != GetTypeInfo(c, ArrayOf(Nullable(item)))
  {
    var t := GetTypeInfo(c, item).typ.fmt;
    NullableArray(c, item);
    ArrayOfNullable(c, item);
    var a := "typing.Optional[" + Fill(Config.ArrayTypeTemplate(c), t) + "]";
    Config.ArrayTemplateHead(c.arrayTypes, "typing.Optional[" + t + "]");
    assert a[7] == 'O';
  }

  /** An object tagged with a model name resolves to the model's type name,
      whatever else the schema holds, and warns about nothing. */
  lemma ModelReference(c: Config.Config, s: Schema, name: string)
    requires WellFormed(s) && s.kind == Some("object") && s.xModel == Some(name) && !s.nullable
    ensures GetTypeInfo(c, s) == Resolved(Plain(Config.ModelType(c, name)), [])
  {
    assert GetTypeInfo(c, s) == GetKindTypeInfo(c, s) == GetObjectTypeInfo(c, s);
  }

  /** An untagged object with a single `allOf` branch and no properties
      resolves exactly as the branch, and nullability still applies on top. */
  lemma SingleAllOf(c: Config.Config, s: Schema)
    requires WellFormed(s) && s.kind == Some("object") && s.xModel.None?
    requires |s.allOf| == 1 && !s.hasProperties
    ensures WellFormed(s.allOf[0])
    ensures !s.nullable ==> GetTypeInfo(c, s) == GetTypeInfo(c, s.allOf[0])
    ensures s.nullable ==> GetTypeInfo(c, s).typ.fmt == "typing.Optional[" + GetTypeInfo(c, s.allOf[0]).typ.fmt + "]"
  {
    assert s.allOf[0] in s.allOf;
    assert GetKindTypeInfo(c, s) == GetObjectTypeInfo(c, s) == GetTypeInfo(c, s.allOf[0]);
    if s.nullable {
      NullableOutermost(c, s);
    }
  }

  /** Every other object is an open mapping. */
  lemma OpenMap(c: Config.Config, s: Schema)
    requires WellFormed(s) && s.kind == Some("object") && s.xModel.None? && !s.nullable
    requires !(|s.allOf| == 1 && !s.hasProperties)
    ensures GetTypeInfo(c, s) == Resolved(Plain("typing.Mapping[str, typing.Any]"), [])
  {
    assert GetTypeInfo(c, s) == GetKindTypeInfo(c, s) == GetObjectTypeInfo(c, s);
  }

  /** The format lookup of a primitive: a custom entry wins over the builtin
      table, a builtin entry is used otherwise, and a pair found in neither
      warns and falls back to the primitive's own type name. Without a
      format the primitive's own name is used silently. */
  lemma PrimitiveFormats(c: Config.Config, s: Schema)
    requires WellFormed(s) && !s.nullable && s.kind.Some? && s.kind.value in SwaggerPrimitiveTypes
    ensures var r := GetTypeInfo(c, s); var t := s.kind.value;
      (s.format.None? ==> r == Resolved(Plain(SwaggerPrimitiveTypes[t]), [])) &&
      (s.format.Some? && c.customFormats.Some? && (t, s.format.value) in c.customFormats.value.formats ==>
        r == Resolved(Plain(c.customFormats.value.formats[(t, s.format.value)]), [])) &&
      (s.format.Some? && (c.customFormats.None? || (t, s.format.value) !in c.customFormats.value.formats) &&
        (t, s.format.value) in SwaggerFormats ==>
        r == Resolved(Plain(SwaggerFormats[(t, s.format.value)]), [])) &&
      (s.format.Some? && (c.customFormats.None? || (t, s.format.value) !in c.customFormats.value.formats) &&
        (t, s.format.value) !in SwaggerFormats ==>
        r == Resolved(Plain(SwaggerPrimitiveTypes[t]), [UnknownFormat(s.format.value, t)]))
  {
    assert s.kind != Some("array") && s.kind != Some("object");
    assert GetTypeInfo(c, s) == GetKindTypeInfo(c, s) == GetPrimitiveTypeInfo(c, s);
  }

  /** "file" and a missing kind resolve to `typing.Any` silently; any other
      unrecognised kind resolves to `typing.Any` with a warning naming it. */
  lemma AnyKinds(c: Config.Config, s: Schema)
    requires WellFormed(s) && !s.nullable
    requires s.kind.None? || (s.kind.value !in {"array", "object"} && s.kind.value !in SwaggerPrimitiveTypes)
    ensures GetTypeInfo(c, s).typ == Plain("typing.Any")
    ensures GetTypeInfo(c, s).warnings == [] <==> s.kind.None? || s.kind == Some("file")
    ensures s.kind.Some? && s.kind != Some("file") ==> GetTypeInfo(c, s).warnings == [UnknownSchemaType(s.kind.value)]
  {
  }

  /** Worked examples of arrays under the list policy. Each is split into
      the resolution step and the text it produces. */
  lemma StringExample(c: Config.Config)
    ensures GetTypeInfo(c, Leaf("string")) == Resolved(Plain("str"), [])
    ensures GetTypeInfo(c, Leaf("integer")) == Resolved(Plain("int"), [])
  {
    PrimitiveFormats(c, Leaf("string"));
    PrimitiveFormats(c, Leaf("integer"));
  }

  lemma ListOfIntText()
    ensures Fill(Config.ListTemplate, "int") == "typing.List[int]"
  {
    FillAround("typing.List[", "]", "int");
  }

  lemma ArrayOfIntExample(c: Config.Config, integer: Schema)
    requires c.arrayTypes == Config.List && integer == Leaf("integer")
    ensures GetTypeInfo(c, ArrayOf(integer)).typ.fmt == "typing.List[int]"
  {
    StringExample(c);
    ArrayWrapsItems(c, ArrayOf(integer));
    ListOfIntText();
  }

  lemma ListOfListText()
    ensures Fill(Config.ListTemplate, Fill(Config.ListTemplate, "str")) == "typing.List[typing.List[str]]"
  {
    FillAround("typing.List[", "]", "str");
    FillAround("typing.List[", "]", "typing.List[str]");
  }

  lemma ArrayOfArrayExample(c: Config.Config, str: Schema)
    requires c.arrayTypes == Config.List && str == Leaf("string")
    ensures GetTypeInfo(c, ArrayOf(ArrayOf(str))).typ.fmt == "typing.List[typing.List[str]]"
  {
    StringExample(c);
    NestedArrays(c, str);
    ListOfListText();
  }

  lemma OptionalListText()
    ensures "typing.Optional[" + Fill(Config.ListTemplate, "str") + "]" == "typing.Optional[typing.List[str]]"
  {
    FillAround("typing.List[", "]", "str");
  }

  lemma NullableArrayExample(c: Config.Config, str: Schema)
    requires c.arrayTypes == Config.List && str == Leaf("string")
    ensures GetTypeInfo(c, Nullable(ArrayOf(str))).typ.fmt == "typing.Optional[typing.List[str]]"
  {
    StringExample(c);
    NullableArray(c, str);
    OptionalListText();
  }

  lemma ListOfOptionalText()
    ensures Fill(Config.ListTemplate, "typing.Optional[" + "str" + "]") == "typing.List[typing.Optional[str]]"
  {
    FillAround("typing.List[", "]", "typing.Optional[" + "str" + "]");
  }

  lemma ArrayOfNullableExample(c: Config.Config, str: Schema)
    requires c.arrayTypes == Config.List && str == Leaf("string")
    ensures GetTypeInfo(c, ArrayOf(Nullable(str))).typ.fmt == "typing.List[typing.Optional[str]]"
  {
    StringExample(c);
    ArrayOfNullable(c, str);
    ListOfOptionalText();
  }

  /** Worked examples of objects under the default model format. */
  lemma ModelReferenceExample(c: Config.Config, obj: Schema)
    requires c.modelTypeFormat == Config.DefaultModelTypeFormat
    requires obj == Leaf("object").(xModel := Some("Something"))
    ensures GetTypeInfo(c, obj).typ.fmt == "SomethingModel"
  {
    ModelReference(c, obj, "Something");
    FillPrefixed("Model", "Something");
  }

  lemma NullableReferenceExample(c: Config.Config, ref: Schema, s: Schema)
    requires c.modelTypeFormat == Config.DefaultModelTypeFormat
    requires ref == Leaf("object").(xModel := Some("Object"))
    requires s == Schema(Some("object"), None, None, [ref], false, None, true, [])
    ensures GetTypeInfo(c, s).typ.fmt == "typing.Optional[ObjectModel]"
  {
    ModelReference(c, ref, "Object");
    FillPrefixed("Model", "Object");
    SingleAllOf(c, s);
    FillAround("typing.Optional[", "]", "ObjectModel");
  }

  lemma PlainObjectExamples(c: Config.Config, props: Schema, none: Schema)
    requires props == Leaf("object").(hasProperties := true)
    requires none == Schema(None, None, None, [], false, None, false, [])
    ensures GetTypeInfo(c, props).typ.fmt == "typing.Mapping[str, typing.Any]"
    ensures GetTypeInfo(c, none) == Resolved(Plain("typing.Any"), [])
  {
    OpenMap(c, props);
    AnyKinds(c, none);
  }

  /** Worked examples of primitives with formats: builtin pairs, a custom
      pair, and the same pair without the custom table. */
  lemma PrimitiveExamples(c: Config.Config, int64: Schema, dateTime: Schema, ipv4: Schema)
    requires int64 == Leaf("integer").(format := Some("int64"))
    requires dateTime == Leaf("string").(format := Some("date-time"))
    requires ipv4 == Leaf("string").(format := Some("ipv4"))
    requires c.customFormats.None? || c.customFormats.value.formats == map[("string", "ipv4") := "ipaddress.IPV4Address"]
    ensures GetTypeInfo(c, int64).typ.fmt == "int"
    ensures GetTypeInfo(c, dateTime).typ.fmt == "datetime.datetime"
    ensures c.customFormats.None? ==> GetTypeInfo(c, ipv4) == Resolved(Plain("str"), [UnknownFormat("ipv4", "string")])
    ensures c.customFormats.Some? ==> GetTypeInfo(c, ipv4) == Resolved(Plain("ipaddress.IPV4Address"), [])
  {
    PrimitiveFormats(c, int64);
    PrimitiveFormats(c, dateTime);
    PrimitiveFormats(c, ipv4);
  }
}
