/** The descriptors the extractor builds: a type annotation (`TypeDef`) and
    the records for properties, models, parameters, responses, operations,
    resources and the whole spec. All are values: a Dafny datatype is equal
    to another exactly when every field is, which is the field-by-field
    `__eq__` each record defines. Collaborator objects (the model class, the
    operation, the parameter, the resource, the spec) appear only through an
    opaque handle, compared by identity. */
module DataModel {
  import opened Wrappers
  import opened Templates
  import Text

  /** Identity of a collaborator object; equal handles mean the same object. */
  type Handle = nat

  /** A type annotation: a format string and, optionally, a model name. */
  datatype TypeDef = TypeDef(fmt: string, model: Option<string>)

  /** `TypeDef(s)`: a type with no model name. */
  function Plain(s: string): TypeDef { TypeDef(s, None) }

  /** `td.wrap(outer)`: a new descriptor whose format is `outer.format(td.fmt)`.
      The receiver is a value and is left as it was. */
  function Wrap(t: TypeDef, outer: Template): TypeDef
  {
    TypeDef(Fill(outer, t.fmt), t.model)
  }

  /** Wrapping in a single-hole template surrounds the old format and keeps
      the model name. */
  lemma WrapAround(t: TypeDef, prefix: string, suffix: string)
    ensures Wrap(t, Around(prefix, suffix)).fmt == prefix + t.fmt + suffix
    ensures Wrap(t, Around(prefix, suffix)).model == t.model
  {
    FillAround(prefix, suffix, t.fmt);
  }

  /** Wrapping two descriptors with the same template (one that has a hole)
      gives equal results only when the descriptors were equal. */
  lemma WrapInjective(a: TypeDef, b: TypeDef, outer: Template)
    requires HoleCount(outer) >= 1
    requires Wrap(a, outer) == Wrap(b, outer)
    ensures a == b
  {
    FillInjective(outer, a.fmt, b.fmt);
  }

  /** `__hash__`: `31 * (31 * 1 + hash(fmt)) + hash(model)`, over the
      interpreter's string hash `strHash` and the hash of None `noneHash`. */
  function Hash(t: TypeDef, strHash: string -> int, noneHash: int): int
  {
    var h := 31 * 1 + strHash(t.fmt);
    31 * h + (match t.model case None => noneHash case Some(m) => strHash(m))
  }

  datatype PropertyInfo = PropertyInfo(name: string, typ: TypeDef, required: bool)

  datatype ModelInfo = ModelInfo(mclass: Handle, name: string, parents: seq<string>, props: seq<PropertyInfo>)

  datatype ParameterInfo = ParameterInfo(param: Handle, name: string, typ: TypeDef, required: bool)

  datatype ResponseInfo = ResponseInfo(status: string, typ: TypeDef)

  datatype OperationInfo = OperationInfo(operation: Handle, name: string, params: seq<ParameterInfo>, responses: seq<ResponseInfo>)

  datatype ResourceInfo = ResourceInfo(resource: Handle, name: string, operations: seq<OperationInfo>)

  datatype SpecInfo = SpecInfo(spec: Handle, models: seq<ModelInfo>, resources: seq<ResourceInfo>, operations: seq<OperationInfo>)

  /** A status key `int()` can read: "default" or a string of decimal digits. */
  predicate StatusKey(status: string)
  {
    status == "default" || Text.IsDigits(status)
  }

  /** `ResponseInfo.success`: not "default", and the numeric code in [200, 300). */
  function IsSuccess(r: ResponseInfo): bool
    requires StatusKey(r.status)
  {
    r.status != "default" && 200 <= Text.DecimalValue(r.status) < 300
  }

  /** For the three-digit codes a schema declares, success means a 2xx code;
      "default" is never a success. */
  lemma SuccessIs2xx(r: ResponseInfo)
    requires r.status == "default" || (|r.status| == 3 && Text.IsDigits(r.status))
    ensures IsSuccess(r) <==> r.status != "default" && r.status[0] == '2'
  {
    if r.status != "default" { Text.ThreeDigitRange(r.status); }
  }
}
