/** The naming and representation policy (`Config`) and its custom format
    table (`CustomFormats`): validation at construction, defaults for absent
    arguments, the generated type names and the array template. */
module Config {
  import opened Wrappers
  import opened Templates
  import Text
  import Sorting

  datatype ArrayTypes = List | Sequence | Union

  datatype ResponseTypes = Success | All | Any

  const DefaultClientTypeFormat: Template := Prefixed("SwaggerClient")
  const DefaultResourceTypeFormat: Template := Prefixed("Resource")
  const DefaultOperationTypeFormat: Template := Prefixed("Operation")
  const DefaultModelTypeFormat: Template := Prefixed("Model")
  const DefaultArrayTypes: ArrayTypes := List
  const DefaultResponseTypes: ResponseTypes := Success
  const DefaultModelInheritance: bool := false

  datatype ConfigError = PathNotPy | InvalidPackageName(package: string)

  /** `formats` maps (type, format) pairs to type names; `packages` are the
      packages the generated module imports. */
  datatype CustomFormats = CustomFormats(formats: map<(string, string), string>, packages: seq<string>)

  datatype Config = Config(
    name: string,
    pyPath: string,
    pyiPath: string,
    clientTypeFormat: Template,
    resourceTypeFormat: Template,
    operationTypeFormat: Template,
    modelTypeFormat: Template,
    arrayTypes: ArrayTypes,
    responseTypes: ResponseTypes,
    modelInheritance: bool,
    customFormats: Option<CustomFormats>,
    customTemplatesDir: Option<string>)

  /** `arg or default` for a format string: None and "" both select the default. */
  function OrDefault(arg: Option<Template>, default: Template): Template
  {
    if arg.Some? && Templates.Text(arg.value) != "" then arg.value else default
  }

  /** `Config(...)`: the path must end in ".py"; the stub path appends "i";
      every absent argument takes its default. */
  function NewConfig(
    name: string,
    path: string,
    clientTypeFormat: Option<Template>,
    resourceTypeFormat: Option<Template>,
    operationTypeFormat: Option<Template>,
    modelTypeFormat: Option<Template>,
    arrayTypes: Option<ArrayTypes>,
    responseTypes: Option<ResponseTypes>,
    modelInheritance: Option<bool>,
    customFormats: Option<CustomFormats>,
    customTemplatesDir: Option<string>): (r: Result<Config, ConfigError>)
    ensures r.Err? <==> !Text.EndsWith(path, ".py")
    ensures r.Err? ==> r.error == PathNotPy
    ensures r.Ok? ==> r.value.name == name && r.value.pyPath == path
    ensures r.Ok? ==> |r.value.pyiPath| == |path| + 1 && r.value.pyiPath[..|path|] == path
    ensures r.Ok? ==> Text.EndsWith(r.value.pyiPath, ".pyi")
    ensures r.Ok? ==> r.value.clientTypeFormat == OrDefault(clientTypeFormat, DefaultClientTypeFormat)
    ensures r.Ok? ==> r.value.resourceTypeFormat == OrDefault(resourceTypeFormat, DefaultResourceTypeFormat)
    ensures r.Ok? ==> r.value.operationTypeFormat == OrDefault(operationTypeFormat, DefaultOperationTypeFormat)
    ensures r.Ok? ==> r.value.modelTypeFormat == OrDefault(modelTypeFormat, DefaultModelTypeFormat)
    ensures r.Ok? ==> r.value.arrayTypes == (if arrayTypes.Some? then arrayTypes.value else List)
    ensures r.Ok? ==> r.value.responseTypes == (if responseTypes.Some? then responseTypes.value else Success)
    ensures r.Ok? ==> r.value.modelInheritance == (modelInheritance.Some? && modelInheritance.value)
    ensures r.Ok? ==> r.value.customFormats == customFormats && r.value.customTemplatesDir == customTemplatesDir
  {
    if !Text.EndsWith(path, ".py") then Err(PathNotPy)
    else
      StubPath(path);
      Ok(Config(
        name, path, path + "i",
        OrDefault(clientTypeFormat, DefaultClientTypeFormat),
        OrDefault(resourceTypeFormat, DefaultResourceTypeFormat),
        OrDefault(operationTypeFormat, DefaultOperationTypeFormat),
        OrDefault(modelTypeFormat, DefaultModelTypeFormat),
        if arrayTypes.Some? then arrayTypes.value else DefaultArrayTypes,
        if responseTypes.Some? then responseTypes.value else DefaultResponseTypes,
        if modelInheritance.Some? then modelInheritance.value else DefaultModelInheritance,
        customFormats,
        customTemplatesDir))
  }

  /** The stub path `path + "i"` of a ".py" path ends in ".pyi" and starts with the path. */
  lemma StubPath(path: string)
    requires Text.EndsWith(path, ".py")
    ensures Text.EndsWith(path + "i", ".pyi") && (path + "i")[..|path|] == path
  {
    var q := path + "i";
    assert q[|q| - 4..] == q[|q| - 4..|q| - 1] + [q[|q| - 1]];
    assert q[|q| - 4..|q| - 1] == path[|path| - 3..];
  }

  /** `Config(name=..., path=...)` with every optional argument left out. */
  function DefaultConfig(name: string, path: string): Result<Config, ConfigError>
  {
    NewConfig(name, path, None, None, None, None, None, None, None, None, None)
  }

  function ClientType(c: Config): string { Fill(c.clientTypeFormat, c.name) }

  function ResourceType(c: Config, resourceName: string): string { Fill(c.resourceTypeFormat, resourceName) }

  function OperationType(c: Config, operationName: string): string { Fill(c.operationTypeFormat, operationName) }

  function ModelType(c: Config, modelName: string): string { Fill(c.modelTypeFormat, modelName) }

  /** With the default formats the generated names append "SwaggerClient",
      "Resource", "Operation" and "Model" to the given name; an empty format
      argument also selects the default. */
  lemma DefaultTypeNames(name: string, path: string, resourceName: string, operationName: string, modelName: string)
    requires Text.EndsWith(path, ".py")
    ensures var c := DefaultConfig(name, path).value;
      ClientType(c) == name + "SwaggerClient" &&
      ResourceType(c, resourceName) == resourceName + "Resource" &&
      OperationType(c, operationName) == operationName + "Operation" &&
      ModelType(c, modelName) == modelName + "Model"
  {
    FillPrefixed("SwaggerClient", name);
    FillPrefixed("Resource", resourceName);
    FillPrefixed("Operation", operationName);
    FillPrefixed("Model", modelName);
  }

  /** A non-empty format argument is kept and used for the name. */
  lemma GivenFormatUsed(arg: Template, default: Template, name: string)
    requires Templates.Text(arg) != ""
    ensures Fill(OrDefault(Some(arg), default), name) == Fill(arg, name)
    ensures Fill(OrDefault(Some([]), default), name) == Fill(default, name)
  {
  }

  const ListTemplate: Template := Around("typing.List[", "]")
  const SequenceTemplate: Template := Around("typing.Sequence[", "]")
  const UnionTemplate: Template := [Lit("typing.Union[typing.List["), Hole, Lit("], typing.Tuple["), Hole, Lit(", ...]]")]

  /** The template an array policy selects. */
  function ArrayTemplate(a: ArrayTypes): Template
  {
    match a
    case List => ListTemplate
    case Sequence => SequenceTemplate
    case Union => UnionTemplate
  }

  function ArrayTypeTemplate(c: Config): Template { ArrayTemplate(c.arrayTypes) }

  /** The union template receives the item type at both of its holes. */
  lemma UnionTemplateFill(item: string)
    ensures Fill(UnionTemplate, item) == "typing.Union[typing.List[" + item + "], typing.Tuple[" + item + ", ...]]"
    ensures HoleCount(UnionTemplate) == 2
  {
    var t := UnionTemplate;
    assert t[1..][1..][1..][1..][1..] == [];
    assert Fill(t[1..][1..][1..][1..], item) == ", ...]]";
    assert Fill(t[1..][1..][1..], item) == item + ", ...]]";
    assert HoleCount(t[1..][1..][1..][1..]) == 0;
  }

  /** Filling each array template with an item type. */
  lemma ArrayTemplateFill(a: ArrayTypes, item: string)
    ensures Fill(ArrayTemplate(a), item) == match a
      case List => "typing.List[" + item + "]"
      case Sequence => "typing.Sequence[" + item + "]"
      case Union => "typing.Union[typing.List[" + item + "], typing.Tuple[" + item + ", ...]]"
    ensures HoleCount(ArrayTemplate(a)) == (if a == Union then 2 else 1)
  {
    match a
    case List => FillAround("typing.List[", "]", item);
    case Sequence => FillAround("typing.Sequence[", "]", item);
    case Union => UnionTemplateFill(item);
  }

  /** Every array annotation starts "typing." followed by 'L', 'S' or 'U'. */
  lemma ArrayTemplateHead(a: ArrayTypes, item: string)
    ensures |Fill(ArrayTemplate(a), item)| > 7
    ensures Fill(ArrayTemplate(a), item)[..7] == "typing."
    ensures Fill(ArrayTemplate(a), item)[7] == match a case List => 'L' case Sequence => 'S' case Union => 'U'
  {
    ArrayTemplateFill(a, item);
  }

  /** The three array policies render the same item type three different
      ways, whatever the item type. */
  lemma ArrayPoliciesDiffer(item: string, a: ArrayTypes, b: ArrayTypes)
    requires a != b
    ensures Fill(ArrayTemplate(a), item) != Fill(ArrayTemplate(b), item)
  {
    ArrayTemplateHead(a, item);
    ArrayTemplateHead(b, item);
  }

  /** Each dot-separated part of a package name is an identifier. */
  predicate ValidPackage(package: string)
  {
    forall part | part in Text.Split(package, '.') :: Text.IsIdentifier(part)
  }

  /** An empty part, as in "a..b", makes a package name invalid. */
  lemma EmptyPartInvalid(package: string, i: nat)
    requires i + 1 < |package| && package[i] == '.' && package[i + 1] == '.'
    ensures !ValidPackage(package)
  {
    Text.AdjacentSeparatorsSplitEmpty(package, '.', i);
    var m :| 1 <= m < |Text.Split(package, '.')| && Text.Split(package, '.')[m] == [];
    assert !Text.IsIdentifier(Text.Split(package, '.')[m]);
  }

  /** The first occurrence of each element, in order: the elements of `set(xs)`. */
  function Dedup(xs: seq<string>): (r: seq<string>)
    ensures forall p :: p in r <==> p in xs
    ensures forall i, j :: 0 <= i < j < |r| ==> r[i] != r[j]
    decreases |xs|
  {
    if xs == [] then []
    else
      var r := Dedup(xs[..|xs| - 1]);
      assert xs == xs[..|xs| - 1] + [xs[|xs| - 1]];
      if xs[|xs| - 1] in r then r else r + [xs[|xs| - 1]]
  }

  function PackageKey(p: string): Sorting.SortKey { Sorting.SortKey(0, p) }

  /** `sorted(set(packages))`. */
  function SortedPackages(packages: seq<string>): seq<string>
  {
    Sorting.SortBy(Dedup(packages), PackageKey)
  }

  /** The stored package list is strictly ascending and holds exactly the
      given packages. */
  lemma SortedPackagesSpec(packages: seq<string>)
    ensures forall i, j :: 0 <= i < j < |SortedPackages(packages)| ==>
      Text.Less(SortedPackages(packages)[i], SortedPackages(packages)[j])
    ensures forall p :: p in SortedPackages(packages) <==> p in packages
  {
    var d := Dedup(packages);
    Sorting.SortByStrict(d, PackageKey);
    var r := SortedPackages(packages);
    forall p ensures p in r <==> p in packages {
      assert p in r <==> p in multiset(r);
      assert p in d <==> p in multiset(d);
    }
  }

  /** `sorted[i]` is the first package of the list that is not valid. */
  predicate FirstInvalid(sorted: seq<string>, i: int)
  {
    0 <= i < |sorted| && !ValidPackage(sorted[i]) &&
    forall j :: 0 <= j < i ==> ValidPackage(sorted[j])
  }

  /** `all(part.isidentifier() for part in package.split('.'))`. */
  method CheckPackage(package: string) returns (ok: bool)
    ensures ok <==> ValidPackage(package)
  {
    var parts := Text.Split(package, '.');
    var k := 0;
    ok := true;
    while k < |parts| && ok
      invariant 0 <= k <= |parts|
      invariant ok <==> forall m :: 0 <= m < k ==> Text.IsIdentifier(parts[m])
    {
      ok := Text.IsIdentifier(parts[k]);
      k := k + 1;
    }
    if ok {
      forall part | part in parts ensures Text.IsIdentifier(part) {
        var m :| 0 <= m < |parts| && parts[m] == part;
      }
    }
  }

  /** `CustomFormats(formats, packages)`: keeps the format table, stores the
      packages sorted and without duplicates, and rejects the first (in that
      order) whose dotted parts are not all identifiers. */
  method NewCustomFormats(formats: map<(string, string), string>, packages: seq<string>)
    returns (r: Result<CustomFormats, ConfigError>)
    ensures r.Ok? <==> forall p | p in packages :: ValidPackage(p)
    ensures r.Ok? ==> r.value == CustomFormats(formats, SortedPackages(packages))
    ensures r.Err? ==> exists i | FirstInvalid(SortedPackages(packages), i) ::
      r.error == InvalidPackageName(SortedPackages(packages)[i])
  {
    var sorted := SortedPackages(packages);
    SortedPackagesSpec(packages);
    for i := 0 to |sorted|
      invariant forall j :: 0 <= j < i ==> ValidPackage(sorted[j])
    {
      var ok := CheckPackage(sorted[i]);
      if !ok {
        assert FirstInvalid(sorted, i);
        assert sorted[i] in packages;
        return Err(InvalidPackageName(sorted[i]));
      }
    }
    forall p | p in packages ensures ValidPackage(p) {
      assert p in sorted;
      var j :| 0 <= j < |sorted| && sorted[j] == p;
    }
    r := Ok(CustomFormats(formats, sorted));
  }
}
