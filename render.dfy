/** The renderer's settings (`RenderConfig`): validation of the output
    path, defaults for absent arguments, the generated type names, the type
    string written for a `TypeInfo` (`type()`) and the array template; and
    the inheritance sequencer (`_topo_sort`) that orders the models so that
    every parent class is written before its children. */
module Render {
  import opened Wrappers
  import opened Templates
  import opened DataModel
  import Config
  import Types
  import Sorting
  import Text

  /** The renderer's own response policy: its middle member is "union"
      where the configuration module's is "all". */
  datatype ResponseTypes = Success | Union | Any

  const DefaultResponseTypes: ResponseTypes := Success

  datatype RenderConfig = RenderConfig(
    name: string,
    pyPath: string,
    pyiPath: string,
    clientTypeFormat: Template,
    resourceTypeFormat: Template,
    operationTypeFormat: Template,
    modelTypeFormat: Template,
    arrayTypes: Config.ArrayTypes,
    responseTypes: ResponseTypes,
    modelInheritance: bool,
    customTemplatesDir: Option<string>)

  /** `RenderConfig(...)`: the path must end in ".py"; the stub path appends
      "i"; an absent or empty format and an absent policy take the default;
      `model_inheritance` and the template directory are kept as given. */
  function NewRenderConfig(
    name: string,
    path: string,
    clientTypeFormat: Option<Template>,
    resourceTypeFormat: Option<Template>,
    operationTypeFormat: Option<Template>,
    modelTypeFormat: Option<Template>,
    arrayTypes: Option<Config.ArrayTypes>,
    responseTypes: Option<ResponseTypes>,
    modelInheritance: bool,
    customTemplatesDir: Option<string>): (r: Result<RenderConfig, Config.ConfigError>)
    ensures r.Err? <==> !Text.EndsWith(path, ".py")
    ensures r.Err? ==> r.error == Config.PathNotPy
    ensures r.Ok? ==> r.value.name == name && r.value.pyPath == path
    ensures r.Ok? ==> |r.value.pyiPath| == |path| + 1 && r.value.pyiPath[..|path|] == path
    ensures r.Ok? ==> Text.EndsWith(r.value.pyiPath, ".pyi")
    ensures r.Ok? ==> r.value.clientTypeFormat == Config.OrDefault(clientTypeFormat, Config.DefaultClientTypeFormat)
    ensures r.Ok? ==> r.value.resourceTypeFormat == Config.OrDefault(resourceTypeFormat, Config.DefaultResourceTypeFormat)
    ensures r.Ok? ==> r.value.operationTypeFormat == Config.OrDefault(operationTypeFormat, Config.DefaultOperationTypeFormat)
    ensures r.Ok? ==> r.value.modelTypeFormat == Config.OrDefault(modelTypeFormat, Config.DefaultModelTypeFormat)
    ensures r.Ok? ==> r.value.arrayTypes == (if arrayTypes.Some? then arrayTypes.value else Config.List)
    ensures r.Ok? ==> r.value.responseTypes == (if responseTypes.Some? then responseTypes.value else Success)
    ensures r.Ok? ==> r.value.modelInheritance == modelInheritance && r.value.customTemplatesDir == customTemplatesDir
  {
    if !Text.EndsWith(path, ".py") then Err(Config.PathNotPy)
    else
      Config.StubPath(path);
      Ok(RenderConfig(
        name, path, path + "i",
        Config.OrDefault(clientTypeFormat, Config.DefaultClientTypeFormat),
        Config.OrDefault(resourceTypeFormat, Config.DefaultResourceTypeFormat),
        Config.OrDefault(operationTypeFormat, Config.DefaultOperationTypeFormat),
        Config.OrDefault(modelTypeFormat, Config.DefaultModelTypeFormat),
        if arrayTypes.Some? then arrayTypes.value else Config.DefaultArrayTypes,
        if responseTypes.Some? then responseTypes.value else DefaultResponseTypes,
        modelInheritance,
        customTemplatesDir))
  }

  /** `RenderConfig(name=..., path=...)` with every optional argument left out. */
  function DefaultRenderConfig(name: string, path: string): Result<RenderConfig, Config.ConfigError>
  {
    NewRenderConfig(name, path, None, None, None, None, None, None, false, None)
  }

  function ClientType(rc: RenderConfig): string { Fill(rc.clientTypeFormat, rc.name) }

  function ResourceType(rc: RenderConfig, resourceName: string): string { Fill(rc.resourceTypeFormat, resourceName) }

  function OperationType(rc: RenderConfig, operationName: string): string { Fill(rc.operationTypeFormat, operationName) }

  function ModelType(rc: RenderConfig, modelName: string): string { Fill(rc.modelTypeFormat, modelName) }

  /** `array_type_template`: the template of the configured array policy. */
  function ArrayTypeTemplate(rc: RenderConfig): Template { Config.ArrayTemplate(rc.arrayTypes) }

  /** With the default formats the generated names append "SwaggerClient",
      "Resource", "Operation" and "Model"; the default array template is
      `typing.List[...]`. */
  lemma DefaultTypeNames(name: string, path: string, resourceName: string, operationName: string, modelName: string, item: string)
    requires Text.EndsWith(path, ".py")
    ensures var rc := DefaultRenderConfig(name, path).value;
      ClientType(rc) == name + "SwaggerClient" &&
      ResourceType(rc, resourceName) == resourceName + "Resource" &&
      OperationType(rc, operationName) == operationName + "Operation" &&
      ModelType(rc, modelName) == modelName + "Model" &&
      Fill(ArrayTypeTemplate(rc), item) == "typing.List[" + item + "]" &&
      rc.responseTypes == Success && !rc.modelInheritance
  {
    FillPrefixed("SwaggerClient", name);
    FillPrefixed("Resource", resourceName);
    FillPrefixed("Operation", operationName);
    FillPrefixed("Model", modelName);
    FillAround("typing.List[", "]", item);
  }

  /** Filling the array template with an item type, for each policy. */
  lemma ArrayTypeTemplateFill(rc: RenderConfig, item: string)
    ensures Fill(ArrayTypeTemplate(rc), item) == match rc.arrayTypes
      case List => "typing.List[" + item + "]"
      case Sequence => "typing.Sequence[" + item + "]"
      case Union => "typing.Union[typing.List[" + item + "], typing.Tuple[" + item + ", ...]]"
  {
    Config.ArrayTemplateFill(rc.arrayTypes, item);
  }

  /** Given the same arguments, the renderer's settings produce the same
      names and the same array template as the configuration object. */
  lemma AgreesWithConfig(
    name: string, path: string,
    clientTypeFormat: Option<Template>, resourceTypeFormat: Option<Template>,
    operationTypeFormat: Option<Template>, modelTypeFormat: Option<Template>,
    arrayTypes: Option<Config.ArrayTypes>, resourceName: string, operationName: string, modelName: string)
    requires Text.EndsWith(path, ".py")
    ensures var rc := NewRenderConfig(name, path, clientTypeFormat, resourceTypeFormat, operationTypeFormat,
                                      modelTypeFormat, arrayTypes, None, false, None).value;
      var c := Config.NewConfig(name, path, clientTypeFormat, resourceTypeFormat, operationTypeFormat,
                                modelTypeFormat, arrayTypes, None, None, None, None).value;
      ClientType(rc) == Config.ClientType(c) &&
      ResourceType(rc, resourceName) == Config.ResourceType(c, resourceName) &&
      OperationType(rc, operationName) == Config.OperationType(c, operationName) &&
      ModelType(rc, modelName) == Config.ModelType(c, modelName) &&
      ArrayTypeTemplate(rc) == Config.ArrayTypeTemplate(c) &&
      rc.pyiPath == c.pyiPath
  {
  }

  /** A type as the renderer reads it: a base name, whether it names a
      model, and the outer templates, innermost first. */
  datatype TypeInfo = TypeInfo(base: string, isModel: bool, outer: seq<Template>)

  /** The marker an array level carries in `outer`: the text "typing.List[{}]". */
  const ArrayMarker: Template := Config.ListTemplate

  const ArrayMarkerText: string := "typing.List[{}]"

  lemma ArrayMarkerTextIs()
    ensures Templates.Text(ArrayMarker) == ArrayMarkerText
  {
    FillAround("typing.List[", "]", "{}");
  }

  /** `outer == ARRAY_TYPE_TEMPLATE`: the comparison is on the template's text. */
  predicate IsArrayMarker(t: Template)
  {
    Templates.Text(t) == ArrayMarkerText
  }

  /** The template actually applied for one outer entry. */
  function Outer(rc: RenderConfig, t: Template): Template
  {
    if IsArrayMarker(t) then ArrayTypeTemplate(rc) else t
  }

  /** The innermost type string: the model's type name, or the base as is. */
  function BaseType(rc: RenderConfig, ti: TypeInfo): string
  {
    if ti.isModel then ModelType(rc, ti.base) else ti.base
  }

  /** The string after applying the outer templates in order, the first innermost. */
  function ApplyOuters(rc: RenderConfig, s: string, outer: seq<Template>): string
    decreases |outer|
  {
    if outer == [] then s
    else Fill(Outer(rc, outer[|outer| - 1]), ApplyOuters(rc, s, outer[..|outer| - 1]))
  }

  function TypeString(rc: RenderConfig, ti: TypeInfo): string
  {
    ApplyOuters(rc, BaseType(rc, ti), ti.outer)
  }

  /** `type()`: start from the base type and fill each outer template in
      turn, the array marker standing for the policy's template. */
  method Type(rc: RenderConfig, ti: TypeInfo) returns (s: string)
    ensures s == TypeString(rc, ti)
  {
    s := if ti.isModel then ModelType(rc, ti.base) else ti.base;
    for i := 0 to |ti.outer|
      invariant s == ApplyOuters(rc, BaseType(rc, ti), ti.outer[..i])
    {
      var outer := ti.outer[i];
      if IsArrayMarker(outer) {
        outer := ArrayTypeTemplate(rc);
      }
      s := Fill(outer, s);
      assert ti.outer[..i + 1][..i] == ti.outer[..i];
    }
    assert ti.outer[..|ti.outer|] == ti.outer;
  }

  /** The descriptor reached by wrapping `t` in each outer template in turn
      (`TypeDef.wrap`), the first one first. */
  function WrapChain(rc: RenderConfig, t: TypeDef, outer: seq<Template>): TypeDef
    decreases |outer|
  {
    if outer == [] then t else WrapChain(rc, Wrap(t, Outer(rc, outer[0])), outer[1..])
  }

  lemma {:induction false} WrapChainSnoc(rc: RenderConfig, t: TypeDef, outer: seq<Template>, last: Template)
    ensures WrapChain(rc, t, outer + [last]) == Wrap(WrapChain(rc, t, outer), Outer(rc, last))
    decreases |outer|
  {
    if outer != [] {
      assert (outer + [last])[1..] == outer[1..] + [last];
      WrapChainSnoc(rc, Wrap(t, Outer(rc, outer[0])), outer[1..], last);
    }
  }

  /** The type string is the format of the descriptor obtained by wrapping
      the base type once per outer template, first to last; any model name
      the descriptor carries is left as it was. */
  lemma {:induction false} TypeIsWrapChain(rc: RenderConfig, base: string, model: Option<string>, outer: seq<Template>)
    ensures WrapChain(rc, TypeDef(base, model), outer) == TypeDef(ApplyOuters(rc, base, outer), model)
    decreases |outer|
  {
    if outer != [] {
      var n := |outer| - 1;
      TypeIsWrapChain(rc, base, model, outer[..n]);
      assert outer == outer[..n] + [outer[n]];
      WrapChainSnoc(rc, TypeDef(base, model), outer[..n], outer[n]);
    }
  }

  /** The first outer template is the innermost one: it is filled with the
      base string, and the rest are applied to the result. */
  lemma FirstOuterInnermost(rc: RenderConfig, s: string, first: Template, rest: seq<Template>)
    ensures ApplyOuters(rc, s, [first] + rest) == ApplyOuters(rc, Fill(Outer(rc, first), s), rest)
  {
    TypeIsWrapChain(rc, s, None, [first] + rest);
    assert ([first] + rest)[1..] == rest;
    TypeIsWrapChain(rc, Fill(Outer(rc, first), s), None, rest);
  }

  /** Templates other than the array marker are used as they are: without
      the marker, the array policy makes no difference. */
  lemma {:induction false} PolicyOnlyAffectsMarker(rc1: RenderConfig, rc2: RenderConfig, s: string, outer: seq<Template>)
    requires forall i :: 0 <= i < |outer| ==> !IsArrayMarker(outer[i])
    ensures ApplyOuters(rc1, s, outer) == ApplyOuters(rc2, s, outer)
    decreases |outer|
  {
    if outer != [] {
      PolicyOnlyAffectsMarker(rc1, rc2, s, outer[..|outer| - 1]);
    }
  }

  /** The marker stands for the policy's template; the optional template
      is used as it is. */
  lemma KnownOuters(rc: RenderConfig)
    ensures Outer(rc, ArrayMarker) == ArrayTypeTemplate(rc)
    ensures Outer(rc, Types.OptionalTemplate) == Types.OptionalTemplate
  {
    ArrayMarkerTextIs();
    OptionalIsNotMarker();
  }

  lemma OptionalIsNotMarker()
    ensures !IsArrayMarker(Types.OptionalTemplate)
  {
    FillAround("typing.Optional[", "]", "{}");
    assert Templates.Text(Types.OptionalTemplate)[7] == 'O';
    assert ArrayMarkerText[7] == 'L';
  }

  /** One and two outer templates, spelled out. */
  lemma ShortOuters(rc: RenderConfig, s: string, a: Template, b: Template)
    ensures ApplyOuters(rc, s, [a]) == Fill(Outer(rc, a), s)
    ensures ApplyOuters(rc, s, [a, b]) == Fill(Outer(rc, b), Fill(Outer(rc, a), s))
  {
    assert [a][..0] == [];
    assert [a, b][..1] == [a];
  }

  /** The shapes the renderer meets: a bare type, an optional, an array,
      an array of optionals, an optional array and a nested array. */
  lemma TypeShapes(rc: RenderConfig, s: string)
    ensures TypeString(rc, TypeInfo(s, false, [])) == s
    ensures TypeString(rc, TypeInfo(s, false, [Types.OptionalTemplate])) == "typing.Optional[" + s + "]"
    ensures TypeString(rc, TypeInfo(s, false, [ArrayMarker])) == Fill(ArrayTypeTemplate(rc), s)
    ensures TypeString(rc, TypeInfo(s, false, [Types.OptionalTemplate, ArrayMarker])) ==
      Fill(ArrayTypeTemplate(rc), "typing.Optional[" + s + "]")
    ensures TypeString(rc, TypeInfo(s, false, [ArrayMarker, Types.OptionalTemplate])) ==
      "typing.Optional[" + Fill(ArrayTypeTemplate(rc), s) + "]"
    ensures TypeString(rc, TypeInfo(s, false, [ArrayMarker, ArrayMarker])) ==
      Fill(ArrayTypeTemplate(rc), Fill(ArrayTypeTemplate(rc), s))
  {
    var opt := Types.OptionalTemplate;
    KnownOuters(rc);
    ShortOuters(rc, s, opt, ArrayMarker);
    ShortOuters(rc, s, ArrayMarker, opt);
    ShortOuters(rc, s, ArrayMarker, ArrayMarker);
    FillAround("typing.Optional[", "]", s);
    FillAround("typing.Optional[", "]", Fill(ArrayTypeTemplate(rc), s));
  }

  /** A model base goes through the model format: "Pet" becomes "PetModel"
      under the default format. */
  lemma ModelBase(rc: RenderConfig, base: string)
    requires rc.modelTypeFormat == Config.DefaultModelTypeFormat
    ensures TypeString(rc, TypeInfo(base, true, [])) == base + "Model"
    ensures TypeString(rc, TypeInfo(base, false, [])) == base
  {
    FillPrefixed("Model", base);
  }

  /** The list policy, for any item type `s` ("str" in the worked examples
      of the renderer's tests). */
  lemma ListPolicyTypes(rc: RenderConfig, s: string)
    requires rc.arrayTypes == Config.List
    ensures TypeString(rc, TypeInfo(s, false, [ArrayMarker])) == "typing.List[" + s + "]"
    ensures TypeString(rc, TypeInfo(s, false, [Types.OptionalTemplate, ArrayMarker])) ==
      "typing.List[" + ("typing.Optional[" + s + "]") + "]"
    ensures TypeString(rc, TypeInfo(s, false, [ArrayMarker, Types.OptionalTemplate])) ==
      "typing.Optional[" + ("typing.List[" + s + "]") + "]"
    ensures TypeString(rc, TypeInfo(s, false, [ArrayMarker, ArrayMarker])) ==
      "typing.List[" + ("typing.List[" + s + "]") + "]"
  {
    TypeShapes(rc, s);
    ArrayTypeTemplateFill(rc, s);
    ArrayTypeTemplateFill(rc, "typing.Optional[" + s + "]");
    ArrayTypeTemplateFill(rc, "typing.List[" + s + "]");
  }

  /** The sequence policy, for any item type `s`. */
  lemma SequencePolicyTypes(rc: RenderConfig, s: string)
    requires rc.arrayTypes == Config.Sequence
    ensures TypeString(rc, TypeInfo(s, false, [ArrayMarker])) == "typing.Sequence[" + s + "]"
    ensures TypeString(rc, TypeInfo(s, false, [Types.OptionalTemplate, ArrayMarker])) ==
      "typing.Sequence[" + ("typing.Optional[" + s + "]") + "]"
    ensures TypeString(rc, TypeInfo(s, false, [ArrayMarker, Types.OptionalTemplate])) ==
      "typing.Optional[" + ("typing.Sequence[" + s + "]") + "]"
    ensures TypeString(rc, TypeInfo(s, false, [ArrayMarker, ArrayMarker])) ==
      "typing.Sequence[" + ("typing.Sequence[" + s + "]") + "]"
  {
    TypeShapes(rc, s);
    ArrayTypeTemplateFill(rc, s);
    ArrayTypeTemplateFill(rc, "typing.Optional[" + s + "]");
    ArrayTypeTemplateFill(rc, "typing.Sequence[" + s + "]");
  }

  /** The union policy, for any item type `s`: each array level names its
      item type twice, once in the list and once in the tuple. */
  lemma UnionPolicyTypes(rc: RenderConfig, s: string)
    requires rc.arrayTypes == Config.Union
    ensures TypeString(rc, TypeInfo(s, false, [ArrayMarker])) == UnionOf(s)
    ensures TypeString(rc, TypeInfo(s, false, [Types.OptionalTemplate, ArrayMarker])) ==
      UnionOf("typing.Optional[" + s + "]")
    ensures TypeString(rc, TypeInfo(s, false, [ArrayMarker, Types.OptionalTemplate])) ==
      "typing.Optional[" + UnionOf(s) + "]"
    ensures TypeString(rc, TypeInfo(s, false, [ArrayMarker, ArrayMarker])) == UnionOf(UnionOf(s))
  {
    TypeShapes(rc, s);
    ArrayTypeTemplateFill(rc, s);
    ArrayTypeTemplateFill(rc, "typing.Optional[" + s + "]");
    ArrayTypeTemplateFill(rc, UnionOf(s));
  }

  /** The union annotation of an item type, written out. */
  function UnionOf(item: string): string
  {
    "typing.Union[typing.List[" + item + "], typing.Tuple[" + item + ", ...]]"
  }

  /** The examples that do not depend on the array policy: a bare "str"
      stays as it is, and the model "Pet" becomes "PetModel" under the
      default model format. */
  lemma PetExample(rc: RenderConfig)
    requires rc.modelTypeFormat == Config.DefaultModelTypeFormat
    ensures TypeString(rc, TypeInfo("Pet", true, [])) == "PetModel"
    ensures TypeString(rc, TypeInfo("str", false, [])) == "str"
  {
    ModelBase(rc, "Pet");
  }

  // ---------------------------------------------------------------------
  // Inheritance sequencing

  /** `{mi.name: mi for mi in model_infos}`, keeping only the parent list of
      the model each name maps to (the last model with that name). */
  function ParentIndex(models: seq<ModelInfo>): (g: map<string, seq<string>>)
    ensures g.Keys == set i | 0 <= i < |models| :: models[i].name
    decreases |models|
  {
    if models == [] then map[]
    else
      var n := |models| - 1;
      var g := ParentIndex(models[..n]);
      assert (set i | 0 <= i < |models| :: models[i].name) == (set i | 0 <= i < n :: models[..n][i].name) + {models[n].name};
      g[models[n].name := models[n].parents]
  }

  predicate DistinctNames(models: seq<ModelInfo>)
  {
    forall i, j :: 0 <= i < j < |models| ==> models[i].name != models[j].name
  }

  /** With distinct names, a model's entry is its own parent list. */
  lemma {:induction false} ParentIndexAt(models: seq<ModelInfo>, k: nat)
    requires DistinctNames(models) && k < |models|
    ensures ParentIndex(models)[models[k].name] == models[k].parents
    decreases |models|
  {
    var n := |models| - 1;
    if k < n {
      assert DistinctNames(models[..n]);
      ParentIndexAt(models[..n], k);
    }
  }

  /** Every parent named is itself a model, and `rank` strictly decreases
      from a model to each parent: the inheritance graph is acyclic. */
  ghost predicate Ranked(g: map<string, seq<string>>, rank: map<string, nat>)
  {
    forall n | n in g :: n in rank && forall p | p in g[n] :: p in g && p in rank && rank[p] < rank[n]
  }

  /** The level of a model: 0 without parents, else one more than the
      greatest level among its parents. */
  ghost function Level(g: map<string, seq<string>>, rank: map<string, nat>, n: string): nat
    requires Ranked(g, rank) && n in g
    decreases rank[n], 1
  {
    if g[n] == [] then 0 else 1 + MaxLevel(g, rank, g[n], rank[n])
  }

  /** `max(map(get_level, ps))`; 0 for no parents (never used that way). */
  ghost function MaxLevel(g: map<string, seq<string>>, rank: map<string, nat>, ps: seq<string>, bound: nat): nat
    requires Ranked(g, rank)
    requires forall p | p in ps :: p in g && p in rank && rank[p] < bound
    decreases bound, 0, |ps|
  {
    if ps == [] then 0
    else
      var m := MaxLevel(g, rank, ps[..|ps| - 1], bound);
      var l := Level(g, rank, ps[|ps| - 1]);
      if l > m then l else m
  }

  lemma {:induction false} MaxLevelAbove(g: map<string, seq<string>>, rank: map<string, nat>, ps: seq<string>, bound: nat, i: nat)
    requires Ranked(g, rank)
    requires forall p | p in ps :: p in g && p in rank && rank[p] < bound
    requires i < |ps|
    ensures Level(g, rank, ps[i]) <= MaxLevel(g, rank, ps, bound)
    decreases |ps|
  {
    var n := |ps| - 1;
    if i < n {
      assert ps[..n][i] == ps[i];
      MaxLevelAbove(g, rank, ps[..n], bound, i);
    }
  }

  lemma {:induction false} MaxLevelAttained(g: map<string, seq<string>>, rank: map<string, nat>, ps: seq<string>, bound: nat)
    returns (i: nat)
    requires Ranked(g, rank)
    requires forall p | p in ps :: p in g && p in rank && rank[p] < bound
    requires ps != []
    ensures i < |ps| && Level(g, rank, ps[i]) == MaxLevel(g, rank, ps, bound)
    decreases |ps|
  {
    var n := |ps| - 1;
    if n == 0 || Level(g, rank, ps[n]) > MaxLevel(g, rank, ps[..n], bound) {
      i := n;
    } else {
      i := MaxLevelAttained(g, rank, ps[..n], bound);
      assert ps[..n][i] == ps[i];
    }
  }

  /** A model has level 0 exactly when it has no parents; every parent is
      at a strictly lower level; and some parent is exactly one level down. */
  lemma LevelSpec(g: map<string, seq<string>>, rank: map<string, nat>, n: string)
    requires Ranked(g, rank) && n in g
    ensures Level(g, rank, n) == 0 <==> g[n] == []
    ensures forall i :: 0 <= i < |g[n]| ==> g[n][i] in g && Level(g, rank, g[n][i]) < Level(g, rank, n)
    ensures g[n] != [] ==> exists i :: 0 <= i < |g[n]| && g[n][i] in g && Level(g, rank, n) == Level(g, rank, g[n][i]) + 1
  {
    var ps := g[n];
    forall i | 0 <= i < |ps| ensures ps[i] in g && Level(g, rank, ps[i]) < Level(g, rank, n) {
      assert ps[i] in ps;
      MaxLevelAbove(g, rank, ps, rank[n], i);
    }
    if ps != [] {
      var i := MaxLevelAttained(g, rank, ps, rank[n]);
      assert ps[i] in ps;
    }
  }

  /** The rank is only a witness of acyclicity: any two witnesses give
      every model the same level. */
  lemma {:induction false} LevelWitnessFree(g: map<string, seq<string>>, r1: map<string, nat>, r2: map<string, nat>, n: string)
    requires Ranked(g, r1) && Ranked(g, r2) && n in g
    ensures Level(g, r1, n) == Level(g, r2, n)
    decreases r1[n], 1
  {
    if g[n] != [] {
      MaxLevelWitnessFree(g, r1, r2, g[n], r1[n], r2[n]);
    }
  }

  lemma {:induction false} MaxLevelWitnessFree(g: map<string, seq<string>>, r1: map<string, nat>, r2: map<string, nat>,
                                               ps: seq<string>, b1: nat, b2: nat)
    requires Ranked(g, r1) && Ranked(g, r2)
    requires forall p | p in ps :: p in g && p in r1 && r1[p] < b1
    requires forall p | p in ps :: p in g && p in r2 && r2[p] < b2
    ensures MaxLevel(g, r1, ps, b1) == MaxLevel(g, r2, ps, b2)
    decreases b1, 0, |ps|
  {
    if ps != [] {
      var n := |ps| - 1;
      assert ps[n] in ps;
      MaxLevelWitnessFree(g, r1, r2, ps[..n], b1, b2);
      LevelWitnessFree(g, r1, r2, ps[n]);
    }
  }

  /** The memo `levels` holds only correct levels of known models. */
  ghost predicate Memo(g: map<string, seq<string>>, rank: map<string, nat>, levels: map<string, nat>)
  {
    Ranked(g, rank) && forall n | n in levels :: n in g && levels[n] == Level(g, rank, n)
  }

  /** `get_level`: a memoised level answers at once and leaves the memo as
      it was; otherwise the parents' levels are computed first, left to
      right, and the new level is recorded. The memo only grows. */
  method GetLevel(g: map<string, seq<string>>, ghost rank: map<string, nat>, name: string, levels: map<string, nat>)
    returns (level: nat, levels': map<string, nat>)
    requires Memo(g, rank, levels) && name in g
    ensures level == Level(g, rank, name)
    ensures Memo(g, rank, levels') && name in levels' && levels.Keys <= levels'.Keys
    ensures name in levels ==> levels' == levels
    decreases rank[name]
  {
    if name in levels {
      return levels[name], levels;
    }
    var parents := g[name];
    levels' := levels;
    if parents != [] {
      var m := 0;
      for i := 0 to |parents|
        invariant Memo(g, rank, levels') && levels.Keys <= levels'.Keys
        invariant m == MaxLevel(g, rank, parents[..i], rank[name])
      {
        assert parents[i] in parents;
        var l;
        l, levels' := GetLevel(g, rank, parents[i], levels');
        assert parents[..i + 1][..i] == parents[..i];
        m := if l > m then l else m;
      }
      assert parents[..|parents|] == parents;
      level := m + 1;
    } else {
      level := 0;
    }
    levels' := levels'[name := level];
  }

  /** A level for any name: the model's level when the graph is ranked and
      the name is known (always so for the models being sorted), else 0. */
  ghost function LevelOf(g: map<string, seq<string>>, rank: map<string, nat>, n: string): nat
  {
    if Ranked(g, rank) && n in g then Level(g, rank, n) else 0
  }

  /** The sort key `(get_level(mi.name), mi.name)`. */
  ghost function LevelKey(g: map<string, seq<string>>, rank: map<string, nat>): ModelInfo -> Sorting.SortKey
  {
    (mi: ModelInfo) => Sorting.SortKey(LevelOf(g, rank, mi.name), mi.name)
  }

  /** The order `_topo_sort` leaves the models in: a stable sort by (level, name). */
  ghost function TopoOrder(models: seq<ModelInfo>, rank: map<string, nat>): seq<ModelInfo>
  {
    Sorting.SortBy(models, LevelKey(ParentIndex(models), rank))
  }

  /** The key the sort reads, from the filled memo. */
  function MemoKey(levels: map<string, nat>): ModelInfo -> Sorting.SortKey
  {
    (mi: ModelInfo) => Sorting.SortKey(if mi.name in levels then levels[mi.name] else 0, mi.name)
  }

  /** Once every model's level is memoised, sorting by the memo is sorting
      by (level, name). */
  lemma MemoOrder(models: seq<ModelInfo>, rank: map<string, nat>, levels: map<string, nat>)
    requires Memo(ParentIndex(models), rank, levels)
    requires forall j :: 0 <= j < |models| ==> models[j].name in levels
    ensures Sorting.SortBy(models, MemoKey(levels)) == TopoOrder(models, rank)
  {
    var g := ParentIndex(models);
    forall mi | mi in models ensures MemoKey(levels)(mi) == LevelKey(g, rank)(mi) {
      var j :| 0 <= j < |models| && models[j] == mi;
    }
    Sorting.SortByCongruent(models, MemoKey(levels), LevelKey(g, rank));
  }

  lemma ParentIndexHas(models: seq<ModelInfo>, i: nat)
    requires i < |models|
    ensures models[i].name in ParentIndex(models)
  {
    assert models[i].name in set k | 0 <= k < |models| :: models[k].name;
  }

  /** The key pass of `model_infos.sort(key=...)`: `get_level` is called on
      each model's name in list order, all calls sharing one memo. Afterwards
      every name is memoised with its level. */
  method LevelsInOrder(minfos: map<string, seq<string>>, ghost rank: map<string, nat>, ms: seq<ModelInfo>)
    returns (levels: map<string, nat>)
    requires Ranked(minfos, rank)
    requires forall j :: 0 <= j < |ms| ==> ms[j].name in minfos
    ensures Memo(minfos, rank, levels)
    ensures forall j :: 0 <= j < |ms| ==> ms[j].name in levels
  {
    levels := map[];
    for i := 0 to |ms|
      invariant Memo(minfos, rank, levels)
      invariant forall j :: 0 <= j < i ==> ms[j].name in levels
    {
      var level;
      level, levels := GetLevel(minfos, rank, ms[i].name, levels);
    }
  }

  /** `_topo_sort`: index the models by name, compute each model's level in
      list order through the shared memo, then sort the list in place by
      (level, name). Every parent must be one of the models and the
      inheritance graph must be acyclic, as witnessed by `rank`. */
  method TopoSort(models: array<ModelInfo>, ghost rank: map<string, nat>)
    requires Ranked(ParentIndex(models[..]), rank)
    modifies models
    ensures models[..] == TopoOrder(old(models[..]), rank)
  {
    var ms := models[..];
    var minfos := ParentIndex(ms);
    forall j | 0 <= j < |ms| ensures ms[j].name in minfos {
      ParentIndexHas(ms, j);
    }
    var levels := LevelsInOrder(minfos, rank, ms);
    MemoOrder(ms, rank, levels);
    var sorted := Sorting.SortBy(ms, MemoKey(levels));
    forall i | 0 <= i < models.Length {
      models[i] := sorted[i];
    }
  }

  /** The result is sorted by (level, name) and is a permutation of the input. */
  lemma TopoOrderSorted(models: seq<ModelInfo>, rank: map<string, nat>)
    ensures Sorting.SortedBy(TopoOrder(models, rank), LevelKey(ParentIndex(models), rank))
    ensures multiset(TopoOrder(models, rank)) == multiset(models)
  {
    Sorting.SortBySorted(models, LevelKey(ParentIndex(models), rank));
  }

  /** A parent of a model has a strictly lower level than the model. */
  lemma ParentBelow(models: seq<ModelInfo>, rank: map<string, nat>, k: nat, p: string)
    requires Ranked(ParentIndex(models), rank) && DistinctNames(models) && k < |models|
    requires p in models[k].parents
    ensures LevelOf(ParentIndex(models), rank, p) < LevelOf(ParentIndex(models), rank, models[k].name)
  {
    var g := ParentIndex(models);
    ParentIndexAt(models, k);
    ParentIndexHas(models, k);
    LevelSpec(g, rank, models[k].name);
    var i :| 0 <= i < |g[models[k].name]| && g[models[k].name][i] == p;
  }

  /** Every parent is written before each of its children. */
  lemma ParentsFirst(models: seq<ModelInfo>, rank: map<string, nat>, i: nat, j: nat)
    requires Ranked(ParentIndex(models), rank) && DistinctNames(models)
    requires i < |TopoOrder(models, rank)| && j < |TopoOrder(models, rank)|
    requires TopoOrder(models, rank)[i].name in TopoOrder(models, rank)[j].parents
    ensures i < j
  {
    var key := LevelKey(ParentIndex(models), rank);
    var r := TopoOrder(models, rank);
    Sorting.SortedFromInput(models, key, j);
    var k :| 0 <= k < |models| && models[k] == r[j];
    ParentBelow(models, rank, k, r[i].name);
    Sorting.SortBySorted(models, key);
    Sorting.SmallerKeyFirst(r, key, i, j);
  }

  /** The order does not depend on which acyclicity witness is chosen. */
  lemma TopoOrderWitnessFree(models: seq<ModelInfo>, r1: map<string, nat>, r2: map<string, nat>)
    requires Ranked(ParentIndex(models), r1) && Ranked(ParentIndex(models), r2)
    ensures TopoOrder(models, r1) == TopoOrder(models, r2)
  {
    var g := ParentIndex(models);
    forall mi | mi in models ensures LevelKey(g, r1)(mi) == LevelKey(g, r2)(mi) {
      var j :| 0 <= j < |models| && models[j] == mi;
      LevelWitnessFree(g, r1, r2, mi.name);
    }
    Sorting.SortByCongruent(models, LevelKey(g, r1), LevelKey(g, r2));
  }
}
