# bravado-types, modelled in Dafny

bravado-types reads a Swagger 2.0 spec that bravado-core has loaded and
generates a Python module and a `.pyi` stub with typed classes for the
client, its resources, operations and models. This project models the core
of that generator:

- **the resolver** (`bravado_types/types.py`): maps a schema to a Python type
  annotation. It handles arrays, objects, model references and primitive
  types with their formats, and puts `typing.Optional[...]` around it when
  the schema has `x-nullable`;
- **the extractor** (`bravado_types/extract.py`): turns the spec into sorted
  records:
  - models, with each property's `required` flag found by a worklist over
    `allOf`;
  - resources, operations, parameters and responses;
  - a cache that keeps one record per operation name and rejects two
    different operations that share a name;
- **the records** (`bravado_types/data_model.py`): `TypeDef` with `wrap`,
  `__eq__` and `__hash__`, and the `*Info` records with their equalities and
  `ResponseInfo.success`;
- **the configuration** (`bravado_types/config.py`):
  - `Config` with its defaults, the `.py` path check and the `.pyi` path;
  - the type-name accessors and the array-type template for each array
    policy;
  - `CustomFormats`, which sorts and de-duplicates its packages and
    validates their names;
- **the renderer's pure parts** (`bravado_types/render.py`):
  - `RenderConfig` with its defaults, name accessors and array template;
  - `RenderConfig.type`, which resolves a type descriptor and replaces the
    array marker by the configured array template;
  - `_topo_sort`, which orders models so that parents come before their
    children.

## Modules

| module | file | what it holds |
|---|---|---|
| `Wrappers` | wrappers.dfy | `Option` and `Result` |
| `Text` | text.dfy | Python's string order, `str.split`, `str.isidentifier`, `int()` of a digit string |
| `Sorting` | sorting.dfy | a stable sort by key, the model of `sorted` and `list.sort` with a key |
| `Templates` | templates.dfy | `str.format` on templates with `{}` or `{0}` holes |
| `DataModel` | data_model.dfy | the records of `data_model.py` |
| `Config` | config.dfy | `config.py` |
| `Types` | types.dfy | the resolver |
| `Extract` | extract.dfy | the extractor, with the operation cache as a class |
| `Render` | render.dfy | the pure parts of `render.py` |

### Representation choices

- **Dictionaries** are association lists. `Sorting.IsDict` says their keys
  are distinct.
- **`sorted(d.items())`** is `Sorting.SortBy(xs, ItemKey)`. This is a
  stable insertion sort by a key of a level and a name, compared in
  lexicographic order. `Sorting.SortByIsStableSort` shows that any list
  that is sorted by the key and keeps the input order among equal keys is
  `SortBy`'s result. Python's `sorted` and `list.sort` return such a list.
- **Record equality**: the records are Dafny datatypes, so two records are
  equal exactly when every field is. This stands for the field-by-field
  `__eq__` of each record in `data_model.py`.
- **Format strings** are sequences of literal segments and holes.
  - `fmt.format(x)` is `Templates.Fill`.
  - A format given as text, such as the array marker `"typing.List[{}]"`,
    is compared through `Templates.Text`, which writes each hole as `{}`.
  - So `Render.IsArrayMarker` also matches an outer `"typing.List[{0}]"`,
    and `Render.Type` swaps it for the policy's template. Python compares
    the strings (`render.py:127`), so it would keep that outer as written.
- **bravado-core objects** (`Model`, `Operation`, `Param`, `Resource`) are
  handles: an operation is an index into the spec's operation table. Python's
  `operation is not oinfo.operation` becomes a comparison of handles.
  - `spec.deref` is applied before the schemas reach the model.
  - The classifier `get_type_from_schema` becomes the schema's `kind` field.
  - `get_param_type_spec` becomes the parameter's `typeSpec` field.
- **Warnings** are returned with the resolved type as a list
  (`Types.Resolved`). They are not emitted.
- **Errors** become `Result` values. These are:
  - the `.py` path check;
  - an invalid package name;
  - a non-unique operation id.
- **The operation cache** of `_get_resource_infos` is a class,
  `Extract.OperationCache`. Its `entries` field is the dictionary, and
  `GetOperationInfo` updates it.
- **The level memo of `_topo_sort`** is a map that `Render.GetLevel` takes
  and returns.
  - Termination of `get_level` rests on a ghost rank: each parent ranks
    below its child. The source gives no such witness. The order and the
    levels are proved not to depend on the rank chosen
    (`Render.LevelWitnessFree`, `Render.TopoOrderWitnessFree`).

### Where the code and its tests or documentation disagree

The model follows the code in every case below except the last
sub-point on `_wrap`.

- **`types.py` and `data_model.py`.**
  - `types.py` imports `TypeInfo` from `data_model.py` and calls
    `TypeInfo(s)` and `_wrap(type_info, fmt)`. `data_model.py` defines
    `TypeDef`, not `TypeInfo`.
  - The resolver is modelled on `TypeDef`:
    - `TypeInfo(s)` is `TypeDef(s)` (`DataModel.Plain`);
    - `_wrap` fills the template with the descriptor's format text, as
      `TypeDef.wrap` does (`DataModel.Wrap`). As written, `types.py:133-134`
      formats the object itself, and for a `TypeDef` that would insert its
      `repr`. `tests/test_types.py:248` compares `get_type_info` results
      with plain strings, so the `TypeInfo` of that revision behaves as a
      string, and filling with the text follows that.
- **`render.py` and `types.py`.**
  - `render.py` imports `TypeInfo(base_type, is_model, *outer)` and the
    marker `ARRAY_TYPE_TEMPLATE`, and neither module defines either of them.
  - The model gives `TypeInfo` the shape `RenderConfig.type` reads and its
    tests construct (`Render.TypeInfo`).
  - The marker is `"typing.List[{}]"`, as the tests in
    `tests/test_render.py` use it.
- **The config argument.**
  - `extract.py` calls `get_type_info(spec, schema)` and
    `get_response_type_info(spec, rschema)` with no config, while
    `types.py` requires one.
  - The model threads a `Config.Config` through the extractor.
- **Model names in `RenderConfig.type`.**
  - `tests/test_render.py:9` expects `TypeInfo('Pet', is_model=True)` to
    give `'Pet'`.
  - The code applies `model_type`, which gives `'PetModel'` under the
    default format (`Render.PetExample`).
- **Response type names.**
  - `render.py` names its response-type values `success`, `union` and
    `any`.
  - `config.py` and its documentation say `success`, `all` and `any`.
  - Each module keeps its own enumeration (`Render.ResponseTypes`,
    `Config.ResponseTypes`).
- **Packages in `tests/test_types.py`.**
  - `tests/test_types.py:244` passes `packages=('ipaddress')`. That is a
    string, not a tuple, so `CustomFormats` iterates over its characters.
  - `Config.NewCustomFormats` takes a list of package names. The test's
    expected type does not depend on the packages.

## Model

| member | source | states |
|---|---|---|
| Text.LessTotal | bravado_types/extract.py:28 | Python's `<` on `str`, which every `sorted` here uses, is total on distinct strings |
| Text.LessTransitive | bravado_types/extract.py:28 | the same order is transitive |
| Text.DefaultLast | bravado_types/extract.py:115 | in a strictly sorted list of status keys, each of them `"default"` or a digit string, `"default"` can only be last |
| Text.ThreeDigitRange | bravado_types/data_model.py:114 | for a three-digit status, `200 <= int(status) < 300` holds exactly when the first digit is `2` |
| Text.SplitJoin | bravado_types/config.py:42 | `package.split('.')` loses nothing: joining the parts with `.` gives the package back, and no part contains a `.` |
| Text.AdjacentSeparatorsSplitEmpty | bravado_types/config.py:42 | two adjacent dots in a package name produce an empty part |
| Sorting.SortBy | bravado_types/extract.py:28 | the sorted list is a permutation of its input, of the same length |
| Sorting.SortBySorted | bravado_types/extract.py:28 | the sorted list is ordered by key |
| Sorting.SortByStrict | bravado_types/extract.py:28 | with distinct keys the sorted list is strictly increasing |
| Sorting.SortedItems | bravado_types/extract.py:28 | `sorted(d.items())` of a dictionary is a dictionary with the same items, in strictly increasing key order |
| Sorting.SortedFromInput | bravado_types/extract.py:28 | every element of the sorted list comes from the input |
| Sorting.InputInSorted | bravado_types/extract.py:28 | every element of the input appears in the sorted list |
| Sorting.SortByCongruent | bravado_types/render.py:192 | two keys that agree on every element give the same sort |
| Sorting.SmallerKeyFirst | bravado_types/render.py:192 | in a list sorted by key, an element with a smaller key comes first |
| Sorting.SortByStable | bravado_types/extract.py:28 | the sort is stable: the elements with any one key keep their input order |
| Sorting.SortedUnique | bravado_types/extract.py:28 | two lists sorted by key that agree, key by key, on which elements come in which order are equal |
| Sorting.SortByIsStableSort | bravado_types/extract.py:28 | every stable sort of the input by the key returns exactly `SortBy`'s list |
| Templates.FillLength | bravado_types/data_model.py:25 | `fmt.format(x)` has the literal length plus one copy of `x` per hole |
| Templates.FillInjective | bravado_types/data_model.py:25 | a format with at least one hole is injective in its argument |
| Templates.FillAround | bravado_types/data_model.py:25 | a `prefix{}suffix` format puts its argument between the prefix and the suffix, and has one hole |
| DataModel.Plain | bravado_types/data_model.py:15-21 | `TypeDef(fmt)`: a descriptor with the given format and no model name |
| DataModel.Wrap | bravado_types/data_model.py:23-25 | `wrap` fills the outer format with this descriptor's format and keeps its model name; `DataModel.WrapAround` and `DataModel.WrapInjective` state what that gives |
| DataModel.WrapAround | bravado_types/data_model.py:23-25 | `wrap` nests the format inside the outer format and keeps the model name |
| DataModel.WrapInjective | bravado_types/data_model.py:23-25 | two descriptors that wrap to the same descriptor are equal |
| DataModel.Hash | bravado_types/data_model.py:27-31 | `__hash__`: `31 * (31 * 1 + hash(fmt)) + hash(model)` over a given string hash; no property is stated about it (see "## Left out") |
| DataModel.IsSuccess | bravado_types/data_model.py:112-114 | `success`: not `"default"` and a numeric value in [200, 300); `DataModel.SuccessIs2xx` states it for three-digit codes |
| DataModel.SuccessIs2xx | bravado_types/data_model.py:112-114 | `success` is true exactly for a non-`"default"` three-digit status starting with `2` |
| Config.OrDefault | bravado_types/config.py:102-108 | `x or DEFAULT` for a format: a missing or empty format selects the default; `Config.GivenFormatUsed` states both cases |
| Config.NewConfig | bravado_types/config.py:95-120 | the constructor fails exactly when the path does not end in `.py`. Otherwise it keeps the name, the path, the custom formats and the templates directory, and the stub path is the path plus `i`, ending in `.pyi`. Each of the four type-name formats is the given one, or the default when none or an empty one is given. A given array policy, response policy or inheritance flag is kept; a missing one is `list`, `success` or false |
| Config.StubPath | bravado_types/config.py:97-100 | a `.py` path plus `i` ends in `.pyi` and starts with the path |
| Config.ClientType | bravado_types/config.py:122-125 | `client_type`: the client format filled with the configured name; `Config.DefaultTypeNames` states the default result |
| Config.ResourceType | bravado_types/config.py:127-129 | `resource_type`: the resource format filled with the resource name; `Config.DefaultTypeNames` states the default result |
| Config.OperationType | bravado_types/config.py:131-133 | `operation_type`: the operation format filled with the operation name; `Config.DefaultTypeNames` states the default result |
| Config.ModelType | bravado_types/config.py:135-137 | `model_type`: the model format filled with the model name; `Config.DefaultTypeNames` states the default result |
| Config.DefaultTypeNames | bravado_types/config.py:122-137 | under the defaults, the client, resource, operation and model names are the argument followed by `SwaggerClient`, `Resource`, `Operation` and `Model` |
| Config.GivenFormatUsed | bravado_types/config.py:102-108 | a given non-empty format is used, and an empty one falls back to the default (`or`) |
| Config.ArrayTemplate | bravado_types/config.py:139-147 | the template each array policy selects; `Config.ArrayTemplateFill`, `Config.ArrayTemplateHead` and `Config.ArrayPoliciesDiffer` state what the three templates give |
| Config.ArrayTypeTemplate | bravado_types/config.py:139-147 | `array_type_template`: the template of the configured policy |
| Config.ArrayTemplateFill | bravado_types/config.py:139-147 | the three array templates filled with an item, and their hole counts (two for `union`) |
| Config.UnionTemplateFill | bravado_types/config.py:146-147 | the `union` template repeats its item in `typing.List` and `typing.Tuple` |
| Config.ArrayTemplateHead | bravado_types/config.py:139-147 | every array type starts with `typing.` followed by a letter that tells the policies apart |
| Config.ArrayPoliciesDiffer | bravado_types/config.py:139-147 | different policies give different array types for the same item |
| Config.EmptyPartInvalid | bravado_types/config.py:41-44 | a package name with two adjacent dots is rejected |
| Config.Dedup | bravado_types/config.py:40 | `set(packages)` keeps exactly the given names, without repetition |
| Config.SortedPackagesSpec | bravado_types/config.py:40 | `sorted(set(packages))` is strictly increasing and holds exactly the given names |
| Config.CheckPackage | bravado_types/config.py:42-43 | the loop over the parts accepts a package exactly when every dot-separated part is an identifier |
| Config.NewCustomFormats | bravado_types/config.py:39-44 | the constructor succeeds exactly when every package is valid, storing the formats and the sorted distinct packages. It otherwise names the first invalid package in sorted order |
| Types.GetTypeInfo | bravado_types/types.py:34-61 | a resolved type never carries a model name |
| Types.GetKindTypeInfo | bravado_types/types.py:42-56 | the dispatch on the schema kind: array, object, primitive, or `typing.Any` (with a warning only for an unknown kind); the result never carries a model name. `Types.KindIgnoresNullable` and `Types.AnyKinds` state its cases |
| Types.GetArrayTypeInfo | bravado_types/types.py:64-73 | the item type filled into the array policy's template; `Types.ArrayWrapsItems` states it |
| Types.GetObjectTypeInfo | bravado_types/types.py:76-97 | a model reference, a lone `allOf` branch, or an open map; `Types.ModelReference`, `Types.SingleAllOf` and `Types.OpenMap` state the three cases |
| Types.FormatLookup | bravado_types/types.py:108-115 | the type name of a (type, format) pair: a custom-format entry overrides the builtin table; `Types.PrimitiveFormats` states the outcomes |
| Types.GetPrimitiveTypeInfo | bravado_types/types.py:100-121 | a primitive emits at most one warning |
| Types.GetResponseTypeInfo | bravado_types/types.py:124-130 | a response without a schema is `None`. Otherwise it is the schema's type |
| Types.NullableOutermost | bravado_types/types.py:58-59 | a nullable schema is `typing.Optional[...]` around the type of the same schema without `x-nullable`, with the same warnings |
| Types.KindIgnoresNullable | bravado_types/types.py:42-56 | the dispatch on the schema's kind does not depend on `x-nullable` |
| Types.ArrayWrapsItems | bravado_types/types.py:64-73 | an array is its item type filled into the configured array template, with the item's warnings |
| Types.NestedArrays | bravado_types/types.py:64-73 | an array of arrays nests the array template twice |
| Types.NullableArray | bravado_types/types.py:58-73 | a nullable array is `typing.Optional` around the array type |
| Types.ArrayOfNullable | bravado_types/types.py:58-73 | an array of nullable items has `typing.Optional` inside the array type |
| Types.NullableArrayDiffersFromArrayOfNullable | bravado_types/types.py:58-73 | the two nestings differ under every array policy |
| Types.ModelReference | bravado_types/types.py:84-85 | an object with `x-model` resolves to the model type name, with no warning |
| Types.SingleAllOf | bravado_types/types.py:93-95 | an untagged object with a single `allOf` branch and no properties resolves as that branch, under `Optional` when nullable |
| Types.OpenMap | bravado_types/types.py:97 | every other object is `typing.Mapping[str, typing.Any]` |
| Types.PrimitiveFormats | bravado_types/types.py:108-121 | a custom format entry wins over the builtin one. A format known to neither falls back to the primitive type with one warning naming it |
| Types.AnyKinds | bravado_types/types.py:50-56 | `file`, a missing kind and an unknown kind give `typing.Any`, and only an unknown kind warns |
| Types.StringExample | tests/test_types.py:76-110 | `string` gives `str` and `integer` gives `int` |
| Types.ArrayOfIntExample | tests/test_types.py:19-23 | an array of integers is `typing.List[int]` under the list policy |
| Types.ArrayOfArrayExample | tests/test_types.py:24-30 | an array of arrays of strings is `typing.List[typing.List[str]]` |
| Types.NullableArrayExample | tests/test_types.py:41-45 | a nullable array of strings is `typing.Optional[typing.List[str]]` |
| Types.ArrayOfNullableExample | tests/test_types.py:46-50 | an array of nullable strings is `typing.List[typing.Optional[str]]` |
| Types.ModelReferenceExample | tests/test_types.py:61-65 | `x-model: Something` gives `SomethingModel` |
| Types.NullableReferenceExample | tests/test_types.py:71-75 | a nullable single-`allOf` reference gives `typing.Optional[ObjectModel]` |
| Types.PlainObjectExamples | tests/test_types.py:56-60 | an object with properties is a mapping, and an empty schema is `typing.Any` |
| Types.PrimitiveExamples | tests/test_types.py:219-248 | builtin formats resolve. `ipv4` resolves through a custom format, and without one it warns and falls back to `str` |
| Extract.GetParameterInfo | bravado_types/extract.py:103-106 | a parameter record with the parameter, its name, its resolved type and its own `required`; `Extract.ParameterAt` states it for each record |
| Extract.GetParameterInfos | bravado_types/extract.py:94-97 | one parameter record per parameter |
| Extract.ParametersSorted | bravado_types/extract.py:96 | parameter records are in strictly increasing name order |
| Extract.ParameterAt | bravado_types/extract.py:103-106 | the i-th record holds the name, resolved type and `required` flag of the i-th parameter in name order |
| Extract.ParameterSource | bravado_types/extract.py:94-97 | every parameter record comes from a parameter of the operation |
| Extract.ParameterPresent | bravado_types/extract.py:94-97 | every parameter of the operation has a record |
| Extract.GetOperationResponseInfos | bravado_types/extract.py:109-116 | one response record per documented status |
| Extract.ResponsesSorted | bravado_types/extract.py:115 | response records are in strictly increasing status order |
| Extract.ResponsesDefaultLast | bravado_types/extract.py:115 | among status codes and `"default"`, `"default"` sorts last |
| Extract.ResponseAt | bravado_types/extract.py:113-116 | the i-th record holds the i-th status in order and its resolved response type |
| Extract.ResponseSource | bravado_types/extract.py:113-116 | every response record comes from a documented response |
| Extract.ResponsePresent | bravado_types/extract.py:113-116 | every documented response has a record |
| Extract.NodesClosed | bravado_types/extract.py:58 | the schemas reachable through `allOf` are closed under `allOf` |
| Extract.GetRequiredProps | bravado_types/extract.py:45-59 | the worklist finds only names that a reachable schema requires, and visits each named schema at most once. When one name always labels the same schema it finds them all and visits every reachable schema |
| Extract.FirstOccProps | bravado_types/extract.py:87-92 | the cache keeps the first entry seen under each name, once per name, and covers every name seen |
| Extract.FirstOccComplete | bravado_types/extract.py:87-92 | without a name shared by two operations, every entry seen is in the cache |
| Extract.Lookup | bravado_types/extract.py:87-88 | `name in ops_cache` exactly when some entry has that name, and `ops_cache[name]` is such an entry's record |
| Extract.OneHandlePerName | bravado_types/extract.py:89-90 | without a conflict, a name always refers to the same operation |
| Extract.StepOther | bravado_types/extract.py:89-90 | a cached name met with a different operation is the first conflict |
| Extract.OperationCache.constructor | bravado_types/extract.py:65 | the cache starts empty |
| Extract.OperationCache.GetOperationInfo | bravado_types/extract.py:84-100 | a new name adds the operation's record. The same name and operation returns the cached record and changes nothing. The same name with another operation is `Non-unique operation id` and changes nothing |
| Extract.Build | bravado_types/extract.py:92-99 | the operation record carries its operation and name |
| Extract.ResourceInfoSpec | bravado_types/extract.py:72-81 | a resource record carries its resource, its name and one operation per entry |
| Extract.GetResourceInfo | bravado_types/extract.py:72-81 | the loop over the operations in name order builds the specified resource record, or reports the first conflict |
| Extract.GetResourceInfos | bravado_types/extract.py:62-69 | the walk fails exactly when two different operations share a name, and reports the first such name. Otherwise it returns the resource records and the cached operations sorted by name |
| Extract.ResourcesSorted | bravado_types/extract.py:68 | resource records are in strictly increasing name order |
| Extract.ResourceOperationsSorted | bravado_types/extract.py:79 | a resource's operations are in strictly increasing name order |
| Extract.OperationsSorted | bravado_types/extract.py:69 | the operation list is in strictly increasing name order |
| Extract.CachedRecord | bravado_types/extract.py:62-69 | every operation met in a resource has its record in the operation list |
| Extract.ResourceRecord | bravado_types/extract.py:77-80 | the j-th operation of the k-th resource is the record built for that entry |
| Extract.ResourceOperationListed | bravado_types/extract.py:62-69 | every operation of a resource is in the operation list |
| Extract.OperationListedByResource | bravado_types/extract.py:62-69 | every listed operation appears in some resource |
| Extract.ModelInfoSpec | bravado_types/extract.py:32-42 | a model record has one property per schema property |
| Extract.GetModelInfo | bravado_types/extract.py:32-42 | the model record keeps the class, name and parents. It has one property per schema property in name order, each with its resolved type, flagged required only when a reachable schema requires it, and exactly then when names label schemas consistently |
| Extract.GetModelInfos | bravado_types/extract.py:24-29 | one model record per definition, in name order |
| Extract.ModelsSorted | bravado_types/extract.py:28 | model records are in strictly increasing name order, one per definition |
| Extract.PropertiesSorted | bravado_types/extract.py:40 | properties are in strictly increasing name order |
| Extract.PropertyRequired | bravado_types/extract.py:38-39 | when one `x-model` name always labels the same schema, a property is required exactly when some schema reachable through `allOf` requires it |
| Extract.GetSpecInfo | bravado_types/extract.py:17-21 | extraction fails exactly on a non-unique operation id. Otherwise the result holds the model records, resource records and sorted operation records as specified |
| Extract.EmptySpec | tests/test_extract.py:10-24 | a spec with no definitions and no paths extracts without error to no models, no resources and no operations |
| Render.NewRenderConfig | bravado_types/render.py:82-103 | the constructor fails exactly when the path does not end in `.py`. Otherwise it keeps the name, path, inheritance flag and templates directory, and the stub path ends in `.pyi`. Each of the four type-name formats is the given one, or the default when none or an empty one is given. A given array or response policy is kept; a missing one is `list` or `success` |
| Render.ClientType | bravado_types/render.py:105-108 | `client_type`: the client format filled with the configured name; `Render.DefaultTypeNames` and `Render.AgreesWithConfig` state its results |
| Render.ResourceType | bravado_types/render.py:110-112 | `resource_type`: the resource format filled with the resource name; `Render.DefaultTypeNames` and `Render.AgreesWithConfig` state its results |
| Render.OperationType | bravado_types/render.py:114-116 | `operation_type`: the operation format filled with the operation name; `Render.DefaultTypeNames` and `Render.AgreesWithConfig` state its results |
| Render.ModelType | bravado_types/render.py:118-120 | `model_type`: the model format filled with the model name; `Render.DefaultTypeNames` and `Render.AgreesWithConfig` state its results |
| Render.ArrayTypeTemplate | bravado_types/render.py:132-140 | `array_type_template`: the template of the configured policy; `Render.ArrayTypeTemplateFill` states the three results |
| Render.DefaultTypeNames | bravado_types/render.py:105-120 | the default name suffixes, the `list` policy, `success` responses and no inheritance |
| Render.ArrayTypeTemplateFill | bravado_types/render.py:132-143 | the three array templates filled with an item |
| Render.AgreesWithConfig | bravado_types/render.py:82-143 | a render configuration and a configuration built from the same arguments give the same names, array template and stub path |
| Render.Type | bravado_types/render.py:122-130 | the loop over the outer templates computes the specified type string |
| Render.TypeIsWrapChain | bravado_types/render.py:126-129 | applying the outer templates in order is the same as wrapping the descriptor once per template |
| Render.FirstOuterInnermost | bravado_types/render.py:126-129 | the first outer template is the innermost |
| Render.PolicyOnlyAffectsMarker | bravado_types/render.py:127-128 | without the array marker the array policy makes no difference |
| Render.KnownOuters | bravado_types/render.py:127-128 | the marker is replaced by the configured array template, and `typing.Optional[{}]` is kept |
| Render.TypeShapes | bravado_types/render.py:122-130 | the six shapes the tests use: plain, optional, array, array of optional, optional array, array of array |
| Render.ModelBase | bravado_types/render.py:124-125 | a model base goes through the model name format (`PetModel`), and any other base is kept |
| Render.ListPolicyTypes | tests/test_render.py:5-22 | the type strings under the `list` policy |
| Render.SequencePolicyTypes | tests/test_render.py:25-42 | the type strings under the `sequence` policy |
| Render.UnionPolicyTypes | tests/test_render.py:45-66 | the type strings under the `union` policy |
| Render.PetExample | tests/test_render.py:8-9 | `Pet` as a model is `PetModel`, and `str` is `str` |
| Render.ParentIndex | bravado_types/render.py:178 | `minfos` has exactly the models' names as keys |
| Render.ParentIndexAt | bravado_types/render.py:178 | with distinct names, each model's entry is its parents |
| Render.MaxLevelAbove | bravado_types/render.py:186 | the maximum is at least each parent's level |
| Render.MaxLevelAttained | bravado_types/render.py:186 | some parent attains the maximum |
| Render.LevelSpec | bravado_types/render.py:181-190 | a model is at level 0 exactly when it has no parents. Every parent is at a lower level, and some parent is exactly one level below |
| Render.LevelWitnessFree | bravado_types/render.py:181-190 | a model's level does not depend on the acyclicity witness |
| Render.GetLevel | bravado_types/render.py:181-190 | `get_level` returns the model's level. The memo stays correct, gains the name and keeps its old entries, and is unchanged when the name was already memoised |
| Render.LevelsInOrder | bravado_types/render.py:192 | computing the sort keys in list order memoises a correct level for every model |
| Render.MemoOrder | bravado_types/render.py:179-192 | sorting by the memoised `(level, name)` keys gives the specified order |
| Render.TopoSort | bravado_types/render.py:176-192 | the list is sorted in place into the order by `(level, name)` |
| Render.TopoOrderSorted | bravado_types/render.py:192 | that order is sorted by `(level, name)` and is a permutation of the models |
| Render.ParentBelow | bravado_types/render.py:181-190 | a parent's level is below its child's |
| Render.ParentsFirst | bravado_types/render.py:176-192 | after sorting, every parent comes before its children |
| Render.TopoOrderWitnessFree | bravado_types/render.py:176-192 | the sorted order does not depend on the acyclicity witness |

## Left out

- `render()` (`bravado_types/render.py:146-173`) is left out. It looks up
  Mako templates, writes the two files and calls the postprocessor. That is
  I/O and foreign code.
  - Its one decision is to call `_topo_sort` only when `model_inheritance` is
    set. That call is not modelled.
- The `postprocessor` callables of `Config` and `RenderConfig` are not
  stored, because they are only called by `render()`.
- `__repr__` methods are left out: they only produce debugging text.
- `bravado_types/metadata.py`, `bravado_types/__main__.py` and
  `bravado_types/__init__.py` are not part of this model. They handle
  command-line parsing, package metadata and I/O.
- bravado-core is not part of this model:
  - `Spec.deref`, `get_type_from_schema`, `get_param_type_spec` and the
    `Model`/`Operation`/`Param`/`Resource` objects are taken as
    already-computed fields and handles;
  - a `$ref` is assumed to be resolved before a schema reaches the
    resolver.
- DataModel.Hash: Python's `hash` of a string is a parameter, because it is
  randomised per process. The result is not reduced modulo `2**61 - 1`, as
  Python reduces a `__hash__` result that is out of range, and no lemma is
  stated about it: that equal descriptors hash alike follows from it being
  a function of the two fields.
- Extract.PropertyRequired: states the exact `required` flags only when one
  `x-model` name always labels the same schema, for the reason given under
  `Extract.GetModelInfo` below.
- `warnings.warn` in the resolver is returned as data rather than
  emitted (`Types.Resolved`). The extractor then keeps only the resolved
  type (`Extract.GetParameterInfo`, `Extract.GetOperationResponseInfos`,
  `Extract.ModelInfoSpec`), so the warnings are dropped during extraction.
  For example, an unknown format in a spec produces no diagnostic anywhere
  in the model, where the source would emit a warning.
- `str.format` is modelled only for `{}` and `{0}` holes, the only fields
  the formats here use.
- `str.isidentifier` is modelled for ASCII identifiers only.
- The `ValueError` branch of `array_type_template` (`config.py:148-150` and
  `render.py:141-143`) is left out. It cannot be reached when the array
  policy is one of the three enumeration values, as the closed datatype
  guarantees.
- Types.GetTypeInfo: requires that every array schema has `items`.
  - The source raises `KeyError` otherwise, and this is not modelled.
  - It also requires a finite schema tree, so a recursive schema reached
    through `$ref` is not covered.
- DataModel.IsSuccess: requires a status that is `"default"` or a string
  of ASCII digits, which is what Swagger status keys are. Other strings
  that `int()` accepts are not covered: surrounding whitespace, a sign,
  `_` separators and non-ASCII decimal digits. Nor is the `ValueError`
  that `int()` raises for the rest.
- Extract.ResponsesDefaultLast: holds only when every status is `"default"`
  or a digit string, as Swagger requires.
- Extract.GetModelInfo: the `required` flags are complete only when one
  `x-model` name always labels the same schema. Otherwise the source's
  `seen` set can skip a different schema that shares a name. The contract
  states soundness in every case and completeness under that condition.
- Extract.GetRequiredProps: completeness is stated under the same condition
  as `Extract.GetModelInfo`. The schema is a finite tree (`Types.Schema`),
  so a cyclic named `allOf` chain, reached through `$ref`, cannot be
  expressed. In the source the `seen` set also makes the loop stop on such
  a chain (`extract.py:52-55`), and that case is not covered.
- Render.TopoSort: requires that every parent names a model and that the
  inheritance graph is acyclic. The source raises `KeyError` or
  `RecursionError` in those cases, and these errors are not modelled.
- Render.ParentsFirst: requires distinct model names. With duplicates,
  `minfos` keeps the last model with each name, so another model with the
  same name can sort anywhere.
- `list.sort` is modelled by its result, a stable sort by the same key, and
  not by Timsort's steps.
