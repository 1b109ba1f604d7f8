/** The extractor: walks a loaded spec and builds the sorted model,
    property, resource, operation, parameter and response records, the
    required-property sets of models (a worklist over `allOf`), and one
    shared record per operation name (a cache that rejects two different
    operations under one name). */
module Extract {
  import opened Wrappers
  import opened DataModel
  import opened Sorting
  import Text
  import Config
  import Types

  /** A model class: its handle, its (dereferenced) schema, the names of the
      models it inherits from, and its properties in definition order. */
  datatype ModelDef = ModelDef(mclass: Handle, schema: Types.Schema, parents: seq<string>, properties: seq<(string, Types.Schema)>)

  /** A parameter object: its handle, the schema of its type and its own
      `required` flag. */
  datatype Param = Param(param: Handle, typeSpec: Types.Schema, required: bool)

  /** An operation object: its parameters by name and its responses by
      status key, each response with or without a "schema". */
  datatype Operation = Operation(params: seq<(string, Param)>, responses: seq<(string, Option<Types.Schema>)>)

  /** A resource object: its handle and its operations by name; an
      operation is named by its index in the spec's operation arena, so two
      entries denote the same object exactly when the indices are equal. */
  datatype Resource = Resource(resource: Handle, operations: seq<(string, Handle)>)

  datatype Spec = Spec(spec: Handle, definitions: seq<(string, ModelDef)>, resources: seq<(string, Resource)>, operations: seq<Operation>)

  datatype ExtractError = NonUniqueOperationId(name: string)

  predicate ValidOperation(op: Operation)
  {
    IsDict(op.params) && IsDict(op.responses) &&
    (forall i :: 0 <= i < |op.params| ==> Types.WellFormed(op.params[i].1.typeSpec)) &&
    (forall i :: 0 <= i < |op.responses| ==> op.responses[i].1.Some? ==> Types.WellFormed(op.responses[i].1.value))
  }

  predicate ValidModel(m: ModelDef)
  {
    Types.WellFormed(m.schema) && IsDict(m.properties) &&
    forall i :: 0 <= i < |m.properties| ==> Types.WellFormed(m.properties[i].1)
  }

  /** What a loaded spec guarantees: every dict has distinct keys, every
      operation a resource names exists, and every schema is well formed. */
  predicate ValidSpec(spec: Spec)
  {
    IsDict(spec.definitions) && IsDict(spec.resources) &&
    (forall i :: 0 <= i < |spec.definitions| ==> ValidModel(spec.definitions[i].1)) &&
    (forall i :: 0 <= i < |spec.resources| ==> ValidResource(spec, spec.resources[i].1)) &&
    (forall k :: 0 <= k < |spec.operations| ==> ValidOperation(spec.operations[k]))
  }

  predicate ValidResource(spec: Spec, r: Resource)
  {
    IsDict(r.operations) && forall j :: 0 <= j < |r.operations| ==> r.operations[j].1 < |spec.operations|
  }

  // ---------------------------------------------------------------------
  // Parameters and responses

  /** `_get_parameter_info`. */
  function GetParameterInfo(c: Config.Config, name: string, p: Param): ParameterInfo
    requires Types.WellFormed(p.typeSpec)
  {
    ParameterInfo(p.param, name, Types.GetTypeInfo(c, p.typeSpec).typ, p.required)
  }

  /** The parameter records of an operation, sorted by parameter name. */
  function GetParameterInfos(c: Config.Config, op: Operation): (r: seq<ParameterInfo>)
    requires ValidOperation(op)
    ensures |r| == |op.params|
  {
    var sorted := SortBy(op.params, ItemKey);
    SortedItems(op.params);
    seq(|sorted|, i requires 0 <= i < |sorted| =>
      assert sorted[i] in multiset(op.params);
      GetParameterInfo(c, sorted[i].0, sorted[i].1))
  }

  /** `_get_operation_response_infos`: the response records, sorted by status key. */
  function GetOperationResponseInfos(c: Config.Config, op: Operation): (r: seq<ResponseInfo>)
    requires ValidOperation(op)
    ensures |r| == |op.responses|
  {
    var sorted := SortBy(op.responses, ItemKey);
    SortedItems(op.responses);
    seq(|sorted|, i requires 0 <= i < |sorted| =>
      assert sorted[i] in multiset(op.responses);
      ResponseInfo(sorted[i].0, Types.GetResponseTypeInfo(c, sorted[i].1).typ))
  }

  /** `pi` is the record of the parameter item `e`. */
  predicate ParameterFrom(c: Config.Config, pi: ParameterInfo, e: (string, Param))
  {
    Types.WellFormed(e.1.typeSpec) &&
    pi == ParameterInfo(e.1.param, e.0, Types.GetTypeInfo(c, e.1.typeSpec).typ, e.1.required)
  }

  /** `ri` is the record of the response item `e`. */
  predicate ResponseFrom(c: Config.Config, ri: ResponseInfo, e: (string, Option<Types.Schema>))
  {
    (e.1.Some? ==> Types.WellFormed(e.1.value)) &&
    ri == ResponseInfo(e.0, Types.GetResponseTypeInfo(c, e.1).typ)
  }

  /** Parameters come out in ascending name order. */
  lemma ParametersSorted(c: Config.Config, op: Operation)
    requires ValidOperation(op)
    ensures forall i, j :: 0 <= i < j < |GetParameterInfos(c, op)| ==>
      Text.Less(GetParameterInfos(c, op)[i].name, GetParameterInfos(c, op)[j].name)
  {
    SortedItems(op.params);
  }

  lemma ParameterAt(c: Config.Config, op: Operation, i: nat)
    requires ValidOperation(op) && i < |op.params|
    ensures ParameterFrom(c, GetParameterInfos(c, op)[i], SortBy(op.params, ItemKey)[i])
  {
    var sorted := SortBy(op.params, ItemKey);
    SortedItems(op.params);
    assert sorted[i] in multiset(op.params);
  }

  /** Every parameter record comes from a parameter of the operation, with
      that parameter's handle, resolved type and own `required` flag ... */
  lemma ParameterSource(c: Config.Config, op: Operation, i: nat)
    requires ValidOperation(op) && i < |GetParameterInfos(c, op)|
    ensures exists k :: 0 <= k < |op.params| && ParameterFrom(c, GetParameterInfos(c, op)[i], op.params[k])
  {
    var sorted := SortBy(op.params, ItemKey);
    ParameterAt(c, op, i);
    SortedFromInput(op.params, ItemKey, i);
    var k :| 0 <= k < |op.params| && op.params[k] == sorted[i];
  }

  /** ... and every parameter has its record. */
  lemma ParameterPresent(c: Config.Config, op: Operation, k: nat)
    requires ValidOperation(op) && k < |op.params|
    ensures exists i :: 0 <= i < |GetParameterInfos(c, op)| && ParameterFrom(c, GetParameterInfos(c, op)[i], op.params[k])
  {
    var sorted := SortBy(op.params, ItemKey);
    InputInSorted(op.params, ItemKey, k);
    var i :| 0 <= i < |sorted| && op.params[k] == sorted[i];
    ParameterAt(c, op, i);
  }

  /** Responses come out in ascending status order. */
  lemma ResponsesSorted(c: Config.Config, op: Operation)
    requires ValidOperation(op)
    ensures forall i, j :: 0 <= i < j < |GetOperationResponseInfos(c, op)| ==>
      Text.Less(GetOperationResponseInfos(c, op)[i].status, GetOperationResponseInfos(c, op)[j].status)
  {
    SortedItems(op.responses);
  }

  /** When every status key is "default" or a decimal code, "default" can
      only be the last response. */
  lemma ResponsesDefaultLast(c: Config.Config, op: Operation)
    requires ValidOperation(op)
    requires forall k :: 0 <= k < |op.responses| ==> StatusKey(op.responses[k].0)
    ensures forall i :: 0 <= i < |GetOperationResponseInfos(c, op)| && GetOperationResponseInfos(c, op)[i].status == "default" ==>
      i == |GetOperationResponseInfos(c, op)| - 1
  {
    var sorted := SortBy(op.responses, ItemKey);
    ResponsesSorted(c, op);
    var rs := GetOperationResponseInfos(c, op);
    var keys := seq(|rs|, i requires 0 <= i < |rs| => rs[i].status);
    forall i | 0 <= i < |keys| ensures keys[i] == "default" || Text.IsDigits(keys[i]) {
      ResponseAt(c, op, i);
      SortedFromInput(op.responses, ItemKey, i);
      var k :| 0 <= k < |op.responses| && op.responses[k] == sorted[i];
      assert keys[i] == op.responses[k].0;
    }
    assert forall i, j :: 0 <= i < j < |keys| ==> Text.Less(keys[i], keys[j]) by {
      forall i, j | 0 <= i < j < |keys| ensures Text.Less(keys[i], keys[j]) {
        assert keys[i] == rs[i].status && keys[j] == rs[j].status;
      }
    }
    Text.DefaultLast(keys);
    assert forall i :: 0 <= i < |rs| ==> rs[i].status == keys[i];
  }

  lemma ResponseAt(c: Config.Config, op: Operation, i: nat)
    requires ValidOperation(op) && i < |op.responses|
    ensures ResponseFrom(c, GetOperationResponseInfos(c, op)[i], SortBy(op.responses, ItemKey)[i])
  {
    var sorted := SortBy(op.responses, ItemKey);
    SortedItems(op.responses);
    assert sorted[i] in multiset(op.responses);
  }

  /** Every response record comes from a response of the operation, with
      its status key and resolved type ... */
  lemma ResponseSource(c: Config.Config, op: Operation, i: nat)
    requires ValidOperation(op) && i < |GetOperationResponseInfos(c, op)|
    ensures exists k :: 0 <= k < |op.responses| && ResponseFrom(c, GetOperationResponseInfos(c, op)[i], op.responses[k])
  {
    var sorted := SortBy(op.responses, ItemKey);
    ResponseAt(c, op, i);
    SortedFromInput(op.responses, ItemKey, i);
    var k :| 0 <= k < |op.responses| && op.responses[k] == sorted[i];
  }

  /** ... and every response has its record. */
  lemma ResponsePresent(c: Config.Config, op: Operation, k: nat)
    requires ValidOperation(op) && k < |op.responses|
    ensures exists i :: 0 <= i < |GetOperationResponseInfos(c, op)| && ResponseFrom(c, GetOperationResponseInfos(c, op)[i], op.responses[k])
  {
    var sorted := SortBy(op.responses, ItemKey);
    InputInSorted(op.responses, ItemKey, k);
    var i :| 0 <= i < |sorted| && op.responses[k] == sorted[i];
    ResponseAt(c, op, i);
  }

  // ---------------------------------------------------------------------
  // Required properties

  /** A schema whose "x-model" value is truthy. */
  predicate Named(s: Types.Schema) { s.xModel.Some? && s.xModel.value != "" }

  /** The schemas reachable from `s` through "allOf", `s` included. */
  ghost function Nodes(s: Types.Schema): set<Types.Schema>
    decreases s
  {
    {s} + set b, n | b in s.allOf && n in Nodes(b) :: n
  }

  /** The union of the "required" lists of a set of schemas. */
  ghost function RequiredOf(ps: set<Types.Schema>): set<string>
  {
    set p, x | p in ps && x in p.required :: x
  }

  /** The names every schema reachable through "allOf" requires. */
  ghost function AllRequired(root: Types.Schema): set<string>
  {
    RequiredOf(Nodes(root))
  }

  /** Within the "allOf" closure, one "x-model" name denotes one schema. */
  ghost predicate NamesConsistent(root: Types.Schema)
  {
    forall p, q :: p in Nodes(root) && q in Nodes(root) && Named(p) && Named(q) && p.xModel == q.xModel ==> p == q
  }

  /** A branch of a reachable schema is reachable. */
  lemma {:induction false} NodesClosed(s: Types.Schema, p: Types.Schema, b: Types.Schema)
    requires p in Nodes(s) && b in p.allOf
    ensures b in Nodes(s)
    decreases s
  {
    if p != s {
      var b0 :| b0 in s.allOf && p in Nodes(b0);
      NodesClosed(b0, p, b);
    } else {
      assert b in Nodes(b);
    }
  }

  /** A set that holds `s` and is closed under "allOf" holds all of Nodes(s). */
  lemma {:induction false} ClosedHoldsNodes(s: Types.Schema, ps: set<Types.Schema>)
    requires s in ps
    requires forall p, b :: p in ps && b in p.allOf ==> b in ps
    ensures Nodes(s) <= ps
    decreases s
  {
    forall n | n in Nodes(s) ensures n in ps {
      if n != s {
        var b :| b in s.allOf && n in Nodes(b);
        ClosedHoldsNodes(b, ps);
      }
    }
  }

  /** Sum of the closure sizes of a fringe; it bounds the remaining work. */
  function Size(s: Types.Schema): nat
    decreases s, 1
  {
    1 + SumSizes(s.allOf)
  }

  function SumSizes(xs: seq<Types.Schema>): nat
    decreases xs, 0
  {
    if xs == [] then 0 else SumSizes(xs[..|xs| - 1]) + Size(xs[|xs| - 1])
  }

  lemma {:induction false} SumSizesAppend(xs: seq<Types.Schema>, ys: seq<Types.Schema>)
    ensures SumSizes(xs + ys) == SumSizes(xs) + SumSizes(ys)
    decreases |ys|
  {
    if ys != [] {
      assert (xs + ys)[..|xs + ys| - 1] == xs + ys[..|ys| - 1];
      SumSizesAppend(xs, ys[..|ys| - 1]);
    } else {
      assert xs + ys == xs;
    }
  }

  /** Processing one more schema adds exactly its "required" names. */
  lemma RequiredOfAdd(ps: set<Types.Schema>, s: Types.Schema)
    ensures RequiredOf(ps + {s}) == RequiredOf(ps) + set x | x in s.required
  {
    forall x | x in RequiredOf(ps + {s}) ensures x in RequiredOf(ps) || x in s.required {
      var p :| p in ps + {s} && x in p.required;
    }
  }

  /** The "x-model" names of the named schemas of a set. */
  ghost function ModelNames(ps: set<Types.Schema>): set<string>
  {
    set p | p in ps && Named(p) :: p.xModel.value
  }

  /** Processing one more schema adds its name, if it has one. */
  lemma ModelNamesAdd(ps: set<Types.Schema>, s: Types.Schema)
    ensures ModelNames(ps + {s}) == if Named(s) then ModelNames(ps) + {s.xModel.value} else ModelNames(ps)
  {
  }

  /** The fringe's size is that of its last schema plus the rest. */
  lemma SumSizesLast(fringe: seq<Types.Schema>)
    requires fringe != []
    ensures SumSizes(fringe) == SumSizes(fringe[..|fringe| - 1]) + Size(fringe[|fringe| - 1])
  {
  }

  /** No two named schemas in `visits` share a name. */
  ghost predicate NamesDistinct(visits: seq<Types.Schema>)
  {
    forall i, j :: 0 <= i < j < |visits| && Named(visits[i]) && Named(visits[j]) ==>
      visits[i].xModel != visits[j].xModel
  }

  /** Every branch of a processed schema is processed or waiting. */
  ghost predicate BranchesCovered(visits: seq<Types.Schema>, fringe: seq<Types.Schema>)
  {
    forall p, b :: p in visits && b in p.allOf ==> b in fringe || b in visits
  }

  /** Processing a schema whose name was not seen keeps names distinct. */
  lemma NamesDistinctStep(visits: seq<Types.Schema>, ps: set<Types.Schema>, s: Types.Schema)
    requires NamesDistinct(visits)
    requires forall p :: p in ps <==> p in visits
    requires !(Named(s) && s.xModel.value in ModelNames(ps))
    ensures NamesDistinct(visits + [s])
  {
    var vs := visits + [s];
    forall i, j | 0 <= i < j < |vs| && Named(vs[i]) && Named(vs[j]) ensures vs[i].xModel != vs[j].xModel {
      if j == |visits| {
        assert vs[i] in ps;
      }
    }
  }

  /** Popping `s` and pushing its branches while marking it processed keeps
      every branch covered. */
  lemma BranchesCoveredStep(visits: seq<Types.Schema>, fringe: seq<Types.Schema>)
    requires fringe != [] && BranchesCovered(visits, fringe)
    ensures BranchesCovered(visits + [fringe[|fringe| - 1]], fringe[..|fringe| - 1] + fringe[|fringe| - 1].allOf)
  {
    var s := fringe[|fringe| - 1];
    forall p, b | p in visits + [s] && b in p.allOf
      ensures b in fringe[..|fringe| - 1] + s.allOf || b in visits + [s]
    {
      if p != s && b !in visits {
        var i :| 0 <= i < |fringe| && fringe[i] == b;
        if i < |fringe| - 1 {
          assert b in fringe[..|fringe| - 1];
        }
      }
    }
  }

  /** Dropping a processed schema from the fringe keeps every branch covered. */
  lemma BranchesCoveredSkip(visits: seq<Types.Schema>, fringe: seq<Types.Schema>)
    requires fringe != [] && BranchesCovered(visits, fringe) && fringe[|fringe| - 1] in visits
    ensures BranchesCovered(visits, fringe[..|fringe| - 1])
  {
    forall p, b | p in visits && b in p.allOf ensures b in fringe[..|fringe| - 1] || b in visits {
      if b !in visits {
        var i :| 0 <= i < |fringe| && fringe[i] == b;
        assert b in fringe[..|fringe| - 1];
      }
    }
  }

  /** `_get_required_props`: pops schemas from the end of the fringe, skips
      a named schema whose name was seen, adds the "required" names of every
      other schema and pushes its "allOf" branches. The result never holds a
      name no reachable schema requires; when names are consistent it holds
      exactly those names. Every schema processed is reachable, no name is
      processed twice, and with consistent names every reachable schema is
      processed. */
  method GetRequiredProps(root: Types.Schema) returns (required: set<string>, ghost visits: seq<Types.Schema>)
    ensures required <= AllRequired(root)
    ensures NamesConsistent(root) ==> required == AllRequired(root)
    ensures forall p | p in visits :: p in Nodes(root)
    ensures forall i, j :: 0 <= i < j < |visits| && Named(visits[i]) && Named(visits[j]) ==>
      visits[i].xModel != visits[j].xModel
    ensures NamesConsistent(root) ==> forall p | p in Nodes(root) :: p in visits
  {
    required := {};
    var seen: set<string> := {};
    var fringe := [root];
    visits := [];
    ghost var ps: set<Types.Schema> := {};
    while fringe != []
      invariant forall f | f in fringe :: f in Nodes(root)
      invariant forall p | p in visits :: p in Nodes(root)
      invariant forall p :: p in ps <==> p in visits
      invariant required == RequiredOf(ps)
      invariant seen == ModelNames(ps)
      invariant NamesDistinct(visits)
      invariant (visits == [] && fringe == [root]) || root in visits
      invariant NamesConsistent(root) ==> BranchesCovered(visits, fringe)
      decreases SumSizes(fringe)
    {
      var s := fringe[|fringe| - 1];
      var rest := fringe[..|fringe| - 1];
      SumSizesLast(fringe);
      SumSizesAppend(rest, s.allOf);
      if Named(s) && s.xModel.value in seen {
        if NamesConsistent(root) {
          var q :| q in ps && Named(q) && q.xModel.value == s.xModel.value;
          BranchesCoveredSkip(visits, fringe);
        }
        fringe := rest;
        continue;
      }
      forall b | b in s.allOf ensures b in Nodes(root) {
        NodesClosed(root, s, b);
      }
      RequiredOfAdd(ps, s);
      ModelNamesAdd(ps, s);
      NamesDistinctStep(visits, ps, s);
      if NamesConsistent(root) {
        BranchesCoveredStep(visits, fringe);
      }
      required := required + set x | x in s.required;
      ps := ps + {s};
      seen := if Named(s) then seen + {s.xModel.value} else seen;
      fringe := rest + s.allOf;
      visits := visits + [s];
    }
    assert ps <= Nodes(root);
    if NamesConsistent(root) {
      ClosedHoldsNodes(root, ps);
    }
  }

  // ---------------------------------------------------------------------
  // Operations, resources and the shared operation cache

  /** The record of the operation with handle `h` under the name `name`. */
  function Build(c: Config.Config, spec: Spec, name: string, h: Handle): (r: OperationInfo)
    requires ValidSpec(spec) && h < |spec.operations|
    ensures r.operation == h && r.name == name
  {
    var op := spec.operations[h];
    OperationInfo(h, name, GetParameterInfos(c, op), GetOperationResponseInfos(c, op))
  }

  /** The (name, operation) pairs of a resource, sorted by name. */
  function ResOcc(r: Resource): seq<(string, Handle)>
  {
    SortBy(r.operations, ItemKey)
  }

  /** Every operation named in a list exists in the spec. */
  predicate HandlesValid(spec: Spec, occ: seq<(string, Handle)>)
  {
    forall e | e in occ :: e.1 < |spec.operations|
  }

  /** The operations met while walking the given resources in order, each
      resource's operations sorted by name. */
  function Occ(rs: seq<(string, Resource)>): seq<(string, Handle)>
    decreases |rs|
  {
    if rs == [] then [] else Occ(rs[..|rs| - 1]) + ResOcc(rs[|rs| - 1].1)
  }

  function SortedResources(spec: Spec): seq<(string, Resource)>
  {
    SortBy(spec.resources, ItemKey)
  }

  /** Every operation lookup the extractor performs, in order. */
  function SpecOcc(spec: Spec): seq<(string, Handle)>
  {
    Occ(SortedResources(spec))
  }

  /** The lookup at `j` meets a name an earlier lookup used for another
      operation. */
  predicate ConflictAt(occ: seq<(string, Handle)>, j: int)
  {
    0 <= j < |occ| && exists i :: 0 <= i < j && occ[i].0 == occ[j].0 && occ[i].1 != occ[j].1
  }

  predicate Conflict(occ: seq<(string, Handle)>)
  {
    exists j :: 0 <= j < |occ| && ConflictAt(occ, j)
  }

  predicate FirstConflictAt(occ: seq<(string, Handle)>, j: int)
  {
    ConflictAt(occ, j) && forall k :: 0 <= k < j ==> !ConflictAt(occ, k)
  }

  /** The names used in a list of pairs. */
  function Names<V(==)>(xs: seq<(string, V)>): set<string>
  {
    set e | e in xs :: e.0
  }

  /** The first pair for every name, in order of first use. */
  function FirstOcc(occ: seq<(string, Handle)>): seq<(string, Handle)>
    decreases |occ|
  {
    if occ == [] then []
    else
      var f := FirstOcc(occ[..|occ| - 1]);
      var x := occ[|occ| - 1];
      if x.0 in Names(f) then f else f + [x]
  }

  /** The cache contents after building one record per first use. */
  function CacheOf(c: Config.Config, spec: Spec, f: seq<(string, Handle)>): (r: seq<(string, OperationInfo)>)
    requires ValidSpec(spec) && HandlesValid(spec, f)
    ensures |r| == |f|
  {
    seq(|f|, i requires 0 <= i < |f| => (f[i].0, Build(c, spec, f[i].0, f[i].1)))
  }

  /** `FirstOcc` keeps only pairs of its input, one per name, and keeps
      every name ... */
  lemma {:induction false} FirstOccProps(occ: seq<(string, Handle)>)
    ensures forall e | e in FirstOcc(occ) :: e in occ
    ensures IsDict(FirstOcc(occ))
    ensures Names(FirstOcc(occ)) == Names(occ)
    decreases |occ|
  {
    if occ != [] {
      var p := occ[..|occ| - 1];
      var x := occ[|occ| - 1];
      assert occ == p + [x];
      FirstOccProps(p);
      var f := FirstOcc(p);
      assert Names(occ) == Names(p) + {x.0};
      assert Names(f + [x]) == Names(f) + {x.0};
    }
  }

  /** ... and when no name is used for two operations it keeps every pair. */
  lemma {:induction false} FirstOccComplete(occ: seq<(string, Handle)>)
    requires !Conflict(occ)
    ensures forall e | e in occ :: e in FirstOcc(occ)
    decreases |occ|
  {
    if occ != [] {
      var p := occ[..|occ| - 1];
      var x := occ[|occ| - 1];
      assert occ == p + [x];
      NoConflictPrefix(p, occ);
      FirstOccComplete(p);
      FirstOccProps(p);
      var f := FirstOcc(p);
      if x.0 in Names(f) {
        var e :| e in f && e.0 == x.0;
        var i :| 0 <= i < |p| && p[i] == e;
        assert !ConflictAt(occ, |occ| - 1);
        assert occ[i] == e;
      }
    }
  }

  /** The prefix of the walk over the first `n` resources. */
  lemma {:induction false} OccPrefix(rs: seq<(string, Resource)>, n: nat)
    requires n <= |rs|
    ensures Occ(rs[..n]) <= Occ(rs)
    decreases |rs|
  {
    if n < |rs| {
      var init := rs[..|rs| - 1];
      assert init[..n] == rs[..n];
      OccPrefix(init, n);
    } else {
      assert rs[..n] == rs;
    }
  }

  /** A conflict in a prefix of the walk is a conflict of the walk, at the
      same position. */
  lemma {:induction false} ConflictPrefix(p: seq<(string, Handle)>, q: seq<(string, Handle)>, j: int)
    requires p <= q
    ensures ConflictAt(p, j) ==> ConflictAt(q, j)
    ensures 0 <= j < |p| ==> (ConflictAt(q, j) ==> ConflictAt(p, j))
  {
    if ConflictAt(p, j) {
      var i :| 0 <= i < j && p[i].0 == p[j].0 && p[i].1 != p[j].1;
      assert q[i] == p[i] && q[j] == p[j];
    }
    if 0 <= j < |p| && ConflictAt(q, j) {
      var i :| 0 <= i < j && q[i].0 == q[j].0 && q[i].1 != q[j].1;
      assert q[i] == p[i] && q[j] == p[j];
    }
  }

  /** The first conflict of a prefix is the first conflict of the walk. */
  lemma {:induction false} FirstConflictPrefix(p: seq<(string, Handle)>, q: seq<(string, Handle)>, j: int)
    requires p <= q && FirstConflictAt(p, j)
    ensures FirstConflictAt(q, j)
  {
    ConflictPrefix(p, q, j);
    forall k | 0 <= k < j ensures !ConflictAt(q, k) {
      ConflictPrefix(p, q, k);
    }
  }

  /** A walk without conflict has no conflict in any prefix. */
  lemma {:induction false} NoConflictPrefix(p: seq<(string, Handle)>, q: seq<(string, Handle)>)
    requires p <= q && !Conflict(q)
    ensures !Conflict(p)
  {
    if Conflict(p) {
      var j :| 0 <= j < |p| && ConflictAt(p, j);
      ConflictPrefix(p, q, j);
    }
  }

  /** `ops_cache[name]` and `name in ops_cache`. */
  function Lookup(entries: seq<(string, OperationInfo)>, name: string): (r: Option<OperationInfo>)
    ensures r.None? <==> forall k :: 0 <= k < |entries| ==> entries[k].0 != name
    ensures r.Some? ==> exists k :: 0 <= k < |entries| && entries[k] == (name, r.value)
    decreases |entries|
  {
    if entries == [] then None
    else if entries[0].0 == name then Some(entries[0].1)
    else
      var r := Lookup(entries[1..], name);
      assert forall k :: 0 < k < |entries| ==> entries[k] == entries[1..][k - 1];
      r
  }

  /** One more lookup after a walk without conflict adds no conflict
      before its own position. */
  lemma {:induction false} NoEarlierConflict(p: seq<(string, Handle)>, x: (string, Handle))
    requires !Conflict(p)
    ensures forall k :: 0 <= k < |p| ==> !ConflictAt(p + [x], k)
  {
    forall k | 0 <= k < |p| ensures !ConflictAt(p + [x], k) {
      ConflictPrefix(p, p + [x], k);
    }
  }

  /** A name not yet cached: the lookup adds no conflict and extends the
      cache with the new record. */
  lemma {:induction false} StepNew(c: Config.Config, spec: Spec, p: seq<(string, Handle)>, x: (string, Handle))
    requires ValidSpec(spec) && x.1 < |spec.operations| && !Conflict(p)
    requires HandlesValid(spec, FirstOcc(p))
    requires Lookup(CacheOf(c, spec, FirstOcc(p)), x.0).None?
    ensures !Conflict(p + [x]) && FirstOcc(p + [x]) == FirstOcc(p) + [x] && HandlesValid(spec, FirstOcc(p + [x]))
    ensures CacheOf(c, spec, FirstOcc(p + [x])) == CacheOf(c, spec, FirstOcc(p)) + [(x.0, Build(c, spec, x.0, x.1))]
  {
    var q := p + [x];
    assert q[..|q| - 1] == p;
    FirstOccProps(p);
    var f := FirstOcc(p);
    var cache := CacheOf(c, spec, f);
    forall e | e in f ensures e.0 != x.0 {
      var i :| 0 <= i < |f| && f[i] == e;
      assert cache[i].0 == e.0;
    }
    NoEarlierConflict(p, x);
    forall i | 0 <= i < |p| ensures q[i].0 != x.0 {
      assert q[i] == p[i] && p[i].0 in Names(p);
    }
    CacheOfAppend(c, spec, f, x);
  }

  /** Caching one more first use appends its record. */
  lemma CacheOfAppend(c: Config.Config, spec: Spec, f: seq<(string, Handle)>, x: (string, Handle))
    requires ValidSpec(spec) && HandlesValid(spec, f) && x.1 < |spec.operations|
    ensures HandlesValid(spec, f + [x])
    ensures CacheOf(c, spec, f + [x]) == CacheOf(c, spec, f) + [(x.0, Build(c, spec, x.0, x.1))]
  {
    assert CacheOf(c, spec, f + [x]) == CacheOf(c, spec, f) + [(x.0, Build(c, spec, x.0, x.1))];
  }

  /** The operation cached under `x.0` is `x.1`. */
  predicate CachedAs(c: Config.Config, spec: Spec, p: seq<(string, Handle)>, x: (string, Handle), same: bool)
    requires ValidSpec(spec) && HandlesValid(spec, FirstOcc(p))
  {
    var l := Lookup(CacheOf(c, spec, FirstOcc(p)), x.0);
    l.Some? && (l.value.operation == x.1) == same
  }

  /** The lookup finds the cached record, which belongs to an operation
      first used under that name. */
  lemma {:induction false} CachedEntry(c: Config.Config, spec: Spec, p: seq<(string, Handle)>, x: (string, Handle)) returns (i: nat)
    requires ValidSpec(spec) && HandlesValid(spec, FirstOcc(p))
    requires Lookup(CacheOf(c, spec, FirstOcc(p)), x.0).Some?
    ensures i < |p| && p[i].0 == x.0 && p[i] in FirstOcc(p)
    ensures Lookup(CacheOf(c, spec, FirstOcc(p)), x.0).value == Build(c, spec, p[i].0, p[i].1)
  {
    FirstOccProps(p);
    var f := FirstOcc(p);
    var cache := CacheOf(c, spec, f);
    var l := Lookup(cache, x.0);
    var k :| 0 <= k < |cache| && cache[k] == (x.0, l.value);
    assert f[k] in f;
    i :| 0 <= i < |p| && p[i] == f[k];
  }

  /** The same operation under a cached name: no conflict, the cache stays
      as it is, and the cached record is this operation's record. */
  lemma {:induction false} StepSame(c: Config.Config, spec: Spec, p: seq<(string, Handle)>, x: (string, Handle))
    requires ValidSpec(spec) && !Conflict(p)
    requires HandlesValid(spec, FirstOcc(p)) && CachedAs(c, spec, p, x, true)
    ensures !Conflict(p + [x]) && FirstOcc(p + [x]) == FirstOcc(p)
    ensures Lookup(CacheOf(c, spec, FirstOcc(p)), x.0).value == Build(c, spec, x.0, x.1)
  {
    var q := p + [x];
    assert q[..|q| - 1] == p;
    var i := CachedEntry(c, spec, p, x);
    FirstOccProps(p);
    assert x.0 in Names(FirstOcc(p));
    NoEarlierConflict(p, x);
    forall m | 0 <= m < |p| && q[m].0 == x.0 ensures q[m].1 == x.1 {
      assert q[m] == p[m];
      OneHandlePerName(p, m, i);
    }
  }

  /** Without a conflict, pairs with the same name have the same operation. */
  lemma {:induction false} OneHandlePerName(p: seq<(string, Handle)>, m: nat, i: nat)
    requires !Conflict(p) && m < |p| && i < |p| && p[m].0 == p[i].0
    ensures p[m].1 == p[i].1
  {
    if m < i {
      assert !ConflictAt(p, i);
    } else if i < m {
      assert !ConflictAt(p, m);
    }
  }

  /** Another operation under a cached name: this lookup is the first
      conflict. */
  lemma {:induction false} StepOther(c: Config.Config, spec: Spec, p: seq<(string, Handle)>, x: (string, Handle))
    requires ValidSpec(spec) && !Conflict(p)
    requires HandlesValid(spec, FirstOcc(p)) && CachedAs(c, spec, p, x, false)
    ensures FirstConflictAt(p + [x], |p|)
  {
    var q := p + [x];
    var i := CachedEntry(c, spec, p, x);
    assert q[i] == p[i];
    NoEarlierConflict(p, x);
  }

  /** What `_get_operation_info` does with a cache `before`, giving the
      result `r` and the cache `after`: the first lookup of a name builds
      and caches the record; a later lookup of the same operation returns
      the cached record; another operation under a cached name is an
      error. Only the first case changes the cache. */
  predicate LookupStep(c: Config.Config, spec: Spec, before: seq<(string, OperationInfo)>, after: seq<(string, OperationInfo)>,
                       name: string, h: Handle, r: Result<OperationInfo, ExtractError>)
    requires ValidSpec(spec) && h < |spec.operations|
  {
    match Lookup(before, name)
    case None => r == Ok(Build(c, spec, name, h)) && after == before + [(name, r.value)]
    case Some(cached) =>
      after == before &&
      r == (if cached.operation == h then Ok(cached) else Err(NonUniqueOperationId(name)))
  }

  /** `ops_cache`: the operation records built so far, by operation name. */
  class OperationCache {
    var entries: seq<(string, OperationInfo)>

    /** Each entry is filed under its record's own name, once. */
    ghost predicate Valid()
      reads this
    {
      IsDict(entries) && forall k :: 0 <= k < |entries| ==> entries[k].1.name == entries[k].0
    }

    constructor ()
      ensures entries == [] && Valid()
    {
      entries := [];
    }

    /** `_get_operation_info`: the first lookup of a name builds and caches
        the record; a later lookup of the same operation returns the cached
        record; another operation under a cached name is an error, and the
        cache is left as it was. */
    method GetOperationInfo(c: Config.Config, spec: Spec, name: string, h: Handle) returns (r: Result<OperationInfo, ExtractError>)
      requires ValidSpec(spec) && h < |spec.operations| && Valid()
      modifies this
      ensures Valid()
      ensures LookupStep(c, spec, old(entries), entries, name, h, r)
    {
      var cached := Lookup(entries, name);
      if cached.Some? {
        if cached.value.operation != h {
          return Err(NonUniqueOperationId(name));
        }
        return Ok(cached.value);
      }
      var info := Build(c, spec, name, h);
      entries := entries + [(name, info)];
      return Ok(info);
    }
  }

  /** The records of a list of lookups, in order. */
  function BuildAll(c: Config.Config, spec: Spec, occ: seq<(string, Handle)>): (r: seq<OperationInfo>)
    requires ValidSpec(spec) && HandlesValid(spec, occ)
    ensures |r| == |occ|
    decreases |occ|
  {
    if occ == [] then []
    else
      assert occ[|occ| - 1] in occ;
      BuildAll(c, spec, occ[..|occ| - 1]) + [Build(c, spec, occ[|occ| - 1].0, occ[|occ| - 1].1)]
  }

  /** The record at each position is the record of that lookup. */
  lemma {:induction false} BuildAllAt(c: Config.Config, spec: Spec, occ: seq<(string, Handle)>, i: nat)
    requires ValidSpec(spec) && HandlesValid(spec, occ) && i < |occ|
    ensures BuildAll(c, spec, occ)[i] == Build(c, spec, occ[i].0, occ[i].1)
    decreases |occ|
  {
    if i < |occ| - 1 {
      BuildAllAt(c, spec, occ[..|occ| - 1], i);
    }
  }

  /** A resource names only operations of the spec. */
  lemma ResOccValid(spec: Spec, res: Resource)
    requires ValidResource(spec, res)
    ensures HandlesValid(spec, ResOcc(res))
  {
    forall e | e in ResOcc(res) ensures e.1 < |spec.operations| {
      assert e in multiset(res.operations);
    }
  }

  /** The record of a resource when no operation name is reused. */
  function ResourceInfoSpec(c: Config.Config, spec: Spec, name: string, res: Resource): (r: ResourceInfo)
    requires ValidSpec(spec) && ValidResource(spec, res)
    ensures r.resource == res.resource && r.name == name && |r.operations| == |res.operations|
  {
    ResOccValid(spec, res);
    ResourceInfo(res.resource, name, BuildAll(c, spec, ResOcc(res)))
  }

  predicate ValidResources(spec: Spec, rs: seq<(string, Resource)>)
  {
    forall k :: 0 <= k < |rs| ==> ValidResource(spec, rs[k].1)
  }

  /** `ResourceInfoSpec` for each resource of a list, in order. */
  function InfosOf(c: Config.Config, spec: Spec, rs: seq<(string, Resource)>): (r: seq<ResourceInfo>)
    requires ValidSpec(spec) && ValidResources(spec, rs)
    ensures |r| == |rs|
    decreases |rs|
  {
    if rs == [] then []
    else InfosOf(c, spec, rs[..|rs| - 1]) + [ResourceInfoSpec(c, spec, rs[|rs| - 1].0, rs[|rs| - 1].1)]
  }

  /** The resources of a spec, sorted by name, are valid. */
  lemma SortedResourcesValid(spec: Spec)
    requires ValidSpec(spec)
    ensures ValidResources(spec, SortedResources(spec))
  {
    var rs := SortedResources(spec);
    forall k | 0 <= k < |rs| ensures ValidResource(spec, rs[k].1) {
      assert rs[k] in multiset(spec.resources);
    }
  }

  /** The resource records: `ResourceInfoSpec` for every resource, sorted
      by resource name. */
  function ResourceInfosSpec(c: Config.Config, spec: Spec): (r: seq<ResourceInfo>)
    requires ValidSpec(spec)
    ensures |r| == |spec.resources|
  {
    SortedResourcesValid(spec);
    InfosOf(c, spec, SortedResources(spec))
  }

  /** The records of a list of pairs, in order. */
  function Values<V>(xs: seq<(string, V)>): (r: seq<V>)
    ensures |r| == |xs| && forall i :: 0 <= i < |xs| ==> r[i] == xs[i].1
  {
    seq(|xs|, i requires 0 <= i < |xs| => xs[i].1)
  }

  /** The cache with names kept as keys is a dict filed by record name. */
  lemma {:induction false} CacheOfValid(c: Config.Config, spec: Spec, f: seq<(string, Handle)>)
    requires ValidSpec(spec) && HandlesValid(spec, f) && IsDict(f)
    ensures IsDict(CacheOf(c, spec, f))
    ensures forall k :: 0 <= k < |f| ==> CacheOf(c, spec, f)[k].1.name == CacheOf(c, spec, f)[k].0
  {
  }

  /** Every operation a resource list names exists when each resource is valid. */
  lemma {:induction false} OccHandlesValid(spec: Spec, rs: seq<(string, Resource)>)
    requires ValidResources(spec, rs)
    ensures HandlesValid(spec, Occ(rs))
    decreases |rs|
  {
    if rs != [] {
      OccHandlesValid(spec, rs[..|rs| - 1]);
      ResOccValid(spec, rs[|rs| - 1].1);
    }
  }

  lemma SpecHandlesValid(spec: Spec)
    requires ValidSpec(spec)
    ensures HandlesValid(spec, SpecOcc(spec))
    ensures HandlesValid(spec, FirstOcc(SpecOcc(spec)))
    ensures IsDict(FirstOcc(SpecOcc(spec)))
  {
    SortedResourcesValid(spec);
    OccHandlesValid(spec, SortedResources(spec));
    FirstOccProps(SpecOcc(spec));
  }

  /** The operation list: one record per operation name, from the cache
      filled during the whole walk, sorted by name. */
  function OperationsSpec(c: Config.Config, spec: Spec): seq<OperationInfo>
    requires ValidSpec(spec)
  {
    SpecHandlesValid(spec);
    Values(SortBy(CacheOf(c, spec, FirstOcc(SpecOcc(spec))), ItemKey))
  }

  /** Extending a walk by the next lookup of a list stays a prefix of the
      walk through the whole list. */
  lemma PrefixStep<T>(p: seq<T>, ops: seq<T>, j: nat)
    requires j < |ops|
    ensures p + ops[..j + 1] == (p + ops[..j]) + [ops[j]]
    ensures p + ops[..j + 1] <= p + ops
  {
    assert (p + ops)[..|p| + j + 1] == p + ops[..j + 1];
  }

  /** The cache holds one record per name of the walk `q`, which has no
      conflict. */
  predicate Walked(c: Config.Config, spec: Spec, entries: seq<(string, OperationInfo)>, q: seq<(string, Handle)>)
  {
    ValidSpec(spec) && !Conflict(q) && HandlesValid(spec, FirstOcc(q)) && entries == CacheOf(c, spec, FirstOcc(q))
  }

  /** One lookup of `x` after the walk `q`: it either extends the walk and
      yields the record of `x`, or it is the walk's first conflict. */
  lemma {:induction false} Advance(c: Config.Config, spec: Spec, before: seq<(string, OperationInfo)>, after: seq<(string, OperationInfo)>,
                                   q: seq<(string, Handle)>, x: (string, Handle), r: Result<OperationInfo, ExtractError>)
    requires Walked(c, spec, before, q) && x.1 < |spec.operations|
    requires LookupStep(c, spec, before, after, x.0, x.1, r)
    ensures r.Ok? ==> Walked(c, spec, after, q + [x]) && r.value == Build(c, spec, x.0, x.1)
    ensures r.Err? ==> FirstConflictAt(q + [x], |q|) && r.error == NonUniqueOperationId(x.0)
  {
    var l := Lookup(before, x.0);
    if l.None? {
      StepNew(c, spec, q, x);
    } else if l.value.operation == x.1 {
      StepSame(c, spec, q, x);
    } else {
      StepOther(c, spec, q, x);
    }
  }

  /** A cache built by the walk is a valid cache. */
  lemma WalkedValid(c: Config.Config, spec: Spec, entries: seq<(string, OperationInfo)>, q: seq<(string, Handle)>)
    requires Walked(c, spec, entries, q)
    ensures IsDict(entries) && forall k :: 0 <= k < |entries| ==> entries[k].1.name == entries[k].0
  {
    FirstOccProps(q);
    CacheOfValid(c, spec, FirstOcc(q));
  }

  /** One lookup of the loop of `_get_resource_info`, the `j`-th operation
      of the resource after the walk `p`: it extends the walk and the
      records by one, or it is the first conflict of the walk through the
      resource. */
  lemma LookupInWalk(c: Config.Config, spec: Spec, p: seq<(string, Handle)>, ops: seq<(string, Handle)>, j: nat,
                     before: seq<(string, OperationInfo)>, after: seq<(string, OperationInfo)>,
                     infos: seq<OperationInfo>, r: Result<OperationInfo, ExtractError>)
    requires ValidSpec(spec) && HandlesValid(spec, ops) && j < |ops| && ops[j].1 < |spec.operations|
    requires Walked(c, spec, before, p + ops[..j]) && infos == BuildAll(c, spec, ops[..j])
    requires LookupStep(c, spec, before, after, ops[j].0, ops[j].1, r)
    ensures r.Ok? ==> Walked(c, spec, after, p + ops[..j + 1]) && infos + [r.value] == BuildAll(c, spec, ops[..j + 1])
    ensures r.Err? ==> FirstConflictAt(p + ops, |p| + j) && r.error == NonUniqueOperationId((p + ops)[|p| + j].0)
  {
    var q := p + ops[..j];
    PrefixStep(p, ops, j);
    Advance(c, spec, before, after, q, ops[j], r);
    if r.Ok? {
      BuildAllStep(c, spec, ops, j);
    } else {
      FirstConflictPrefix(q + [ops[j]], p + ops, |q|);
    }
  }

  /** The records of the first `j + 1` lookups extend those of the first `j`. */
  lemma BuildAllStep(c: Config.Config, spec: Spec, ops: seq<(string, Handle)>, j: nat)
    requires ValidSpec(spec) && HandlesValid(spec, ops) && j < |ops| && ops[j].1 < |spec.operations|
    ensures BuildAll(c, spec, ops[..j + 1]) == BuildAll(c, spec, ops[..j]) + [Build(c, spec, ops[j].0, ops[j].1)]
  {
    assert ops[..j + 1][..j] == ops[..j];
  }

  /** `_get_resource_info`: looks up every operation of the resource in
      name order through the shared cache. `p` is the walk before this
      resource; on success the cache covers the walk through it and the
      record is the specified one, otherwise the error names the first
      conflicting lookup. */
  method GetResourceInfo(c: Config.Config, spec: Spec, name: string, res: Resource, cache: OperationCache, ghost p: seq<(string, Handle)>)
    returns (r: Result<ResourceInfo, ExtractError>)
    requires ValidResource(spec, res) && Walked(c, spec, cache.entries, p) && cache.Valid()
    modifies cache
    ensures cache.Valid()
    ensures r.Ok? ==> Walked(c, spec, cache.entries, p + ResOcc(res)) && r.value == ResourceInfoSpec(c, spec, name, res)
    ensures r.Err? ==> exists j :: FirstConflictAt(p + ResOcc(res), j) && r.error == NonUniqueOperationId((p + ResOcc(res))[j].0)
  {
    var ops := ResOcc(res);
    ResOccValid(spec, res);
    var infos: seq<OperationInfo> := [];
    var j := 0;
    assert p + ops[..0] == p;
    while j < |ops|
      invariant 0 <= j <= |ops|
      invariant Walked(c, spec, cache.entries, p + ops[..j]) && cache.Valid()
      invariant infos == BuildAll(c, spec, ops[..j])
    {
      assert ops[j] in ops;
      ghost var before := cache.entries;
      var o := cache.GetOperationInfo(c, spec, ops[j].0, ops[j].1);
      LookupInWalk(c, spec, p, ops, j, before, cache.entries, infos, o);
      if o.Err? {
        return Err(o.error);
      }
      infos := infos + [o.value];
      j := j + 1;
    }
    assert ops[..j] == ops;
    return Ok(ResourceInfo(res.resource, name, infos));
  }

  /** The first conflict within the walk through the first `n + 1`
      resources is the first conflict of the whole walk. */
  lemma ConflictInWalk(spec: Spec, n: nat, j: int)
    requires n < |SortedResources(spec)| && FirstConflictAt(Occ(SortedResources(spec)[..n + 1]), j)
    ensures FirstConflictAt(SpecOcc(spec), j) && SpecOcc(spec)[j] == Occ(SortedResources(spec)[..n + 1])[j]
  {
    OccPrefix(SortedResources(spec), n + 1);
    FirstConflictPrefix(Occ(SortedResources(spec)[..n + 1]), SpecOcc(spec), j);
  }

  /** Walking one more resource extends the walk and the resource records. */
  lemma WalkStep(c: Config.Config, spec: Spec, rs: seq<(string, Resource)>, n: nat)
    requires ValidSpec(spec) && ValidResources(spec, rs) && n < |rs|
    ensures ValidResource(spec, rs[n].1)
    ensures Occ(rs[..n + 1]) == Occ(rs[..n]) + ResOcc(rs[n].1)
    ensures InfosOf(c, spec, rs[..n + 1]) == InfosOf(c, spec, rs[..n]) + [ResourceInfoSpec(c, spec, rs[n].0, rs[n].1)]
  {
    assert rs[..n + 1][..n] == rs[..n];
  }

  /** After the whole walk, sorting the cache gives the operation list. */
  lemma WalkDone(c: Config.Config, spec: Spec, entries: seq<(string, OperationInfo)>)
    requires Walked(c, spec, entries, SpecOcc(spec))
    ensures Values(SortBy(entries, ItemKey)) == OperationsSpec(c, spec)
  {
  }

  /** `_get_resource_infos`: every resource in name order, then the cached
      operation records sorted by name. It fails exactly when some name is
      used for two different operations, and then with the first such
      lookup's name. */
  method GetResourceInfos(c: Config.Config, spec: Spec) returns (r: Result<(seq<ResourceInfo>, seq<OperationInfo>), ExtractError>)
    requires ValidSpec(spec)
    ensures r.Err? <==> Conflict(SpecOcc(spec))
    ensures r.Ok? ==> r.value.0 == ResourceInfosSpec(c, spec) && r.value.1 == OperationsSpec(c, spec)
    ensures r.Err? ==> exists j :: FirstConflictAt(SpecOcc(spec), j) && r.error == NonUniqueOperationId(SpecOcc(spec)[j].0)
  {
    var rs := SortedResources(spec);
    SortedResourcesValid(spec);
    var cache := new OperationCache();
    var infos: seq<ResourceInfo> := [];
    var n := 0;
    assert rs[..0] == [];
    while n < |rs|
      invariant 0 <= n <= |rs|
      invariant Walked(c, spec, cache.entries, Occ(rs[..n])) && cache.Valid()
      invariant infos == InfosOf(c, spec, rs[..n])
    {
      WalkStep(c, spec, rs, n);
      var ri := GetResourceInfo(c, spec, rs[n].0, rs[n].1, cache, Occ(rs[..n]));
      if ri.Err? {
        ghost var j :| FirstConflictAt(Occ(rs[..n + 1]), j) && ri.error == NonUniqueOperationId(Occ(rs[..n + 1])[j].0);
        ConflictInWalk(spec, n, j);
        return Err(ri.error);
      }
      infos := infos + [ri.value];
      n := n + 1;
    }
    assert rs[..n] == rs;
    WalkDone(c, spec, cache.entries);
    var ops := Values(SortBy(cache.entries, ItemKey));
    return Ok((infos, ops));
  }

  // ---------------------------------------------------------------------
  // Properties of the resource and operation records

  lemma {:induction false} InfosOfAt(c: Config.Config, spec: Spec, rs: seq<(string, Resource)>, k: nat)
    requires ValidSpec(spec) && ValidResources(spec, rs) && k < |rs|
    ensures InfosOf(c, spec, rs)[k] == ResourceInfoSpec(c, spec, rs[k].0, rs[k].1)
    decreases |rs|
  {
    if k < |rs| - 1 {
      InfosOfAt(c, spec, rs[..|rs| - 1], k);
    }
  }

  /** Resources come out in ascending name order. */
  lemma ResourcesSorted(c: Config.Config, spec: Spec)
    requires ValidSpec(spec)
    ensures forall k, l :: 0 <= k < l < |ResourceInfosSpec(c, spec)| ==>
      Text.Less(ResourceInfosSpec(c, spec)[k].name, ResourceInfosSpec(c, spec)[l].name)
  {
    var rs := SortedResources(spec);
    SortedItems(spec.resources);
    SortedResourcesValid(spec);
    forall k | 0 <= k < |rs| ensures ResourceInfosSpec(c, spec)[k].name == rs[k].0 {
      InfosOfAt(c, spec, rs, k);
    }
  }

  /** The operations of a resource come out in ascending name order. */
  lemma ResourceOperationsSorted(c: Config.Config, spec: Spec, name: string, res: Resource)
    requires ValidSpec(spec) && ValidResource(spec, res)
    ensures forall i, j :: 0 <= i < j < |ResourceInfoSpec(c, spec, name, res).operations| ==>
      Text.Less(ResourceInfoSpec(c, spec, name, res).operations[i].name, ResourceInfoSpec(c, spec, name, res).operations[j].name)
  {
    var ops := ResOcc(res);
    SortedItems(res.operations);
    ResOccValid(spec, res);
    forall i | 0 <= i < |ops| ensures ResourceInfoSpec(c, spec, name, res).operations[i].name == ops[i].0 {
      BuildAllAt(c, spec, ops, i);
    }
  }

  /** The operation list is strictly ascending by name, so no name occurs
      twice. */
  lemma OperationsSorted(c: Config.Config, spec: Spec)
    requires ValidSpec(spec)
    ensures forall i, j :: 0 <= i < j < |OperationsSpec(c, spec)| ==>
      Text.Less(OperationsSpec(c, spec)[i].name, OperationsSpec(c, spec)[j].name)
  {
    SpecHandlesValid(spec);
    var cache := CacheOf(c, spec, FirstOcc(SpecOcc(spec)));
    CacheOfValid(c, spec, FirstOcc(SpecOcc(spec)));
    var sorted := SortBy(cache, ItemKey);
    SortedItems(cache);
    forall i | 0 <= i < |sorted| ensures sorted[i].1.name == sorted[i].0 {
      SortedFromInput(cache, ItemKey, i);
    }
  }

  /** The lookups of the k-th resource are part of the whole walk ... */
  lemma {:induction false} OccContains(rs: seq<(string, Resource)>, k: nat, j: nat)
    requires k < |rs| && j < |ResOcc(rs[k].1)|
    ensures ResOcc(rs[k].1)[j] in Occ(rs)
    decreases |rs|
  {
    if k < |rs| - 1 {
      OccContains(rs[..|rs| - 1], k, j);
    }
  }

  /** ... and every lookup of the walk belongs to some resource. */
  lemma {:induction false} OccSource(rs: seq<(string, Resource)>, e: (string, Handle)) returns (k: nat, j: nat)
    requires e in Occ(rs)
    ensures k < |rs| && j < |ResOcc(rs[k].1)| && ResOcc(rs[k].1)[j] == e
    decreases |rs|
  {
    var init := rs[..|rs| - 1];
    if e in Occ(init) {
      k, j := OccSource(init, e);
    } else {
      k := |rs| - 1;
      j :| 0 <= j < |ResOcc(rs[k].1)| && ResOcc(rs[k].1)[j] == e;
    }
  }

  /** The record in the operation list for a lookup pair of the walk. */
  lemma CachedRecord(c: Config.Config, spec: Spec, e: (string, Handle)) returns (i: nat)
    requires ValidSpec(spec) && !Conflict(SpecOcc(spec)) && e in SpecOcc(spec)
    ensures e.1 < |spec.operations|
    ensures i < |OperationsSpec(c, spec)| && OperationsSpec(c, spec)[i] == Build(c, spec, e.0, e.1)
  {
    SpecHandlesValid(spec);
    var f := FirstOcc(SpecOcc(spec));
    FirstOccComplete(SpecOcc(spec));
    var m :| 0 <= m < |f| && f[m] == e;
    var cache := CacheOf(c, spec, f);
    assert cache[m] == (e.0, Build(c, spec, e.0, e.1));
    i := SortedValueAt(cache, m);
  }

  /** The value of any pair appears among the values of the sorted pairs. */
  lemma SortedValueAt<V>(xs: seq<(string, V)>, m: nat) returns (i: nat)
    requires m < |xs|
    ensures i < |xs| && Values(SortBy(xs, ItemKey))[i] == xs[m].1
  {
    InputInSorted(xs, ItemKey, m);
    i :| 0 <= i < |SortBy(xs, ItemKey)| && xs[m] == SortBy(xs, ItemKey)[i];
  }

  /** The record a resource lists at position `j` is the record of its
      j-th lookup. */
  lemma ResourceRecord(c: Config.Config, spec: Spec, k: nat, j: nat)
    requires ValidSpec(spec) && k < |ResourceInfosSpec(c, spec)| && j < |ResourceInfosSpec(c, spec)[k].operations|
    ensures j < |ResOcc(SortedResources(spec)[k].1)|
    ensures ResOcc(SortedResources(spec)[k].1)[j].1 < |spec.operations|
    ensures ResourceInfosSpec(c, spec)[k].operations[j] ==
      Build(c, spec, ResOcc(SortedResources(spec)[k].1)[j].0, ResOcc(SortedResources(spec)[k].1)[j].1)
  {
    var rs := SortedResources(spec);
    SortedResourcesValid(spec);
    InfosOfAt(c, spec, rs, k);
    ResOccValid(spec, rs[k].1);
    BuildAllAt(c, spec, ResOcc(rs[k].1), j);
  }

  /** An entry of the operation list is the record of some lookup of the walk. */
  lemma ListedLookup(c: Config.Config, spec: Spec, i: nat) returns (e: (string, Handle))
    requires ValidSpec(spec) && i < |OperationsSpec(c, spec)|
    ensures e in SpecOcc(spec) && e.1 < |spec.operations| && OperationsSpec(c, spec)[i] == Build(c, spec, e.0, e.1)
  {
    SpecHandlesValid(spec);
    var f := FirstOcc(SpecOcc(spec));
    FirstOccProps(SpecOcc(spec));
    var cache := CacheOf(c, spec, f);
    SortedFromInput(cache, ItemKey, i);
    var m :| 0 <= m < |cache| && cache[m] == SortBy(cache, ItemKey)[i];
    assert f[m] in f;
    e := f[m];
  }

  /** `op` is the record resource `k` lists at position `j`. */
  predicate ListedAt(c: Config.Config, spec: Spec, k: int, j: int, op: OperationInfo)
    requires ValidSpec(spec)
  {
    0 <= k < |ResourceInfosSpec(c, spec)| && 0 <= j < |ResourceInfosSpec(c, spec)[k].operations| &&
    ResourceInfosSpec(c, spec)[k].operations[j] == op
  }

  /** Every operation a resource lists is, as a value, an entry of the
      operation list: one record per operation is shared by both. */
  lemma ResourceOperationListed(c: Config.Config, spec: Spec, k: nat, j: nat)
    requires ValidSpec(spec) && !Conflict(SpecOcc(spec))
    requires k < |ResourceInfosSpec(c, spec)| && j < |ResourceInfosSpec(c, spec)[k].operations|
    ensures exists i :: 0 <= i < |OperationsSpec(c, spec)| && OperationsSpec(c, spec)[i] == ResourceInfosSpec(c, spec)[k].operations[j]
  {
    ResourceRecord(c, spec, k, j);
    OccContains(SortedResources(spec), k, j);
    var i := CachedRecord(c, spec, ResOcc(SortedResources(spec)[k].1)[j]);
  }

  /** Every entry of the operation list is listed by some resource. */
  lemma OperationListedByResource(c: Config.Config, spec: Spec, i: nat)
    requires ValidSpec(spec) && i < |OperationsSpec(c, spec)|
    ensures exists k, j :: ListedAt(c, spec, k, j, OperationsSpec(c, spec)[i])
  {
    var e := ListedLookup(c, spec, i);
    var rs := SortedResources(spec);
    var k, j := OccSource(rs, e);
    SortedResourcesValid(spec);
    InfosOfAt(c, spec, rs, k);
    var infos := ResourceInfosSpec(c, spec);
    assert k < |infos| && j < |infos[k].operations|;
    ResourceRecord(c, spec, k, j);
    assert ListedAt(c, spec, k, j, OperationsSpec(c, spec)[i]);
  }

  // ---------------------------------------------------------------------
  // Models and the whole spec

  /** `pi` is the record of property item `e` of model `m`: its name, its
      resolved type, and `required` only for a name some schema reachable
      through "allOf" requires. */
  ghost predicate PropertyFrom(c: Config.Config, m: ModelDef, pi: PropertyInfo, e: (string, Types.Schema))
  {
    Types.WellFormed(e.1) && pi.name == e.0 && pi.typ == Types.GetTypeInfo(c, e.1).typ &&
    (pi.required ==> e.0 in AllRequired(m.schema))
  }

  /** The model record as specified: every property in name order, required
      exactly when a reachable schema requires it. */
  ghost function ModelInfoSpec(c: Config.Config, name: string, m: ModelDef): (r: ModelInfo)
    requires ValidModel(m)
    ensures |r.props| == |m.properties|
  {
    var sorted := SortBy(m.properties, ItemKey);
    ModelInfo(m.mclass, name, m.parents, seq(|sorted|, i requires 0 <= i < |sorted| =>
      assert sorted[i] in multiset(m.properties);
      PropertyInfo(sorted[i].0, Types.GetTypeInfo(c, sorted[i].1).typ, sorted[i].0 in AllRequired(m.schema))))
  }

  /** What `_get_model_info` guarantees about its record `r`. */
  ghost predicate ModelFrom(c: Config.Config, name: string, m: ModelDef, r: ModelInfo)
    requires ValidModel(m)
  {
    r.mclass == m.mclass && r.name == name && r.parents == m.parents &&
    |r.props| == |m.properties| &&
    (forall i :: 0 <= i < |r.props| ==> PropertyFrom(c, m, r.props[i], SortBy(m.properties, ItemKey)[i])) &&
    (NamesConsistent(m.schema) ==> r == ModelInfoSpec(c, name, m))
  }

  /** `_get_model_info`: the model's required names, then one record per
      property in name order. */
  method GetModelInfo(c: Config.Config, name: string, m: ModelDef) returns (r: ModelInfo)
    requires ValidModel(m)
    ensures ModelFrom(c, name, m, r)
  {
    var required, visits := GetRequiredProps(m.schema);
    var sorted := SortBy(m.properties, ItemKey);
    SortedItems(m.properties);
    var props := seq(|sorted|, i requires 0 <= i < |sorted| =>
      assert sorted[i] in multiset(m.properties);
      PropertyInfo(sorted[i].0, Types.GetTypeInfo(c, sorted[i].1).typ, sorted[i].0 in required));
    r := ModelInfo(m.mclass, name, m.parents, props);
    forall i | 0 <= i < |props| ensures PropertyFrom(c, m, props[i], sorted[i]) {
      assert sorted[i] in multiset(m.properties);
    }
  }

  function SortedDefinitions(spec: Spec): seq<(string, ModelDef)>
  {
    SortBy(spec.definitions, ItemKey)
  }

  /** The model definitions of a spec, sorted by name, are valid. */
  lemma SortedDefinitionsValid(spec: Spec)
    requires ValidSpec(spec)
    ensures forall k :: 0 <= k < |SortedDefinitions(spec)| ==> ValidModel(SortedDefinitions(spec)[k].1)
  {
    var ds := SortedDefinitions(spec);
    forall k | 0 <= k < |ds| ensures ValidModel(ds[k].1) {
      assert ds[k] in multiset(spec.definitions);
    }
  }

  /** `models` holds the record of every model definition, in name order. */
  ghost predicate ModelsFrom(c: Config.Config, spec: Spec, models: seq<ModelInfo>)
    requires ValidSpec(spec)
  {
    SortedDefinitionsValid(spec);
    var ds := SortedDefinitions(spec);
    |models| == |ds| && forall k :: 0 <= k < |models| ==> ModelFrom(c, ds[k].0, ds[k].1, models[k])
  }

  /** `_get_model_infos`: one record per model definition, in name order. */
  method GetModelInfos(c: Config.Config, spec: Spec) returns (r: seq<ModelInfo>)
    requires ValidSpec(spec)
    ensures ModelsFrom(c, spec, r)
  {
    var ds := SortedDefinitions(spec);
    SortedDefinitionsValid(spec);
    r := [];
    for k := 0 to |ds|
      invariant |r| == k
      invariant forall l :: 0 <= l < k ==> ModelFrom(c, ds[l].0, ds[l].1, r[l])
    {
      var mi := GetModelInfo(c, ds[k].0, ds[k].1);
      r := r + [mi];
    }
  }

  /** Models come out in ascending name order, as many as there are
      definitions. */
  lemma ModelsSorted(c: Config.Config, spec: Spec, models: seq<ModelInfo>)
    requires ValidSpec(spec) && ModelsFrom(c, spec, models)
    ensures |models| == |spec.definitions|
    ensures forall k, l :: 0 <= k < l < |models| ==> Text.Less(models[k].name, models[l].name)
  {
    SortedItems(spec.definitions);
  }

  /** The properties of a model record come out in ascending name order. */
  lemma PropertiesSorted(c: Config.Config, name: string, m: ModelDef, r: ModelInfo)
    requires ValidModel(m) && ModelFrom(c, name, m, r)
    ensures forall i, j :: 0 <= i < j < |r.props| ==> Text.Less(r.props[i].name, r.props[j].name)
  {
    SortedItems(m.properties);
  }

  /** With consistent model names, a property is marked required exactly
      when some schema reachable through "allOf" lists it. */
  lemma PropertyRequired(c: Config.Config, name: string, m: ModelDef, r: ModelInfo, i: nat)
    requires ValidModel(m) && ModelFrom(c, name, m, r) && NamesConsistent(m.schema) && i < |r.props|
    ensures r.props[i].required <==> exists p :: p in Nodes(m.schema) && r.props[i].name in p.required
  {
    var sorted := SortBy(m.properties, ItemKey);
    assert r.props[i].name == sorted[i].0;
    if r.props[i].required {
      var p :| p in Nodes(m.schema) && r.props[i].name in p.required;
    }
  }

  /** `get_spec_info`: the models, then the resources and operations. */
  method GetSpecInfo(c: Config.Config, spec: Spec) returns (r: Result<SpecInfo, ExtractError>)
    requires ValidSpec(spec)
    ensures r.Err? <==> Conflict(SpecOcc(spec))
    ensures r.Err? ==> exists j :: FirstConflictAt(SpecOcc(spec), j) && r.error == NonUniqueOperationId(SpecOcc(spec)[j].0)
    ensures r.Ok? ==> r.value.spec == spec.spec && ModelsFrom(c, spec, r.value.models)
    ensures r.Ok? ==> r.value.resources == ResourceInfosSpec(c, spec) && r.value.operations == OperationsSpec(c, spec)
  {
    var models := GetModelInfos(c, spec);
    var ro := GetResourceInfos(c, spec);
    if ro.Err? {
      return Err(ro.error);
    }
    return Ok(SpecInfo(spec.spec, models, ro.value.0, ro.value.1));
  }

  /** A spec with no definitions and no resources extracts without error
      to no models, no resources and no operations. */
  lemma EmptySpec(c: Config.Config, spec: Spec, models: seq<ModelInfo>)
    requires ValidSpec(spec) && spec.definitions == [] && spec.resources == []
    requires ModelsFrom(c, spec, models)
    ensures !Conflict(SpecOcc(spec))
    ensures models == [] && ResourceInfosSpec(c, spec) == [] && OperationsSpec(c, spec) == []
  {
    ModelsSorted(c, spec, models);
    assert SortedResources(spec) == [];
    assert SpecOcc(spec) == [];
    SpecHandlesValid(spec);
    assert CacheOf(c, spec, FirstOcc(SpecOcc(spec))) == [];
  }
}
