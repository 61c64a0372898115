/** The dependency graph: backend/handler_graph.go builds it from the resource rows and
    frontend/src/pages/GraphPage.js searches it for everything that depends on a node. */
module DependencyGraph {
  import opened Wrappers
  import opened Text
  import opened Values

  // ----- searching: GraphPage.js

  datatype Edge = Edge(from: string, to: string, field: string)

  ghost predicate HasEdge(edges: seq<Edge>, a: string, b: string) {
    exists k :: 0 <= k < |edges| && edges[k].from == a && edges[k].to == b
  }

  /** A walk along one edge or more, cycles allowed. */
  ghost predicate IsWalk(edges: seq<Edge>, p: seq<string>) {
    |p| >= 2 && forall i :: 0 <= i < |p| - 1 ==> HasEdge(edges, p[i], p[i + 1])
  }

  ghost predicate IsWalkTo(edges: seq<Edge>, p: seq<string>, a: string, b: string) {
    IsWalk(edges, p) && p[0] == a && p[|p| - 1] == b
  }

  ghost predicate Reaches(edges: seq<Edge>, a: string, b: string) {
    exists p :: IsWalkTo(edges, p, a, b)
  }

  /** Every direct dependent of `id` is in `affected`. */
  ghost predicate Closed(edges: seq<Edge>, affected: set<string>, id: string) {
    forall k :: 0 <= k < |edges| && edges[k].to == id ==> edges[k].from in affected
  }

  function Sources(edges: seq<Edge>): set<string> {
    set e <- edges :: e.from
  }

  lemma OneEdgeReaches(edges: seq<Edge>, k: nat)
    requires k < |edges|
    ensures Reaches(edges, edges[k].from, edges[k].to)
  {
    assert HasEdge(edges, edges[k].from, edges[k].to);
    assert IsWalkTo(edges, [edges[k].from, edges[k].to], edges[k].from, edges[k].to);
  }

  lemma EdgeThenReaches(edges: seq<Edge>, k: nat, goal: string)
    requires k < |edges| && Reaches(edges, edges[k].to, goal)
    ensures Reaches(edges, edges[k].from, goal)
  {
    var p :| IsWalkTo(edges, p, edges[k].to, goal);
    assert HasEdge(edges, edges[k].from, edges[k].to);
    var q := [edges[k].from] + p;
    assert forall i :: 0 < i < |q| - 1 ==> q[i] == p[i - 1] && q[i + 1] == p[i];
    assert IsWalkTo(edges, q, edges[k].from, goal);
  }

  /** A set that holds all dependents of the goal and of its own members holds every node with a
      walk to the goal. */
  lemma {:induction false} ClosedHoldsWalks(edges: seq<Edge>, affected: set<string>, goal: string, p: seq<string>)
    requires Closed(edges, affected, goal)
    requires forall x :: x in affected ==> Closed(edges, affected, x)
    requires IsWalk(edges, p) && p[|p| - 1] == goal
    ensures p[0] in affected
    decreases |p|
  {
    assert HasEdge(edges, p[0], p[1]);
    if |p| > 2 {
      var q := p[1..];
      forall i | 0 <= i < |q| - 1 ensures HasEdge(edges, q[i], q[i + 1]) {
        assert HasEdge(edges, p[i + 1], p[i + 2]);
      }
      ClosedHoldsWalks(edges, affected, goal, q);
    }
  }

  class BlastSearch {
    var affected: set<string>

    constructor ()
      ensures affected == {}
    {
      affected := {};
    }

    /** `pending` are the nodes whose own scan is still under way further up the recursion. */
    method FindDependents(edges: seq<Edge>, id: string, ghost goal: string, ghost pending: set<string>)
      requires id == goal || Reaches(edges, id, goal)
      requires forall x :: x in affected ==> Reaches(edges, x, goal)
      requires forall x :: x in affected && x !in pending && x != id ==> Closed(edges, affected, x)
      modifies this
      decreases Sources(edges) - affected
      ensures old(affected) <= affected
      ensures Closed(edges, affected, id)
      ensures forall x :: x in affected ==> Reaches(edges, x, goal)
      ensures forall x :: x in affected && x !in pending ==> Closed(edges, affected, x)
    {
      for k := 0 to |edges|
        invariant old(affected) <= affected
        invariant forall j :: 0 <= j < k && edges[j].to == id ==> edges[j].from in affected
        invariant forall x :: x in affected ==> Reaches(edges, x, goal)
        invariant forall x :: x in affected && x !in pending && x != id ==> Closed(edges, affected, x)
      {
        var e := edges[k];
        if e.to == id && e.from !in affected {
          OneEdgeReaches(edges, k);
          if id != goal {
            EdgeThenReaches(edges, k, goal);
          }
          assert e.from in Sources(edges);
          affected := affected + {e.from};
          FindDependents(edges, e.from, goal, pending + {id});
        }
      }
    }
  }

  /** The blast radius of a node is exact on every graph, cyclic ones included: precisely the nodes
      with a walk of at least one edge to it. */
  method GetBlastRadius(edges: seq<Edge>, nodeId: string) returns (affected: set<string>)
    ensures forall x :: x in affected <==> Reaches(edges, x, nodeId)
  {
    var search := new BlastSearch();
    search.FindDependents(edges, nodeId, nodeId, {});
    affected := search.affected;
    forall x | Reaches(edges, x, nodeId) ensures x in affected {
      var p :| IsWalkTo(edges, p, x, nodeId);
      ClosedHoldsWalks(edges, affected, nodeId, p);
    }
  }

  // ----- building: handler_graph.go

  datatype Resource = Resource(id: string, name: string, schemaId: string, env: string,
                               destroyed: bool, inputs: Option<Inputs>)

  function ToString(v: Value): string {
    if v.Str? then v.text else ""
  }

  /** The references a field's value holds: comma-separated text, or one per array item. */
  function ExtractRefs(v: Value): seq<string> {
    match v
    case Str(text) =>
      if text == "" then []
      else if ',' in text then Filter((p: string) => p != "", Map((p: string) => Trim(p), Split(text, ',')))
      else [text]
    case Arr(items) => Map((i: Value) => ToString(i), items)
    case _ => []
  }

  const IDENTIFYING_KEYS := ["vpc_id", "name", "bucket", "cluster_name"]

  function KeyValues(inputs: Inputs, keys: seq<string>): seq<string> {
    if keys == [] then []
    else (if keys[0] in inputs then [ToString(inputs[keys[0]])] else []) + KeyValues(inputs, keys[1..])
  }

  /** The values that name a resource: its name, then the identifying inputs it has. */
  function Identifiers(r: Resource): seq<string> {
    [r.name] + if r.inputs.Some? then KeyValues(r.inputs.value, IDENTIFYING_KEYS) else []
  }

  /** A row as the index sees it: the values it is entered under and its id. */
  datatype Naming = Naming(values: seq<string>, id: string)

  function Namings(rows: seq<Resource>): seq<Naming> {
    Map((r: Resource) => Naming(Identifiers(r), r.id), rows)
  }

  /** A later row takes a value over from an earlier one. */
  function IndexOf(names: seq<Naming>): map<string, string> {
    if names == [] then map[]
    else
      var last := names[|names| - 1];
      IndexOne(IndexOf(names[..|names| - 1]), last.values, last.id)
  }

  function IndexOne(index: map<string, string>, values: seq<string>, id: string): map<string, string> {
    index + map v | v in values :: id
  }

  function Index(rows: seq<Resource>): map<string, string> {
    IndexOf(Namings(rows))
  }

  /** The fields that refer to other resources, with the schema type they refer to. */
  const REFERENCE_FIELDS: map<string, string> := map[
    "vpc_id" := "vpc", "subnet_id" := "subnet", "subnet_ids" := "subnet",
    "vpc_security_group_ids" := "security-group", "security_groups" := "security-group",
    "key_name" := "key-pair", "target_group_arn" := "alb",
    "db_subnet_group_name" := "rds", "cluster_name" := "eks"]

  predicate IsFallback(r: Resource, target: Resource, targetType: string) {
    target.schemaId == targetType && target.id != r.id && target.env == r.env
  }

  function FirstFallback(r: Resource, rows: seq<Resource>, targetType: string): Option<string> {
    if rows == [] then None
    else if IsFallback(r, rows[0], targetType) then Some(rows[0].id)
    else FirstFallback(r, rows[1..], targetType)
  }

  /** The resource a reference points at: the one indexed under it, unless that is the referring
      resource itself; else the first of the expected type in the same environment; else none. */
  function Target(rows: seq<Resource>, r: Resource, ref: string, targetType: string): Option<string> {
    var index := Index(rows);
    if ref in index && index[ref] != r.id then Some(index[ref]) else FirstFallback(r, rows, targetType)
  }

  function RefEdges(rows: seq<Resource>, r: Resource, field: string, ref: string): seq<Edge>
    requires field in REFERENCE_FIELDS
  {
    match Target(rows, r, ref, REFERENCE_FIELDS[field])
    case None => []
    case Some(to) => [Edge(r.id, to, field)]
  }

  function FieldEdges(rows: seq<Resource>, r: Resource, field: string): seq<Edge> {
    if field !in REFERENCE_FIELDS || r.inputs.None? || field !in r.inputs.value then []
    else FlatMap((ref: string) => RefEdges(rows, r, field, ref), ExtractRefs(r.inputs.value[field]))
  }

  /** The edges from some of the rows, the fields being visited in the order `fields` for each. */
  function EdgesFrom(rows: seq<Resource>, fields: seq<string>, some: seq<Resource>): seq<Edge> {
    FlatMap((r: Resource) => FlatMap((f: string) => FieldEdges(rows, r, f), fields), some)
  }

  function AllEdges(rows: seq<Resource>, fields: seq<string>): seq<Edge> {
    EdgesFrom(rows, fields, rows)
  }

  datatype Graph = Graph(nodes: seq<string>, edges: seq<Edge>)

  function Ids(rows: seq<Resource>): seq<string> {
    Map((r: Resource) => r.id, rows)
  }

  /** The query behind the graph leaves out destroyed rows. */
  function LiveRows(table: seq<Resource>): seq<Resource> {
    Filter((r: Resource) => !r.destroyed, table)
  }

  lemma {:induction false} KeyValuesSnoc(inputs: Inputs, keys: seq<string>, k: nat)
    requires k < |keys|
    ensures KeyValues(inputs, keys[..k + 1])
         == KeyValues(inputs, keys[..k]) + if keys[k] in inputs then [ToString(inputs[keys[k]])] else []
  {
    if k == 0 {
      assert keys[..1][1..] == [];
    } else {
      KeyValuesSnoc(inputs, keys[1..], k - 1);
      assert keys[..k + 1][1..] == keys[1..][..k] && keys[..k][1..] == keys[1..][..k - 1];
    }
  }

  lemma IndexOneConcat(index: map<string, string>, a: seq<string>, b: seq<string>, id: string)
    ensures IndexOne(IndexOne(index, a, id), b, id) == IndexOne(index, a + b, id)
  {
  }

  lemma IndexOneSnoc(index: map<string, string>, values: seq<string>, v: string, id: string)
    ensures IndexOne(index, values, id)[v := id] == IndexOne(index, values + [v], id)
  {
  }

  method IndexKeys(index0: map<string, string>, inputs: Inputs, keys: seq<string>, id: string)
    returns (index: map<string, string>)
    ensures index == IndexOne(index0, KeyValues(inputs, keys), id)
  {
    index := index0;
    for k := 0 to |keys|
      invariant index == IndexOne(index0, KeyValues(inputs, keys[..k]), id)
    {
      ghost var values := KeyValues(inputs, keys[..k]);
      KeyValuesSnoc(inputs, keys, k);
      if keys[k] in inputs {
        IndexOneSnoc(index0, values, ToString(inputs[keys[k]]), id);
        index := index[ToString(inputs[keys[k]]) := id];
      } else {
        assert values + [] == values;
      }
    }
    assert keys[..|keys|] == keys;
  }

  method IndexRow(index0: map<string, string>, r: Resource) returns (index: map<string, string>)
    ensures index == IndexOne(index0, Identifiers(r), r.id)
  {
    index := index0[r.name := r.id];
    assert index == IndexOne(index0, [r.name], r.id);
    if r.inputs.Some? {
      index := IndexKeys(index, r.inputs.value, IDENTIFYING_KEYS, r.id);
      IndexOneConcat(index0, [r.name], KeyValues(r.inputs.value, IDENTIFYING_KEYS), r.id);
    }
  }

  method FindTarget(rows: seq<Resource>, index: map<string, string>, r: Resource, ref: string, targetType: string)
    returns (target: Option<string>)
    requires index == Index(rows)
    ensures target == Target(rows, r, ref, targetType)
  {
    if ref in index && index[ref] != r.id {
      return Some(index[ref]);
    }
    for k := 0 to |rows|
      invariant FirstFallback(r, rows, targetType) == FirstFallback(r, rows[k..], targetType)
    {
      if IsFallback(r, rows[k], targetType) {
        return Some(rows[k].id);
      }
    }
    return None;
  }

  method EdgesOfField(rows: seq<Resource>, index: map<string, string>, r: Resource, field: string)
    returns (edges: seq<Edge>)
    requires index == Index(rows) && field in REFERENCE_FIELDS
    ensures edges == FieldEdges(rows, r, field)
  {
    edges := [];
    if r.inputs.Some? && field in r.inputs.value {
      var refs := ExtractRefs(r.inputs.value[field]);
      for i := 0 to |refs|
        invariant edges == FlatMap((ref: string) => RefEdges(rows, r, field, ref), refs[..i])
      {
        var target := FindTarget(rows, index, r, refs[i], REFERENCE_FIELDS[field]);
        FlatMapSnoc((ref: string) => RefEdges(rows, r, field, ref), refs, i);
        if target.Some? {
          edges := edges + [Edge(r.id, target.value, field)];
        }
      }
      assert refs[..|refs|] == refs;
    }
  }

  method ResourceEdges(rows: seq<Resource>, index: map<string, string>, r: Resource, fields: seq<string>)
    returns (edges: seq<Edge>)
    requires index == Index(rows)
    requires forall f :: f in fields ==> f in REFERENCE_FIELDS
    ensures edges == FlatMap((f: string) => FieldEdges(rows, r, f), fields)
  {
    edges := [];
    for k := 0 to |fields|
      invariant edges == FlatMap((f: string) => FieldEdges(rows, r, f), fields[..k])
    {
      var more := EdgesOfField(rows, index, r, fields[k]);
      FlatMapSnoc((f: string) => FieldEdges(rows, r, f), fields, k);
      edges := edges + more;
    }
    assert fields[..|fields|] == fields;
  }

  lemma IdsSnoc(rows: seq<Resource>, k: nat)
    requires k < |rows|
    ensures Ids(rows[..k + 1]) == Ids(rows[..k]) + [rows[k].id]
  {
    assert rows[..k + 1] == rows[..k] + [rows[k]];
    MapConcat((r: Resource) => r.id, rows[..k], [rows[k]]);
  }

  lemma IndexSnoc(rows: seq<Resource>, k: nat)
    requires k < |rows|
    ensures Index(rows[..k + 1]) == IndexOne(Index(rows[..k]), Identifiers(rows[k]), rows[k].id)
  {
    var names := Namings(rows[..k + 1]);
    assert names[k] == Naming(Identifiers(rows[k]), rows[k].id);
    assert names[..k] == Namings(rows[..k]);
  }

  /** The first pass of `graphHandler`: a node and its index entries for every row. */
  method IndexRows(rows: seq<Resource>) returns (nodes: seq<string>, index: map<string, string>)
    ensures nodes == Ids(rows) && index == Index(rows)
  {
    nodes, index := [], map[];
    for k := 0 to |rows|
      invariant nodes == Ids(rows[..k])
      invariant index == Index(rows[..k])
    {
      IdsSnoc(rows, k);
      IndexSnoc(rows, k);
      nodes := nodes + [rows[k].id];
      index := IndexRow(index, rows[k]);
    }
    assert rows[..|rows|] == rows;
  }

  /** `graphHandler`; `fields` is the order in which the map of reference fields happens to be read. */
  method BuildGraph(table: seq<Resource>, fields: seq<string>) returns (graph: Graph)
    requires forall f :: f in fields <==> f in REFERENCE_FIELDS
    ensures graph == Graph(Ids(LiveRows(table)), AllEdges(LiveRows(table), fields))
  {
    var rows := LiveRows(table);
    var nodes, index := IndexRows(rows);
    var edges: seq<Edge> := [];
    for k := 0 to |rows|
      invariant edges == EdgesFrom(rows, fields, rows[..k])
    {
      var more := ResourceEdges(rows, index, rows[k], fields);
      FlatMapSnoc((r: Resource) => FlatMap((f: string) => FieldEdges(rows, r, f), fields), rows, k);
      edges := edges + more;
    }
    assert rows[..|rows|] == rows;
    return Graph(nodes, edges);
  }

  // ----- laws of the built graph

  ghost predicate LastNamed(names: seq<Naming>, v: string, k: nat) {
    && k < |names| && v in names[k].values
    && forall j :: k < j < |names| ==> v !in names[j].values
  }

  /** The index holds exactly the values that name some row, and the last row so named wins. */
  lemma {:induction false} IndexIsLastWriter(names: seq<Naming>, v: string)
    ensures v !in IndexOf(names) ==> forall k :: 0 <= k < |names| ==> v !in names[k].values
    ensures v in IndexOf(names) ==> exists k: nat :: LastNamed(names, v, k) && IndexOf(names)[v] == names[k].id
  {
    if names == [] {
    } else {
      var n := |names| - 1;
      IndexIsLastWriter(names[..n], v);
      assert forall k :: 0 <= k < n ==> names[..n][k] == names[k];
      if v in names[n].values {
        assert LastNamed(names, v, n);
      } else if v in IndexOf(names[..n]) {
        var k: nat :| LastNamed(names[..n], v, k) && IndexOf(names[..n])[v] == names[..n][k].id;
        assert LastNamed(names, v, k);
      }
    }
  }

  lemma {:induction false} FallbackIsOther(r: Resource, rows: seq<Resource>, targetType: string)
    ensures FirstFallback(r, rows, targetType).Some? ==>
              && FirstFallback(r, rows, targetType).value != r.id
              && exists k :: 0 <= k < |rows| && rows[k].id == FirstFallback(r, rows, targetType).value
  {
    if rows != [] && !IsFallback(r, rows[0], targetType) {
      FallbackIsOther(r, rows[1..], targetType);
      if FirstFallback(r, rows, targetType).Some? {
        var k :| 0 <= k < |rows| - 1 && rows[1..][k].id == FirstFallback(r, rows, targetType).value;
        assert rows[k + 1] == rows[1..][k];
      }
    }
  }

  lemma TargetIsOther(rows: seq<Resource>, r: Resource, ref: string, targetType: string)
    ensures Target(rows, r, ref, targetType).Some? ==>
              && Target(rows, r, ref, targetType).value != r.id
              && exists k :: 0 <= k < |rows| && rows[k].id == Target(rows, r, ref, targetType).value
  {
    IndexIsLastWriter(Namings(rows), ref);
    FallbackIsOther(r, rows, targetType);
    if ref in Index(rows) {
      var k: nat :| LastNamed(Namings(rows), ref, k) && Index(rows)[ref] == Namings(rows)[k].id;
      assert rows[k].id == Index(rows)[ref];
    }
  }

  /** Whose edge it is, through which field and which reference. */
  ghost predicate Explains(rows: seq<Resource>, r: Resource, field: string, ref: string, e: Edge) {
    && r in rows && r.inputs.Some? && field in REFERENCE_FIELDS && field in r.inputs.value
    && ref in ExtractRefs(r.inputs.value[field])
    && Target(rows, r, ref, REFERENCE_FIELDS[field]) == Some(e.to)
    && e.from == r.id && e.field == field
  }

  lemma RowOfEdge(rows: seq<Resource>, fields: seq<string>, e: Edge) returns (r: Resource)
    requires e in AllEdges(rows, fields)
    ensures r in rows && e in FlatMap((f: string) => FieldEdges(rows, r, f), fields)
  {
    FlatMapMember((r: Resource) => FlatMap((f: string) => FieldEdges(rows, r, f), fields), rows, e);
    r :| r in rows && e in FlatMap((f: string) => FieldEdges(rows, r, f), fields);
  }

  lemma FieldOfEdge(rows: seq<Resource>, fields: seq<string>, r: Resource, e: Edge) returns (field: string)
    requires e in FlatMap((f: string) => FieldEdges(rows, r, f), fields)
    ensures field in fields && e in FieldEdges(rows, r, field)
  {
    FlatMapMember((f: string) => FieldEdges(rows, r, f), fields, e);
    field :| field in fields && e in FieldEdges(rows, r, field);
  }

  lemma RefOfEdge(rows: seq<Resource>, r: Resource, field: string, e: Edge) returns (ref: string)
    requires r in rows && e in FieldEdges(rows, r, field)
    ensures Explains(rows, r, field, ref, e)
  {
    FlatMapMember((ref: string) => RefEdges(rows, r, field, ref), ExtractRefs(r.inputs.value[field]), e);
    ref :| ref in ExtractRefs(r.inputs.value[field]) && e in RefEdges(rows, r, field, ref);
  }

  lemma EdgeIsExplained(rows: seq<Resource>, fields: seq<string>, e: Edge)
    returns (r: Resource, field: string, ref: string)
    requires e in AllEdges(rows, fields)
    ensures Explains(rows, r, field, ref, e)
  {
    r := RowOfEdge(rows, fields, e);
    field := FieldOfEdge(rows, fields, r, e);
    ref := RefOfEdge(rows, r, field, e);
  }

  lemma ExplainedIsEdge(rows: seq<Resource>, fields: seq<string>, r: Resource, field: string, ref: string, e: Edge)
    requires Explains(rows, r, field, ref, e) && field in fields
    ensures e in AllEdges(rows, fields)
  {
    FlatMapMember((ref: string) => RefEdges(rows, r, field, ref), ExtractRefs(r.inputs.value[field]), e);
    FlatMapMember((f: string) => FieldEdges(rows, r, f), fields, e);
    FlatMapMember((r: Resource) => FlatMap((f: string) => FieldEdges(rows, r, f), fields), rows, e);
  }

  /** An edge is drawn exactly when some live row refers to its target through a reference field. */
  lemma EdgesAreExact(table: seq<Resource>, fields: seq<string>, e: Edge)
    requires forall f :: f in fields <==> f in REFERENCE_FIELDS
    ensures e in AllEdges(LiveRows(table), fields)
            <==> exists r, field, ref :: Explains(LiveRows(table), r, field, ref, e)
  {
    var rows := LiveRows(table);
    if e in AllEdges(rows, fields) {
      var r, field, ref := EdgeIsExplained(rows, fields, e);
    }
    if r, field, ref :| Explains(rows, r, field, ref, e) {
      ExplainedIsEdge(rows, fields, r, field, ref, e);
    }
  }

  /** No edge runs from a resource to itself, and both ends are nodes of the graph. */
  lemma EdgesJoinLiveNodes(table: seq<Resource>, fields: seq<string>, e: Edge)
    requires forall f :: f in fields <==> f in REFERENCE_FIELDS
    requires e in AllEdges(LiveRows(table), fields)
    ensures e.from != e.to && e.from in Ids(LiveRows(table)) && e.to in Ids(LiveRows(table))
  {
    var rows := LiveRows(table);
    EdgesAreExact(table, fields, e);
    var r, field, ref :| Explains(rows, r, field, ref, e);
    TargetIsOther(rows, r, ref, REFERENCE_FIELDS[field]);
    var i :| 0 <= i < |rows| && rows[i] == r;
    assert Ids(rows)[i] == r.id;
    var k :| 0 <= k < |rows| && rows[k].id == e.to;
    assert Ids(rows)[k] == e.to;
  }

  /** In a graph built from any rows, whatever depends on a node is itself a node of the graph. */
  lemma BlastRadiusStaysInGraph(table: seq<Resource>, fields: seq<string>, x: string, nodeId: string)
    requires forall f :: f in fields <==> f in REFERENCE_FIELDS
    requires Reaches(AllEdges(LiveRows(table), fields), x, nodeId)
    ensures x in Ids(LiveRows(table)) && nodeId in Ids(LiveRows(table))
  {
    var edges := AllEdges(LiveRows(table), fields);
    var p :| IsWalkTo(edges, p, x, nodeId);
    assert HasEdge(edges, p[0], p[1]) && HasEdge(edges, p[|p| - 2], p[|p| - 1]);
    var k :| 0 <= k < |edges| && edges[k].from == p[0] && edges[k].to == p[1];
    EdgesJoinLiveNodes(table, fields, edges[k]);
    var j :| 0 <= j < |edges| && edges[j].from == p[|p| - 2] && edges[j].to == p[|p| - 1];
    EdgesJoinLiveNodes(table, fields, edges[j]);
  }

  /** The order in which the map of reference fields is read changes no blast radius. */
  lemma {:induction false} FieldOrderIsIrrelevant(table: seq<Resource>, fields: seq<string>, others: seq<string>,
                               x: string, nodeId: string)
    requires forall f :: f in fields <==> f in REFERENCE_FIELDS
    requires forall f :: f in others <==> f in REFERENCE_FIELDS
    requires Reaches(AllEdges(LiveRows(table), fields), x, nodeId)
    ensures Reaches(AllEdges(LiveRows(table), others), x, nodeId)
  {
    var edges := AllEdges(LiveRows(table), fields);
    var same := AllEdges(LiveRows(table), others);
    var p :| IsWalkTo(edges, p, x, nodeId);
    forall i | 0 <= i < |p| - 1 ensures HasEdge(same, p[i], p[i + 1]) {
      assert HasEdge(edges, p[i], p[i + 1]);
      var k :| 0 <= k < |edges| && edges[k].from == p[i] && edges[k].to == p[i + 1];
      EdgesAreExact(table, fields, edges[k]);
      EdgesAreExact(table, others, edges[k]);
      var j :| 0 <= j < |same| && same[j] == edges[k];
    }
    assert IsWalkTo(same, p, x, nodeId);
  }
}
