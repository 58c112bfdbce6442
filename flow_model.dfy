/**
 * The graph of an API flow design: nodes of four kinds carrying a loosely
 * typed attribute bag, and directed edges whose id is derived from their
 * endpoints. The functions here are the pure list and record transforms the
 * editor's state cells are overwritten with (`client/src/App.tsx`).
 */
module FlowModel {
  import opened Strings

  datatype NodeKind = Start | HttpRequest | DatabaseQuery | Response

  /** The string the source uses for each kind (`FlowNode['type']`). */
  function KindName(kind: NodeKind): string {
    match kind
    case Start => "start"
    case HttpRequest => "httpRequest"
    case DatabaseQuery => "databaseQuery"
    case Response => "response"
  }

  /** A canvas coordinate; the canvas keeps dragged nodes at non-negative ones. */
  datatype Position = Position(x: real, y: real)

  /** The keys of a node's `data` object. */
  datatype Field =
    | Label | Description | Method | Url | Headers | Body
    | Table | QueryType | Query | StatusCode

  /** The values those keys hold: text, a number, or the string-to-string header map. */
  datatype Value = Str(s: string) | Num(n: int) | Dict(entries: map<string, string>)

  /** A node's `data` object; a partial update of it has the same shape. */
  type NodeData = map<Field, Value>

  datatype FlowNode = FlowNode(id: string, kind: NodeKind, position: Position, data: NodeData)

  datatype FlowEdge = FlowEdge(id: string, source: string, target: string)

  /** The value type the declaration of `FlowNode['data']` gives each key. */
  predicate HasFieldType(f: Field, v: Value) {
    match f
    case Headers => v.Dict?
    case StatusCode => v.Num?
    case _ => v.Str?
  }

  /** Data that fits the declared shape: a label, and every present key holding its declared type. */
  predicate WellTypedData(d: NodeData) {
    && Label in d && d[Label].Str?
    && forall f :: f in d ==> HasFieldType(f, d[f])
  }

  /** A patch whose present keys hold their declared types (`Partial<FlowNode['data']>`). */
  predicate WellTypedPatch(p: NodeData) {
    forall f :: f in p ==> HasFieldType(f, p[f])
  }

  /** The fields a kind is created with besides its label. */
  function KindDefaults(kind: NodeKind): NodeData {
    match kind
    case Start => map[Description := Str("")]
    case HttpRequest => map[Method := Str("GET"), Url := Str(""), Headers := Dict(map[]), Body := Str("")]
    case DatabaseQuery => map[Table := Str(""), QueryType := Str("SELECT"), Query := Str("")]
    case Response => map[StatusCode := Num(200), Body := Str("{}")]
  }

  /** The data of a freshly added node: its label and its kind's defaults. */
  function DefaultData(kind: NodeKind, text: string): (d: NodeData)
    ensures WellTypedData(d)
    ensures d[Label] == Str(text)
    ensures d.Keys == {Label} + KindDefaults(kind).Keys
    ensures forall f :: f in KindDefaults(kind) ==> d[f] == KindDefaults(kind)[f]
    ensures kind == Start ==> d[Description] == Str("")
    ensures kind == HttpRequest ==>
      d[Method] == Str("GET") && d[Url] == Str("") && d[Headers] == Dict(map[]) && d[Body] == Str("")
    ensures kind == DatabaseQuery ==> d[Table] == Str("") && d[QueryType] == Str("SELECT") && d[Query] == Str("")
    ensures kind == Response ==> d[StatusCode] == Num(200) && d[Body] == Str("{}")
  {
    map[Label := Str(text)] + KindDefaults(kind)
  }

  /** The id `addNode` generates: the kind's name, a dash, and the millisecond clock reading. */
  function GeneratedId(kind: NodeKind, now: nat): string {
    KindName(kind) + "-" + DecimalString(now)
  }

  /**
   * The node `addNode` builds, with the clock reading `now` and the two
   * `Math.random()` draws `rx`, `ry` as inputs.
   */
  function NewNode(kind: NodeKind, text: string, now: nat, rx: real, ry: real): (n: FlowNode)
    requires 0.0 <= rx < 1.0 && 0.0 <= ry < 1.0
    ensures n.id == GeneratedId(kind, now) && n.kind == kind
    ensures 100.0 <= n.position.x < 500.0 && 100.0 <= n.position.y < 400.0
    ensures n.data == DefaultData(kind, text) && WellTypedData(n.data)
  {
    FlowNode(GeneratedId(kind, now), kind, Position(rx * 400.0 + 100.0, ry * 300.0 + 100.0), DefaultData(kind, text))
  }

  /** Generated ids differ whenever the kind or the clock reading differs. */
  lemma GeneratedIdInjective(k1: NodeKind, t1: nat, k2: NodeKind, t2: nat)
    requires GeneratedId(k1, t1) == GeneratedId(k2, t2)
    ensures k1 == k2 && t1 == t2
  {
    var a, b := GeneratedId(k1, t1), GeneratedId(k2, t2);
    assert a[0] == KindName(k1)[0] && b[0] == KindName(k2)[0];
    assert k1 == k2;
    var p := |KindName(k1) + "-"|;
    assert a[p..] == DecimalString(t1) && b[p..] == DecimalString(t2);
    DecimalStringInjective(t1, t2);
  }

  /** Two nodes of one kind added within the same millisecond get the same id. */
  lemma SameMillisecondIdsCollide(kind: NodeKind, l1: string, l2: string, now: nat, rx1: real, ry1: real, rx2: real, ry2: real)
    requires 0.0 <= rx1 < 1.0 && 0.0 <= ry1 < 1.0 && 0.0 <= rx2 < 1.0 && 0.0 <= ry2 < 1.0
    ensures NewNode(kind, l1, now, rx1, ry1).id == NewNode(kind, l2, now, rx2, ry2).id
  {
  }

  function NodeIds(nodes: seq<FlowNode>): (ids: seq<string>)
    ensures |ids| == |nodes| && forall i :: 0 <= i < |nodes| ==> ids[i] == nodes[i].id
  {
    if nodes == [] then [] else [nodes[0].id] + NodeIds(nodes[1..])
  }

  /** `{ ...data, ...patch }`: the patch's keys win, every other key keeps its value. */
  function Merge(data: NodeData, patch: NodeData): (r: NodeData)
    ensures r.Keys == data.Keys + patch.Keys
    ensures forall f :: f in patch ==> r[f] == patch[f]
    ensures forall f :: f in data && f !in patch ==> r[f] == data[f]
  {
    data + patch
  }

  /** Merging keeps data well typed when the patch is. */
  lemma MergeWellTyped(data: NodeData, patch: NodeData)
    requires WellTypedData(data) && WellTypedPatch(patch)
    ensures WellTypedData(Merge(data, patch))
  {
  }

  /** Applying the same patch twice is the same as applying it once. */
  lemma MergeIdempotent(data: NodeData, patch: NodeData)
    ensures Merge(Merge(data, patch), patch) == Merge(data, patch)
  {
  }

  /** `nodes.map(...)` of `updateNodeData`: every node with the id has its data merged with `patch`. */
  function UpdateNodeData(nodes: seq<FlowNode>, id: string, patch: NodeData): (r: seq<FlowNode>)
    ensures |r| == |nodes|
    ensures forall i :: 0 <= i < |nodes| ==>
      && r[i].id == nodes[i].id && r[i].kind == nodes[i].kind && r[i].position == nodes[i].position
      && r[i].data == (if nodes[i].id == id then Merge(nodes[i].data, patch) else nodes[i].data)
  {
    if nodes == [] then []
    else
      var n := nodes[0];
      [if n.id == id then n.(data := Merge(n.data, patch)) else n] + UpdateNodeData(nodes[1..], id, patch)
  }

  /** `nodes.map(...)` of `updateNodePosition`: every node with the id gets `pos`, unclamped. */
  function UpdateNodePosition(nodes: seq<FlowNode>, id: string, pos: Position): (r: seq<FlowNode>)
    ensures |r| == |nodes|
    ensures forall i :: 0 <= i < |nodes| ==>
      && r[i].id == nodes[i].id && r[i].kind == nodes[i].kind && r[i].data == nodes[i].data
      && r[i].position == (if nodes[i].id == id then pos else nodes[i].position)
  {
    if nodes == [] then []
    else
      var n := nodes[0];
      [if n.id == id then n.(position := pos) else n] + UpdateNodePosition(nodes[1..], id, pos)
  }

  predicate HasNode(nodes: seq<FlowNode>, id: string) {
    exists i :: 0 <= i < |nodes| && nodes[i].id == id
  }

  /** A data update for an id no node has changes nothing. */
  lemma UpdateNodeDataUnknownId(nodes: seq<FlowNode>, id: string, patch: NodeData)
    requires !HasNode(nodes, id)
    ensures UpdateNodeData(nodes, id, patch) == nodes
  {
    var r := UpdateNodeData(nodes, id, patch);
    forall i | 0 <= i < |nodes| ensures r[i] == nodes[i] {
      assert nodes[i].id != id;
    }
  }

  /** A position update for an id no node has changes nothing. */
  lemma UpdateNodePositionUnknownId(nodes: seq<FlowNode>, id: string, pos: Position)
    requires !HasNode(nodes, id)
    ensures UpdateNodePosition(nodes, id, pos) == nodes
  {
    var r := UpdateNodePosition(nodes, id, pos);
    forall i | 0 <= i < |nodes| ensures r[i] == nodes[i] {
      assert nodes[i].id != id;
    }
  }

  /** Neither update renames, reorders, adds or drops a node. */
  lemma UpdatesKeepIds(nodes: seq<FlowNode>, id: string, patch: NodeData, pos: Position)
    ensures NodeIds(UpdateNodeData(nodes, id, patch)) == NodeIds(nodes)
    ensures NodeIds(UpdateNodePosition(nodes, id, pos)) == NodeIds(nodes)
  {
  }

  /** Every node keeps well-typed data when a well-typed patch is merged. */
  lemma UpdateNodeDataWellTyped(nodes: seq<FlowNode>, id: string, patch: NodeData)
    requires forall i :: 0 <= i < |nodes| ==> WellTypedData(nodes[i].data)
    requires WellTypedPatch(patch)
    ensures forall i :: 0 <= i < |nodes| ==> WellTypedData(UpdateNodeData(nodes, id, patch)[i].data)
  {
    forall i | 0 <= i < |nodes| ensures WellTypedData(UpdateNodeData(nodes, id, patch)[i].data) {
      MergeWellTyped(nodes[i].data, patch);
    }
  }

  /** The id `connectNodes` gives the edge from `source` to `target`. */
  function EdgeId(source: string, target: string): string {
    source + "-" + target
  }

  /** `edges.find(edge => edge.id === id)` found something. */
  function HasEdgeId(edges: seq<FlowEdge>, id: string): (b: bool)
    ensures b <==> exists i :: 0 <= i < |edges| && edges[i].id == id
  {
    if edges == [] then false
    else edges[0].id == id || HasEdgeId(edges[1..], id)
  }

  predicate DistinctEdgeIds(edges: seq<FlowEdge>) {
    forall i, j :: 0 <= i < j < |edges| ==> edges[i].id != edges[j].id
  }

  /** `connectNodes`: append the derived edge unless an edge with its id is already there. */
  function ConnectNodes(edges: seq<FlowEdge>, source: string, target: string): (r: seq<FlowEdge>)
    ensures HasEdgeId(r, EdgeId(source, target))
    ensures HasEdgeId(edges, EdgeId(source, target)) ==> r == edges
    ensures !HasEdgeId(edges, EdgeId(source, target)) ==> r == edges + [FlowEdge(EdgeId(source, target), source, target)]
    ensures DistinctEdgeIds(edges) ==> DistinctEdgeIds(r)
  {
    var id := EdgeId(source, target);
    if HasEdgeId(edges, id) then edges
    else
      var r := edges + [FlowEdge(id, source, target)];
      assert r[|edges|].id == id;
      r
  }

  /** A second identical connect changes nothing. */
  lemma ConnectIdempotent(edges: seq<FlowEdge>, source: string, target: string)
    ensures ConnectNodes(ConnectNodes(edges, source, target), source, target) == ConnectNodes(edges, source, target)
  {
  }

  /** `edges.filter(edge => edge.id !== id)`. */
  function RemoveEdge(edges: seq<FlowEdge>, id: string): (r: seq<FlowEdge>)
    ensures |r| <= |edges|
    ensures !HasEdgeId(r, id)
    ensures forall e :: e in r <==> e in edges && e.id != id
    ensures !HasEdgeId(edges, id) ==> r == edges
  {
    if edges == [] then []
    else
      var rest := RemoveEdge(edges[1..], id);
      if edges[0].id == id then rest
      else
        assert edges == [edges[0]] + edges[1..];
        [edges[0]] + rest
  }

  /** Filtering distributes over concatenation, so the kept edges stay in their order. */
  lemma {:induction false} RemoveEdgeAppend(a: seq<FlowEdge>, b: seq<FlowEdge>, id: string)
    ensures RemoveEdge(a + b, id) == RemoveEdge(a, id) + RemoveEdge(b, id)
  {
    if a == [] {
      assert a + b == b;
    } else {
      var ab := a + b;
      assert ab[0] == a[0] && ab[1..] == a[1..] + b;
      RemoveEdgeAppend(a[1..], b, id);
    }
  }

  /** Removing an edge that a connect just added restores the edge list. */
  lemma RemoveUndoesConnect(edges: seq<FlowEdge>, source: string, target: string)
    requires !HasEdgeId(edges, EdgeId(source, target))
    ensures RemoveEdge(ConnectNodes(edges, source, target), EdgeId(source, target)) == edges
  {
    var id := EdgeId(source, target);
    RemoveEdgeAppend(edges, [FlowEdge(id, source, target)], id);
    assert RemoveEdge([FlowEdge(id, source, target)], id) == [];
  }

  /** Removing keeps edge ids distinct. */
  lemma RemoveEdgeKeepsDistinct(edges: seq<FlowEdge>, id: string)
    requires DistinctEdgeIds(edges)
    ensures DistinctEdgeIds(RemoveEdge(edges, id))
  {
    if edges != [] {
      RemoveEdgeKeepsDistinct(edges[1..], id);
      var rest := RemoveEdge(edges[1..], id);
      if edges[0].id != id {
        forall j | 0 <= j < |rest| ensures edges[0].id != rest[j].id {
          assert rest[j] in edges[1..];
        }
      }
    }
  }

  /** Edge ids do not determine their endpoints: a node id holding a dash can make two pairs share one. */
  lemma EdgeIdsCanCollide()
    ensures EdgeId("a-b", "c") == EdgeId("a", "b-c")
  {
  }
}
