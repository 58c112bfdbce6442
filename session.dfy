/**
 * How `App` wires its parts together (`client/src/App.tsx`): the canvas's
 * moves and connections feed the store's `updateNodePosition` and
 * `connectNodes`, and a save of an open design goes to the server's
 * `updateApiDesign`, whose record `loadDesign` later reads back.
 */
module Session {
  import opened Wrappers
  import opened Strings
  import opened FlowModel
  import opened Serialization
  import opened Canvas
  import opened DesignStore

  /** No edge joins a node to itself. */
  predicate NoSelfLoops(edges: seq<FlowEdge>) {
    forall i :: 0 <= i < |edges| ==> edges[i].source != edges[i].target
  }

  /** What `onConnect` does to the edges: connect when the canvas reports a connection. */
  function ApplyConnection(edges: seq<FlowEdge>, c: Option<Connection>): (r: seq<FlowEdge>)
    ensures c.None? ==> r == edges
    ensures c.Some? ==> r == ConnectNodes(edges, c.value.source, c.value.target)
  {
    if c.Some? then ConnectNodes(edges, c.value.source, c.value.target) else edges
  }

  /**
   * The store's `connectNodes` accepts a self-loop, but the canvas never
   * reports one, so edges made through the canvas keep the graph free of them.
   */
  lemma CanvasConnectionsKeepNoSelfLoops(edges: seq<FlowEdge>, source: string, target: string)
    requires NoSelfLoops(edges)
    ensures NoSelfLoops(ApplyConnection(edges, ConnectionFor(source, target)))
  {
  }

  /** Both handle clicks feed the same rule: whatever the pending state, a reported connection is no self-loop. */
  lemma HandleClicksKeepNoSelfLoops(edges: seq<FlowEdge>, pending: Option<string>, nodeId: string)
    requires NoSelfLoops(edges)
    ensures NoSelfLoops(ApplyConnection(edges, HandleClickStep(pending, nodeId).1))
  {
    if Truthy(pending) {
      CanvasConnectionsKeepNoSelfLoops(edges, pending.value, nodeId);
    }
  }

  /** The store itself does connect a node to itself. */
  lemma StoreAcceptsSelfLoop(id: string)
    ensures !NoSelfLoops(ConnectNodes([], id, id))
  {
    assert ConnectNodes([], id, id)[0].source == id;
  }

  /** Every node lies in the non-negative quadrant. */
  predicate NonNegativePositions(nodes: seq<FlowNode>) {
    forall i :: 0 <= i < |nodes| ==> nodes[i].position.x >= 0.0 && nodes[i].position.y >= 0.0
  }

  /** What `onNodeMove` does to the nodes: move when the canvas reports a move. */
  function ApplyMove(nodes: seq<FlowNode>, m: Option<NodeMove>): (r: seq<FlowNode>)
    ensures m.None? ==> r == nodes
    ensures m.Some? ==> r == UpdateNodePosition(nodes, m.value.id, m.value.position)
  {
    if m.Some? then UpdateNodePosition(nodes, m.value.id, m.value.position) else nodes
  }

  /** Dragging keeps every node in the non-negative quadrant, because the canvas clamps before the store moves. */
  lemma DragKeepsNonNegative(nodes: seq<FlowNode>, dragged: Option<string>, offset: Position, pointer: Position)
    requires NonNegativePositions(nodes)
    ensures NonNegativePositions(ApplyMove(nodes, MoveFor(dragged, offset, pointer)))
  {
  }

  /** Nodes added by `addNode` start inside the non-negative quadrant. */
  lemma AddedNodeNonNegative(nodes: seq<FlowNode>, kind: NodeKind, text: string, now: nat, rx: real, ry: real)
    requires 0.0 <= rx < 1.0 && 0.0 <= ry < 1.0
    requires NonNegativePositions(nodes)
    ensures NonNegativePositions(nodes + [NewNode(kind, text, now, rx, ry)])
  {
  }

  /** The `updateApiDesign` input the client sends for an update request. */
  function UpdateInputFor(request: SaveRequest): (input: UpdateInput)
    requires request.UpdateDesign?
    ensures input.id == request.id
    ensures input.name == Some(request.name) && input.designData == Some(request.document)
  {
    UpdateInput(request.id, Some(request.name), Some(request.document))
  }

  /** What `getApiDesign` hands the client for a record. */
  function Fetched(record: DesignRecord): (d: StoredDesign)
    ensures d.id == record.id && d.name == record.name && d.document == record.designData
  {
    StoredDesign(record.id, record.name, record.designData)
  }

  /**
   * Saving the open design and then loading its record back restores the
   * graph that was saved, with the saved name and the same design id.
   */
  lemma SaveThenLoadRestoresGraph(name: string, nodes: seq<FlowNode>, edges: seq<FlowEdge>, id: string, row: DesignRecord, now: int)
    requires !IsBlank(name) && id != "" && row.id == id
    ensures var request := SaveRequestFor(name, nodes, edges, Some(id));
            && request.Some? && request.value.UpdateDesign?
            && var loaded := Fetched(UpdatedRecord(row, UpdateInputFor(request.value), now));
            && DecodeNodes(loaded.document) == nodes && DecodeEdges(loaded.document) == edges
            && loaded.name == name && loaded.id == id
  {
  }
}
