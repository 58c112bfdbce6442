/**
 * The canvas (`client/src/components/FlowCanvas.tsx`): a controller whose
 * transient fields record the node being dragged, the pointer's offset from
 * that node's origin, and the node a connection gesture started from. Its
 * handlers turn pointer events into the callbacks the editor receives
 * (`onNodeSelect`, `onNodeMove`, `onConnect`), returned here as values.
 * Pointer coordinates are given relative to the canvas, which is what
 * `clientX - rect.left` and `clientY - rect.top` compute.
 * The rendering helpers (edge geometry, handles per kind, status colours) are
 * pure functions.
 */
module Canvas {
  import opened Wrappers
  import opened Strings
  import opened FlowModel
  import opened Editor

  /** How far right of a node's position its outgoing line starts (the approximate node width). */
  const NodeWidth: real := 120.0

  /** How far below a node's position its lines meet it (half the approximate node height). */
  const HalfNodeHeight: real := 25.0

  /** `Math.max(0, v)`. */
  function Max0(v: real): (r: real)
    ensures r >= 0.0 && r >= v
    ensures r == v || r == 0.0
  {
    if v > 0.0 then v else 0.0
  }

  /** The nearest point with non-negative coordinates. */
  function Clamp(p: Position): (r: Position)
    ensures r.x >= 0.0 && r.y >= 0.0
    ensures p.x >= 0.0 && p.y >= 0.0 ==> r == p
    ensures r.x == (if p.x < 0.0 then 0.0 else p.x)
    ensures r.y == (if p.y < 0.0 then 0.0 else p.y)
  {
    Position(Max0(p.x), Max0(p.y))
  }

  /** The offset a press records: from the node's origin to the pointer. */
  function GrabOffset(pointer: Position, origin: Position): Position {
    Position(pointer.x - origin.x, pointer.y - origin.y)
  }

  /** Where a move puts the dragged node: the pointer minus the recorded offset, clamped. */
  function DragTarget(pointer: Position, offset: Position): (p: Position)
    ensures p.x >= 0.0 && p.y >= 0.0
    ensures p == Clamp(Position(pointer.x - offset.x, pointer.y - offset.y))
  {
    Position(Max0(pointer.x - offset.x), Max0(pointer.y - offset.y))
  }

  /** A move right after the press, at the same point, keeps the node where it was (clamped). */
  lemma PressThenMoveInPlace(pointer: Position, origin: Position)
    ensures DragTarget(pointer, GrabOffset(pointer, origin)) == Clamp(origin)
    ensures origin.x >= 0.0 && origin.y >= 0.0 ==> DragTarget(pointer, GrabOffset(pointer, origin)) == origin
  {
  }

  /** The dragged node follows the pointer: moving it by (dx, dy) moves the node by (dx, dy), clamped. */
  lemma DragFollowsPointer(press: Position, origin: Position, dx: real, dy: real)
    ensures DragTarget(Position(press.x + dx, press.y + dy), GrabOffset(press, origin))
      == Clamp(Position(origin.x + dx, origin.y + dy))
  {
  }

  /** An `onNodeMove(id, position)` call. */
  datatype NodeMove = NodeMove(id: string, position: Position)

  /** The move a pointer move emits: one for the dragged node, or none when no (truthy) node is dragged. */
  function MoveFor(dragged: Option<string>, offset: Position, pointer: Position): (m: Option<NodeMove>)
    ensures m.Some? <==> Truthy(dragged)
    ensures m.Some? ==> m.value.id == dragged.value && m.value.position == DragTarget(pointer, offset)
    ensures m.Some? ==> m.value.position.x >= 0.0 && m.value.position.y >= 0.0
  {
    if Truthy(dragged) then Some(NodeMove(dragged.value, DragTarget(pointer, offset))) else None
  }

  /** An `onConnect(source, target)` call. */
  datatype Connection = Connection(source: string, target: string)

  /** `handleNodeConnect`'s guard: a connection is reported only between two different nodes. */
  function ConnectionFor(source: string, target: string): (c: Option<Connection>)
    ensures c.Some? <==> source != target
    ensures c.Some? ==> c.value == Connection(source, target)
  {
    if source != target then Some(Connection(source, target)) else None
  }

  /**
   * One click on a connection handle of node `nodeId`: the new `connectingFrom`
   * and the connection it reports. A pending (truthy) start is completed and
   * cleared; otherwise the click starts a connection from this node.
   */
  function HandleClickStep(connectingFrom: Option<string>, nodeId: string): (r: (Option<string>, Option<Connection>))
    ensures Truthy(connectingFrom) ==> r.0 == None && r.1 == ConnectionFor(connectingFrom.value, nodeId)
    ensures !Truthy(connectingFrom) ==> r.0 == Some(nodeId) && r.1 == None
  {
    if Truthy(connectingFrom) then (None, ConnectionFor(connectingFrom.value, nodeId)) else (Some(nodeId), None)
  }

  /** Two clicks from the resting state connect the first node to the second, unless they are the same node. */
  lemma TwoClicksConnect(first: string, second: string)
    requires first != ""
    ensures var (pending, c1) := HandleClickStep(None, first);
            var (after, c2) := HandleClickStep(pending, second);
            c1 == None && after == None
            && (c2.Some? <==> first != second)
            && (c2.Some? ==> c2.value == Connection(first, second))
  {
  }

  /** A node whose id is empty cannot start a connection: the next click starts over from the clicked node. */
  lemma EmptyIdNeverStartsConnection(second: string)
    ensures var (pending, _) := HandleClickStep(None, "");
            HandleClickStep(pending, second) == (Some(second), None)
  {
  }

  /** The sides of a node that carry a connection handle. */
  datatype Side = LeftSide | RightSide

  /** The handles a kind is drawn with: no right handle on a response, no left handle on a start. */
  function Handles(kind: NodeKind): (s: set<Side>)
    ensures RightSide in s <==> kind != Response
    ensures LeftSide in s <==> kind != Start
  {
    (if kind != Response then {RightSide} else {}) + (if kind != Start then {LeftSide} else {})
  }

  /** Every kind has a handle, and exactly the middle kinds have two. */
  lemma HandleCounts(kind: NodeKind)
    ensures |Handles(kind)| >= 1
    ensures |Handles(kind)| == 2 <==> kind == HttpRequest || kind == DatabaseQuery
  {
    if kind == HttpRequest || kind == DatabaseQuery {
      assert Handles(kind) == {LeftSide, RightSide};
    } else if kind == Start {
      assert Handles(kind) == {RightSide};
    } else {
      assert Handles(kind) == {LeftSide};
    }
  }

  /**
   * Both handles react to a click in the same way, so the sides do not fix a
   * direction: a gesture from a response node's left handle to a start node's
   * right handle reports a connection from the response to the start.
   */
  lemma StartCanBecomeTarget(response: FlowNode, start: FlowNode)
    requires response.kind == Response && start.kind == Start
    requires response.id != "" && response.id != start.id
    ensures LeftSide in Handles(response.kind) && RightSide in Handles(start.kind)
    ensures HandleClickStep(HandleClickStep(None, response.id).0, start.id).1 == Some(Connection(response.id, start.id))
  {
  }

  /** `nodes.find(n => n.id === id)`: the first node with that id. */
  function FindNode(nodes: seq<FlowNode>, id: string): (r: Option<FlowNode>)
    ensures r.None? <==> !HasNode(nodes, id)
    ensures r.Some? ==> exists i :: 0 <= i < |nodes| && nodes[i] == r.value && r.value.id == id && !HasNode(nodes[..i], id)
  {
    if nodes == [] then None
    else if nodes[0].id == id then
      assert nodes[..0] == [];
      Some(nodes[0])
    else
      var r := FindNode(nodes[1..], id);
      if r.Some? then
        var i :| 0 <= i < |nodes[1..]| && nodes[1..][i] == r.value && r.value.id == id && !HasNode(nodes[1..][..i], id);
        assert nodes[..i + 1] == [nodes[0]] + nodes[1..][..i];
        r
      else
        r
  }

  /** Where a node's outgoing lines start: the middle of its right-hand side. */
  function RightAnchor(n: FlowNode): Position {
    Position(n.position.x + NodeWidth, n.position.y + HalfNodeHeight)
  }

  /** Where a node's incoming lines end: the middle of its left-hand side. */
  function LeftAnchor(n: FlowNode): Position {
    Position(n.position.x, n.position.y + HalfNodeHeight)
  }

  /** A drawn edge: its line and the delete marker on it. */
  datatype EdgeGeometry = EdgeGeometry(start: Position, end: Position, marker: Position)

  /** How an edge is drawn, or `None` when its source or target node is missing. */
  function EdgeLayout(nodes: seq<FlowNode>, edge: FlowEdge): (g: Option<EdgeGeometry>)
    ensures g.Some? <==> HasNode(nodes, edge.source) && HasNode(nodes, edge.target)
    ensures g.Some? ==> g.value.start == RightAnchor(FindNode(nodes, edge.source).value)
    ensures g.Some? ==> g.value.end == LeftAnchor(FindNode(nodes, edge.target).value)
    ensures g.Some? ==>
      && g.value.marker.x - g.value.start.x == g.value.end.x - g.value.marker.x
      && g.value.marker.y - g.value.start.y == g.value.end.y - g.value.marker.y
  {
    match (FindNode(nodes, edge.source), FindNode(nodes, edge.target))
    case (Some(s), Some(t)) =>
      var a, b := RightAnchor(s), LeftAnchor(t);
      Some(EdgeGeometry(a, b, Position((a.x + b.x) / 2.0, (a.y + b.y) / 2.0)))
    case _ => None
  }

  /** The colour of a status-code badge. */
  datatype StatusColor = Green | Yellow | Orange | Red | Gray

  /** `getStatusColor`: success, redirect, client error, server error, anything else. */
  function StatusColorOf(code: int): (c: StatusColor)
    ensures c == Green <==> 200 <= code < 300
    ensures c == Yellow <==> 300 <= code < 400
    ensures c == Orange <==> 400 <= code < 500
    ensures c == Red <==> 500 <= code
    ensures c == Gray <==> code < 200
  {
    if 200 <= code < 300 then Green
    else if 300 <= code < 400 then Yellow
    else if 400 <= code < 500 then Orange
    else if code >= 500 then Red
    else Gray
  }

  /** The status code a response node's badge shows: `node.data.statusCode || 200`. */
  function ShownStatusCode(data: NodeData): (code: int)
    ensures code != 0
    ensures StatusCode in data && data[StatusCode].Num? && data[StatusCode].n != 0 ==> code == data[StatusCode].n
    ensures !(StatusCode in data && data[StatusCode].Num? && data[StatusCode].n != 0) ==> code == 200
  {
    if StatusCode in data && data[StatusCode].Num? && data[StatusCode].n != 0 then data[StatusCode].n else 200
  }

  /** A freshly added response node shows a green 200. */
  lemma NewResponseShowsSuccess(text: string)
    ensures ShownStatusCode(DefaultData(Response, text)) == 200
    ensures StatusColorOf(ShownStatusCode(DefaultData(Response, text))) == Green
  {
  }

  /** The canvas's transient interaction state. */
  class CanvasController {
    var draggedNode: Option<string>
    var dragOffset: Position
    var connectingFrom: Option<string>

    /** Nothing is being dragged. */
    predicate IsIdle()
      reads this
    {
      draggedNode == None && dragOffset == Position(0.0, 0.0)
    }

    constructor ()
      ensures IsIdle() && connectingFrom == None
    {
      draggedNode, dragOffset, connectingFrom := None, Position(0.0, 0.0), None;
    }

    /**
     * `handleMouseDown(e, node)`: start dragging `node` and select it on the
     * editor whose `setSelectedNode` is the canvas's `onNodeSelect`.
     */
    method MouseDown(node: FlowNode, pointer: Position, editor: FlowEditor)
      modifies this, editor
      ensures draggedNode == Some(node.id) && dragOffset == GrabOffset(pointer, node.position)
      ensures connectingFrom == old(connectingFrom)
      ensures editor.selectedNode == Some(node)
      ensures editor.nodes == old(editor.nodes) && editor.edges == old(editor.edges)
      ensures editor.currentDesignId == old(editor.currentDesignId) && editor.currentDesignName == old(editor.currentDesignName)
      ensures node in editor.nodes ==> editor.SelectionInSync()
    {
      dragOffset := GrabOffset(pointer, node.position);
      draggedNode := Some(node.id);
      editor.SelectNode(Some(node));
    }

    /** `handleMouseMove(e)`: the `onNodeMove` call it makes, if any. */
    method MouseMove(pointer: Position) returns (move: Option<NodeMove>)
      ensures move == MoveFor(draggedNode, dragOffset, pointer)
      ensures move.Some? ==> move.value.position.x >= 0.0 && move.value.position.y >= 0.0
    {
      move := None;
      if Truthy(draggedNode) {
        var x := Max0(pointer.x - dragOffset.x);
        var y := Max0(pointer.y - dragOffset.y);
        move := Some(NodeMove(draggedNode.value, Position(x, y)));
      }
    }

    /** `handleMouseUp()`: back to idle, whatever was going on. */
    method MouseUp()
      modifies this
      ensures IsIdle() && connectingFrom == old(connectingFrom)
    {
      draggedNode := None;
      dragOffset := Position(0.0, 0.0);
    }

    /**
     * `handleCanvasClick(e)` on the editor whose `setSelectedNode` is the
     * canvas's `onNodeSelect`: a click on the bare canvas clears the
     * selection, a click on anything drawn over it leaves it as it was.
     */
    method CanvasClick(onBackground: bool, editor: FlowEditor)
      modifies editor
      ensures onBackground ==> editor.selectedNode == None
      ensures !onBackground ==> editor.selectedNode == old(editor.selectedNode)
      ensures editor.nodes == old(editor.nodes) && editor.edges == old(editor.edges)
      ensures editor.currentDesignId == old(editor.currentDesignId) && editor.currentDesignName == old(editor.currentDesignName)
      ensures old(editor.SelectionInSync()) ==> editor.SelectionInSync()
    {
      if onBackground {
        editor.SelectNode(None);
      }
    }

    /** `handleNodeConnect(sourceId, targetId)`: report the connection unless it is a self-loop, then stop connecting. */
    method NodeConnect(source: string, target: string) returns (connect: Option<Connection>)
      modifies this
      ensures connect == ConnectionFor(source, target)
      ensures connectingFrom == None
      ensures draggedNode == old(draggedNode) && dragOffset == old(dragOffset)
    {
      connect := None;
      if source != target {
        connect := Some(Connection(source, target));
      }
      connectingFrom := None;
    }

    /** A click on the `side` handle of `node`; there is no handle where the kind has none. */
    method HandleClick(node: FlowNode, side: Side) returns (connect: Option<Connection>)
      requires side in Handles(node.kind)
      modifies this
      ensures (connectingFrom, connect) == HandleClickStep(old(connectingFrom), node.id)
      ensures draggedNode == old(draggedNode) && dragOffset == old(dragOffset)
    {
      if Truthy(connectingFrom) {
        connect := NodeConnect(connectingFrom.value, node.id);
      } else {
        connectingFrom := Some(node.id);
        connect := None;
      }
    }
  }
}
