/**
 * The editor's state cells (`client/src/App.tsx`, `App`): the nodes, the
 * edges, the snapshot of the selected node, and the id and name of the open
 * design. Each operation overwrites some of them with a value the functions
 * of `FlowModel` and `Serialization` compute. Saving, loading and deleting
 * are modelled by their effect once the gateway's reply has arrived; the
 * reply is a parameter.
 */
module Editor {
  import opened Wrappers
  import opened FlowModel
  import opened Serialization

  /** What a save's gateway call produced: a thrown failure, or the returned record's id (`null` as `None`). */
  datatype SaveReply = SaveThrew | SaveReturned(recordId: Option<string>)

  /** What a delete's gateway call produced: a thrown failure, or its `success` flag. */
  datatype DeleteReply = DeleteThrew | DeleteReturned(success: bool)

  /** `snapshot` shows the id, kind and data of `node` (a drag does not refresh a snapshot's position). */
  predicate Mirrors(node: FlowNode, snapshot: FlowNode) {
    node.id == snapshot.id && node.kind == snapshot.kind && node.data == snapshot.data
  }

  /**
   * The open design's id and name once a save's reply has arrived. A returned
   * record makes the saved name current and, after a create, the record's id
   * the open design's id; no request, a failure, or a `null` result changes
   * nothing.
   */
  function OpenDesignAfterSave(request: Option<SaveRequest>, reply: SaveReply, id: Option<string>, name: string): (r: (Option<string>, string))
    ensures request.None? || reply.SaveThrew? || reply.recordId.None? ==> r == (id, name)
    ensures request.Some? && request.value.UpdateDesign? && reply.SaveReturned? && reply.recordId.Some? ==>
      r == (id, request.value.name)
    ensures request.Some? && request.value.CreateDesign? && reply.SaveReturned? && reply.recordId.Some? ==>
      r == (reply.recordId, request.value.name)
  {
    match (request, reply)
    case (Some(CreateDesign(saved, _)), SaveReturned(Some(recordId))) => (Some(recordId), saved)
    case (Some(UpdateDesign(_, saved, _)), SaveReturned(Some(_))) => (id, saved)
    case _ => (id, name)
  }

  class FlowEditor {
    var nodes: seq<FlowNode>
    var edges: seq<FlowEdge>
    var selectedNode: Option<FlowNode>
    var currentDesignId: Option<string>
    var currentDesignName: string

    /** The properties panel edits what the graph holds: the selection mirrors some node of the graph. */
    ghost predicate SelectionInSync()
      reads this
    {
      selectedNode.Some? ==> exists i :: 0 <= i < |nodes| && Mirrors(nodes[i], selectedNode.value)
    }

    /** The graph is empty and no design is open. */
    ghost predicate IsBlankDesign()
      reads this
    {
      nodes == [] && edges == [] && selectedNode == None && currentDesignId == None && currentDesignName == ""
    }

    constructor ()
      ensures IsBlankDesign() && SelectionInSync()
    {
      nodes, edges, selectedNode := [], [], None;
      currentDesignId, currentDesignName := None, "";
    }

    /** `addNode(type, label)`, with the clock reading and the random draws as inputs. */
    method AddNode(kind: NodeKind, text: string, now: nat, rx: real, ry: real)
      requires 0.0 <= rx < 1.0 && 0.0 <= ry < 1.0
      modifies this
      ensures nodes == old(nodes) + [NewNode(kind, text, now, rx, ry)]
      ensures edges == old(edges) && selectedNode == old(selectedNode)
      ensures currentDesignId == old(currentDesignId) && currentDesignName == old(currentDesignName)
      ensures old(SelectionInSync()) ==> SelectionInSync()
    {
      ghost var w := if selectedNode.Some? && SelectionInSync() then Witness() else 0;
      nodes := nodes + [NewNode(kind, text, now, rx, ry)];
      if old(SelectionInSync()) && selectedNode.Some? {
        assert Mirrors(nodes[w], selectedNode.value);
      }
    }

    /** An index of a node the selection mirrors. */
    ghost function Witness(): (i: nat)
      reads this
      requires selectedNode.Some? && SelectionInSync()
      ensures i < |nodes| && Mirrors(nodes[i], selectedNode.value)
    {
      var i :| 0 <= i < |nodes| && Mirrors(nodes[i], selectedNode.value); i
    }

    /** `updateNodeData(nodeId, newData)`: merge into every node with the id, and into the selection if it has that id. */
    method UpdateNodeData(id: string, patch: NodeData)
      modifies this
      ensures nodes == FlowModel.UpdateNodeData(old(nodes), id, patch)
      ensures selectedNode == if old(selectedNode).Some? && old(selectedNode).value.id == id
        then Some(old(selectedNode).value.(data := Merge(old(selectedNode).value.data, patch)))
        else old(selectedNode)
      ensures edges == old(edges)
      ensures currentDesignId == old(currentDesignId) && currentDesignName == old(currentDesignName)
      ensures old(SelectionInSync()) ==> SelectionInSync()
    {
      ghost var w := if selectedNode.Some? && SelectionInSync() then Witness() else 0;
      nodes := FlowModel.UpdateNodeData(nodes, id, patch);
      if selectedNode.Some? && selectedNode.value.id == id {
        var prev := selectedNode.value;
        selectedNode := Some(prev.(data := Merge(prev.data, patch)));
      }
      if old(SelectionInSync()) && selectedNode.Some? {
        assert Mirrors(nodes[w], selectedNode.value);
      }
    }

    /** `updateNodePosition(nodeId, position)`: the store itself does not clamp. */
    method UpdateNodePosition(id: string, pos: Position)
      modifies this
      ensures nodes == FlowModel.UpdateNodePosition(old(nodes), id, pos)
      ensures edges == old(edges) && selectedNode == old(selectedNode)
      ensures currentDesignId == old(currentDesignId) && currentDesignName == old(currentDesignName)
      ensures old(SelectionInSync()) ==> SelectionInSync()
    {
      ghost var w := if selectedNode.Some? && SelectionInSync() then Witness() else 0;
      nodes := FlowModel.UpdateNodePosition(nodes, id, pos);
      if old(SelectionInSync()) && selectedNode.Some? {
        assert Mirrors(nodes[w], selectedNode.value);
      }
    }

    /** `connectNodes(sourceId, targetId)`. */
    method ConnectNodes(source: string, target: string)
      modifies this
      ensures edges == FlowModel.ConnectNodes(old(edges), source, target)
      ensures nodes == old(nodes) && selectedNode == old(selectedNode)
      ensures currentDesignId == old(currentDesignId) && currentDesignName == old(currentDesignName)
      ensures DistinctEdgeIds(old(edges)) ==> DistinctEdgeIds(edges)
    {
      edges := FlowModel.ConnectNodes(edges, source, target);
    }

    /** `removeEdge(edgeId)`. */
    method RemoveEdge(id: string)
      modifies this
      ensures edges == FlowModel.RemoveEdge(old(edges), id)
      ensures nodes == old(nodes) && selectedNode == old(selectedNode)
      ensures currentDesignId == old(currentDesignId) && currentDesignName == old(currentDesignName)
      ensures DistinctEdgeIds(old(edges)) ==> DistinctEdgeIds(edges)
    {
      if DistinctEdgeIds(edges) {
        RemoveEdgeKeepsDistinct(edges, id);
      }
      edges := FlowModel.RemoveEdge(edges, id);
    }

    /** `setSelectedNode`, which the canvas calls as `onNodeSelect`; it does not check membership. */
    method SelectNode(node: Option<FlowNode>)
      modifies this
      ensures selectedNode == node
      ensures nodes == old(nodes) && edges == old(edges)
      ensures currentDesignId == old(currentDesignId) && currentDesignName == old(currentDesignName)
      ensures (node.None? || node.value in nodes) ==> SelectionInSync()
    {
      selectedNode := node;
      if node.Some? && node.value in nodes {
        var i :| 0 <= i < |nodes| && nodes[i] == node.value;
        assert Mirrors(nodes[i], node.value);
      }
    }

    /** `newDesign()`. */
    method NewDesign()
      modifies this
      ensures IsBlankDesign() && SelectionInSync()
    {
      nodes := [];
      edges := [];
      selectedNode := None;
      currentDesignId := None;
      currentDesignName := "";
    }

    /**
     * `saveDesign(name)`: the request sent (none for a blank name) and the
     * effect of the gateway's reply on the open design's id and name. The
     * graph and the selection are never touched.
     */
    method SaveDesign(name: string, reply: SaveReply) returns (request: Option<SaveRequest>)
      modifies this
      ensures request == SaveRequestFor(name, old(nodes), old(edges), old(currentDesignId))
      ensures (currentDesignId, currentDesignName) == OpenDesignAfterSave(request, reply, old(currentDesignId), old(currentDesignName))
      ensures nodes == old(nodes) && edges == old(edges) && selectedNode == old(selectedNode)
      ensures old(SelectionInSync()) ==> SelectionInSync()
    {
      request := SaveRequestFor(name, nodes, edges, currentDesignId);
      var after := OpenDesignAfterSave(request, reply, currentDesignId, currentDesignName);
      currentDesignId, currentDesignName := after.0, after.1;
    }

    /**
     * `loadDesign(designId)` once `getApiDesign` has answered: a found record
     * replaces the graph with its decoded blob, opens it and clears the
     * selection; not found or a failure changes nothing.
     */
    method LoadDesign(reply: Option<StoredDesign>)
      modifies this
      ensures reply.None? ==>
        && nodes == old(nodes) && edges == old(edges) && selectedNode == old(selectedNode)
        && currentDesignId == old(currentDesignId) && currentDesignName == old(currentDesignName)
      ensures reply.Some? ==>
        && nodes == DecodeNodes(reply.value.document) && edges == DecodeEdges(reply.value.document)
        && selectedNode == None
        && currentDesignId == Some(reply.value.id) && currentDesignName == reply.value.name
      ensures old(SelectionInSync()) ==> SelectionInSync()
    {
      if reply.Some? {
        var record := reply.value;
        nodes := DecodeNodes(record.document);
        edges := DecodeEdges(record.document);
        currentDesignId := Some(record.id);
        currentDesignName := record.name;
        selectedNode := None;
      }
    }

    /**
     * `deleteDesign(designId)` once the gateway has answered: a successful
     * delete of the open design resets the editor; anything else changes nothing.
     */
    method DeleteDesign(designId: string, reply: DeleteReply)
      modifies this
      ensures reply == DeleteReturned(true) && old(currentDesignId) == Some(designId) ==> IsBlankDesign()
      ensures !(reply == DeleteReturned(true) && old(currentDesignId) == Some(designId)) ==>
        && nodes == old(nodes) && edges == old(edges) && selectedNode == old(selectedNode)
        && currentDesignId == old(currentDesignId) && currentDesignName == old(currentDesignName)
      ensures old(SelectionInSync()) ==> SelectionInSync()
    {
      if reply.DeleteReturned? && reply.success && currentDesignId == Some(designId) {
        currentDesignId := None;
        currentDesignName := "";
        nodes := [];
        edges := [];
        selectedNode := None;
      }
    }
  }
}
