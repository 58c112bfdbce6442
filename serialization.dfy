/**
 * The contract between the live graph and the `design_data` blob a saved
 * design carries (`client/src/App.tsx`, `saveDesign` and `loadDesign`). The
 * storage side treats the blob as untyped, so reading it back defaults every
 * missing part instead of trusting its shape.
 */
module Serialization {
  import opened Wrappers
  import opened Strings
  import opened FlowModel

  datatype Viewport = Viewport(x: real, y: real, zoom: real)

  /** The viewport every save writes: the editor does not track pan or zoom. */
  const FixedViewport := Viewport(0.0, 0.0, 1.0)

  /** The blob as storage hands it back: any of its parts may be missing. */
  datatype DesignDocument = DesignDocument(nodes: Option<seq<FlowNode>>, edges: Option<seq<FlowEdge>>, viewport: Option<Viewport>)

  /** `designData.nodes || []`. */
  function DecodeNodes(d: DesignDocument): (r: seq<FlowNode>)
    ensures d.nodes.None? ==> r == []
    ensures d.nodes.Some? ==> r == d.nodes.value
  {
    d.nodes.GetOr([])
  }

  /** `designData.edges || []`. */
  function DecodeEdges(d: DesignDocument): (r: seq<FlowEdge>)
    ensures d.edges.None? ==> r == []
    ensures d.edges.Some? ==> r == d.edges.value
  {
    d.edges.GetOr([])
  }

  /** The blob a save sends: the current nodes and edges, and the fixed viewport. */
  function Encode(nodes: seq<FlowNode>, edges: seq<FlowEdge>): (d: DesignDocument)
    ensures DecodeNodes(d) == nodes && DecodeEdges(d) == edges
    ensures d.viewport == Some(FixedViewport)
  {
    DesignDocument(Some(nodes), Some(edges), Some(FixedViewport))
  }

  /**
   * A complete blob with the fixed viewport, as every save writes, is exactly
   * what re-saving its decoded graph sends: loading and saving again loses
   * nothing.
   */
  lemma DecodeEncodeRoundTrip(d: DesignDocument)
    requires d.nodes.Some? && d.edges.Some? && d.viewport == Some(FixedViewport)
    ensures Encode(DecodeNodes(d), DecodeEdges(d)) == d
  {
  }

  /** The gateway call a save makes. */
  datatype SaveRequest =
    | CreateDesign(name: string, document: DesignDocument)
    | UpdateDesign(id: string, name: string, document: DesignDocument)

  /**
   * The request `saveDesign(name)` sends: none for a blank name, an update of
   * the open design when there is one, a create otherwise.
   */
  function SaveRequestFor(name: string, nodes: seq<FlowNode>, edges: seq<FlowEdge>, currentId: Option<string>): (r: Option<SaveRequest>)
    ensures r.None? <==> IsBlank(name)
    ensures r.Some? ==> r.value.name == name && r.value.document == Encode(nodes, edges)
    ensures r.Some? ==> (r.value.UpdateDesign? <==> Truthy(currentId))
    ensures r.Some? && r.value.UpdateDesign? ==> r.value.id == currentId.value
  {
    if Trim(name) == "" then None
    else if Truthy(currentId) then Some(UpdateDesign(currentId.value, name, Encode(nodes, edges)))
    else Some(CreateDesign(name, Encode(nodes, edges)))
  }

  /** A design record as `getApiDesign` returns it to the client. */
  datatype StoredDesign = StoredDesign(id: string, name: string, document: DesignDocument)
}
