# API Flow Designer — a Dafny model of the graph editor

The API Flow Designer lets a user sketch an API request pipeline as a graph.
It has four kinds of node:
- start
- HTTP request
- database query
- response

The user drags nodes on a canvas and joins them with directed edges. Each node's properties are edited in a side panel. A design is saved to a server, loaded back or deleted.

This project models the editor's core and proves properties about it:

- **Graph store** (`client/src/App.tsx`): the class `Editor.FlowEditor`.
  - It holds the nodes, the edges, the selected-node snapshot, and the id and name of the open design.
  - Its operations are add a node, merge data into a node, move a node, connect, disconnect, new design, and the state effect of save, load and delete once the server has answered.
  - They are methods whose new state is given by the pure functions of `FlowModel` (node and edge transforms) and `Serialization` (the saved `design_data` blob and the request a save sends).
- **Canvas** (`client/src/components/FlowCanvas.tsx`): the class `Canvas.CanvasController` holds the drag and connection state and has one method per mouse handler. Pure functions cover:
  - the drag geometry and its clamp to the non-negative quadrant
  - the two-click connection rule
  - which handles each kind shows
  - where an edge is drawn
  - the status-code colour
- **Properties panel** (`client/src/components/NodePropertiesPanel.tsx`): the class `PropertiesPanel.NodePropertiesPanel` holds the header key and value being typed.
  - Every edit is sent as a single-key partial update.
  - Header add and remove are map set and map delete.
  - A status code that does not parse to a non-zero integer is stored as 200.
- **Server partial update** (`server/src/handlers/update_api_design.ts`): the class `DesignStore.DesignTable` holds the `api_designs` table as a map from id to record.
  - `UpdateApiDesign` builds the update object column by column and updates the matching row, or returns `None` (the source's `null`) when no row matches.
  - The clock reading is a parameter.
- **Wiring** (`Session`): lemmas about how `App` connects the parts. The canvas only ever reports connections that are not self-loops. The canvas clamps every drag, so nodes stay at non-negative coordinates. A save of the open design followed by a load of the stored record gives back the saved graph.

JavaScript details the source relies on are written out:
- truthiness: the empty string is falsy in `if (connectingFrom)`, `if (draggedNode)` and `if (currentDesignId)`, and `0` is falsy in `statusCode || 200`
- `String.prototype.trim` with the ECMAScript white-space set
- decimal `parseInt` with leading white space and an optional sign
- `Array.prototype.find`, which returns the first match
- shallow object spread, as map union

Coordinates are `real`s: only `+`, `−`, halving and `max(0, ·)` are applied to them.

## Model

| member | source | states |
|---|---|---|
| Strings.TrimStart | client/src/App.tsx:130 | the result is a suffix of the input that starts with a non-white-space character, and only white space was removed |
| Strings.TrimEnd | client/src/App.tsx:130 | the result is a prefix of the input that ends with a non-white-space character, and only white space was removed |
| Strings.Trim | client/src/App.tsx:130 | `name.trim()` is empty exactly when the name is all white space; otherwise both ends are non-white-space |
| Strings.DecimalString | client/src/App.tsx:66 | the decimal rendering of `Date.now()` is non-empty, all digits, and has no leading zero |
| Strings.DecimalRoundTrip | client/src/App.tsx:66 | reading the decimal rendering back gives the number |
| Strings.DecimalStringInjective | client/src/App.tsx:66 | distinct timestamps render as distinct digit strings |
| Strings.DigitPrefix | client/src/components/NodePropertiesPanel.tsx:228 | the longest all-digit prefix that `parseInt` consumes |
| Strings.ParseInt | client/src/components/NodePropertiesPanel.tsx:228 | `parseInt` is NaN exactly when no digit follows the leading white space and the sign; a negative result needs a leading `-` (the value read is given by `ParseIntOfDigitsThen` and `ParseIntOfNegativeDigitsThen`) |
| Strings.DigitPrefixOfDigits | client/src/components/NodePropertiesPanel.tsx:228 | `parseInt` consumes the whole of an all-digit string |
| Strings.ParseIntOfDecimal | client/src/components/NodePropertiesPanel.tsx:228 | `parseInt` of a number's decimal digits gives that number back |
| Strings.ParseIntOfNegativeDecimal | client/src/components/NodePropertiesPanel.tsx:228 | `parseInt` of `-` followed by digits gives the negated number |
| Strings.DigitPrefixThen | client/src/components/NodePropertiesPanel.tsx:228 | the digit run `parseInt` reads ends at the first non-digit, whatever follows it |
| Strings.ParseIntNegativeBranch | client/src/components/NodePropertiesPanel.tsx:228 | after a leading `-`, the value is the negated value of the digit run |
| Strings.ParseIntOfDigitsThen | client/src/components/NodePropertiesPanel.tsx:228 | digits followed by a non-digit or by nothing parse to the value of the digits, leading zeros included |
| Strings.ParseIntOfNegativeDigitsThen | client/src/components/NodePropertiesPanel.tsx:228 | the same after a leading `-`, negated |
| Strings.ParseIntStopsAtExponent | client/src/components/NodePropertiesPanel.tsx:228 | `parseInt("1e3")` is 1 |
| Strings.ParseIntStopsAtDecimalPoint | client/src/components/NodePropertiesPanel.tsx:228 | `parseInt("2.5")` is 2 |
| Strings.ParseIntNegativeStopsAtDecimalPoint | client/src/components/NodePropertiesPanel.tsx:228 | `parseInt("-4.9")` is -4: the fraction is cut off towards zero |
| Strings.ParseIntReadsLeadingZeros | client/src/components/NodePropertiesPanel.tsx:228 | `parseInt("007")` is 7 |
| FlowModel.DefaultData | client/src/App.tsx:69-88 | a new node's data holds the label plus exactly its kind's default fields, with the default values: start `description: ''`; HTTP request `method: 'GET'`, `url: ''`, `headers: {}`, `body: ''`; database query `table: ''`, `queryType: 'SELECT'`, `query: ''`; response `statusCode: 200`, `body: '{}'` |
| FlowModel.NewNode | client/src/App.tsx:64-89 | a new node has id `<kind>-<time>`, lies in [100, 500) × [100, 400), and carries the default data |
| FlowModel.GeneratedIdInjective | client/src/App.tsx:66 | nodes created at different times, or of different kinds, get different ids |
| FlowModel.SameMillisecondIdsCollide | client/src/App.tsx:66 | two nodes of one kind created in the same millisecond get the same id |
| FlowModel.Merge | client/src/App.tsx:96 | `{ ...data, ...patch }`: keys are the union, the patch wins, and every other key keeps its value |
| FlowModel.MergeWellTyped | client/src/App.tsx:93-98 | merging a well-typed patch keeps node data well-typed |
| FlowModel.MergeIdempotent | client/src/App.tsx:93-98 | applying the same patch twice equals applying it once |
| FlowModel.UpdateNodeData | client/src/App.tsx:93-98 | every node with the id gets the merged data, and every other node is unchanged, in the same order |
| FlowModel.UpdateNodePosition | client/src/App.tsx:108-114 | every node with the id moves to the position as given, and every other node is unchanged |
| FlowModel.UpdateNodeDataUnknownId | client/src/App.tsx:93-98 | an update for an id not in the graph changes nothing |
| FlowModel.UpdateNodePositionUnknownId | client/src/App.tsx:108-114 | a move for an id not in the graph changes nothing |
| FlowModel.UpdatesKeepIds | client/src/App.tsx:93-114 | neither update changes the ids or their order |
| FlowModel.UpdateNodeDataWellTyped | client/src/App.tsx:93-98 | a well-typed patch keeps every node's data well-typed |
| FlowModel.HasEdgeId | client/src/App.tsx:118 | `edges.find(e => e.id === edgeId)` finds something exactly when some edge has that id |
| FlowModel.ConnectNodes | client/src/App.tsx:116-123 | afterwards an edge `source-target` exists; if one already did, nothing changes, otherwise exactly that edge is appended; distinct edge ids stay distinct |
| FlowModel.ConnectIdempotent | client/src/App.tsx:116-123 | connecting the same pair twice equals connecting it once |
| FlowModel.RemoveEdge | client/src/App.tsx:125-127 | exactly the edges with another id are kept, none with the id remains, and an absent id changes nothing |
| FlowModel.RemoveEdgeAppend | client/src/App.tsx:125-127 | the filter distributes over concatenation |
| FlowModel.RemoveUndoesConnect | client/src/App.tsx:116-127 | removing an edge just added by a connect restores the edges |
| FlowModel.RemoveEdgeKeepsDistinct | client/src/App.tsx:125-127 | removing keeps edge ids distinct |
| FlowModel.EdgeIdsCanCollide | client/src/App.tsx:117 | the pairs (`a-b`, `c`) and (`a`, `b-c`) share the edge id `a-b-c` |
| Serialization.DecodeNodes | client/src/App.tsx:174 | `designData.nodes \|\| []` |
| Serialization.DecodeEdges | client/src/App.tsx:175 | `designData.edges \|\| []` |
| Serialization.Encode | client/src/App.tsx:134-138 | the saved blob decodes to the same nodes and edges, and carries the fixed viewport (0, 0, zoom 1) |
| Serialization.DecodeEncodeRoundTrip | client/src/App.tsx:134-138 | a complete blob with the fixed viewport, as every save writes, is exactly what re-saving its loaded graph sends |
| Serialization.SaveRequestFor | client/src/App.tsx:129-157 | no request exactly for a blank name; otherwise the request carries the name as typed and the encoded graph, and it is an update of the open design exactly when there is a non-empty design id |
| Editor.OpenDesignAfterSave | client/src/App.tsx:140-165 | a returned record makes the saved name current, and after a create the record's id the open id; no request, a failure or a `null` result changes nothing |
| Editor.FlowEditor.constructor | client/src/App.tsx:43-49 | the editor starts blank |
| Editor.FlowEditor.AddNode | client/src/App.tsx:64-91 | appends the new node and touches nothing else; the selection stays in sync |
| Editor.FlowEditor.UpdateNodeData | client/src/App.tsx:93-106 | merges into the graph and into the selection when it has that id; the selection stays in sync |
| Editor.FlowEditor.UpdateNodePosition | client/src/App.tsx:108-114 | moves the node as given and leaves the selection as it was |
| Editor.FlowEditor.ConnectNodes | client/src/App.tsx:116-123 | the edges become `ConnectNodes` of the old edges; distinct edge ids stay distinct |
| Editor.FlowEditor.RemoveEdge | client/src/App.tsx:125-127 | the edges become `RemoveEdge` of the old edges; distinct edge ids stay distinct |
| Editor.FlowEditor.SelectNode | client/src/App.tsx:258 | sets the selection as given; a node of the graph, or none, keeps the selection in sync |
| Editor.FlowEditor.NewDesign | client/src/App.tsx:208-214 | the editor becomes blank |
| Editor.FlowEditor.SaveDesign | client/src/App.tsx:129-166 | sends `SaveRequestFor` of the current graph, applies `OpenDesignAfterSave` to the open design, and never touches the graph or the selection |
| Editor.FlowEditor.LoadDesign | client/src/App.tsx:168-185 | a found record replaces the graph with its decoded blob, opens it and clears the selection; otherwise nothing changes |
| Editor.FlowEditor.DeleteDesign | client/src/App.tsx:187-206 | a successful delete of the open design blanks the editor; anything else changes nothing |
| Canvas.Max0 | client/src/components/FlowCanvas.tsx:47 | `Math.max(0, v)` is non-negative, at least `v`, and either `v` or 0 |
| Canvas.Clamp | client/src/components/FlowCanvas.tsx:47 | each coordinate independently: a negative one becomes 0, a non-negative one is kept |
| Canvas.DragTarget | client/src/components/FlowCanvas.tsx:45-47 | the position a move reports is the pointer less the grab offset, clamped to be non-negative |
| Canvas.PressThenMoveInPlace | client/src/components/FlowCanvas.tsx:33-47 | a move to the press point reports the node's own (clamped) position, so the node does not jump |
| Canvas.DragFollowsPointer | client/src/components/FlowCanvas.tsx:33-47 | moving the pointer by (dx, dy) after the press reports the node's position shifted by (dx, dy), clamped |
| Canvas.MoveFor | client/src/components/FlowCanvas.tsx:41-50 | a move is reported exactly while a non-empty node id is being dragged, for that id, at the clamped target |
| Canvas.ConnectionFor | client/src/components/FlowCanvas.tsx:63-68 | a connection is reported exactly when source and target differ |
| Canvas.HandleClickStep | client/src/components/FlowCanvas.tsx:255-261 | with a pending source, the click completes the connection and clears the pending source; otherwise it starts one from this node |
| Canvas.TwoClicksConnect | client/src/components/FlowCanvas.tsx:255-261 | clicking two different nodes' handles connects them first-to-second and leaves nothing pending |
| Canvas.EmptyIdNeverStartsConnection | client/src/components/FlowCanvas.tsx:255-261 | a node with the empty id leaves nothing pending, because `''` is falsy |
| Canvas.Handles | client/src/components/FlowCanvas.tsx:252-278 | the right handle is shown on every kind but response, the left on every kind but start |
| Canvas.HandleCounts | client/src/components/FlowCanvas.tsx:252-278 | every kind has a handle; exactly HTTP request and database query nodes have two |
| Canvas.StartCanBecomeTarget | client/src/components/FlowCanvas.tsx:252-278 | both handles act alike, so a response's left handle followed by a start's right handle connects response to start |
| Canvas.FindNode | client/src/components/FlowCanvas.tsx:136-137 | finds a node exactly when one has the id, and it is the first such node |
| Canvas.EdgeLayout | client/src/components/FlowCanvas.tsx:135-159 | an edge is drawn exactly when both endpoints exist, from the source's right anchor to the target's left anchor, with the removal marker at the midpoint |
| Canvas.StatusColorOf | client/src/components/FlowCanvas.tsx:111-117 | green exactly for 2xx, yellow for 3xx, orange for 4xx, red from 500 up, grey below 200 |
| Canvas.ShownStatusCode | client/src/components/FlowCanvas.tsx:243-244 | the badge shows the stored code, and 200 when it is absent or 0; never 0 |
| Canvas.NewResponseShowsSuccess | client/src/components/FlowCanvas.tsx:243 | a freshly added response node shows 200 in green |
| Canvas.CanvasController.constructor | client/src/components/FlowCanvas.tsx:24-26 | nothing is dragged or pending |
| Canvas.CanvasController.MouseDown | client/src/components/FlowCanvas.tsx:29-39 | starts dragging the node with the grab offset and makes it the editor's selection; the graph and the open design are untouched, and the selection is in sync when the node is in the graph |
| Canvas.CanvasController.MouseMove | client/src/components/FlowCanvas.tsx:41-50 | reports `MoveFor` of the drag state and pointer, always at non-negative coordinates |
| Canvas.CanvasController.MouseUp | client/src/components/FlowCanvas.tsx:52-55 | ends any drag and keeps a pending connection |
| Canvas.CanvasController.CanvasClick | client/src/components/FlowCanvas.tsx:57-61 | a background click clears the editor's selection, any other click leaves it as it was; the graph and the open design are untouched and the selection stays in sync |
| Canvas.CanvasController.NodeConnect | client/src/components/FlowCanvas.tsx:63-68 | reports `ConnectionFor` and always clears the pending source |
| Canvas.CanvasController.HandleClick | client/src/components/FlowCanvas.tsx:252-278 | a click on a shown handle steps the connection state by `HandleClickStep` |
| PropertiesPanel.SingleKeyPatch | client/src/components/NodePropertiesPanel.tsx:22 | `{ [key]: value }` holds exactly that key |
| PropertiesPanel.SingleKeyEditChangesOneField | client/src/components/NodePropertiesPanel.tsx:21-23 | merged by the store, a panel edit sets its field and leaves every other field as it was |
| PropertiesPanel.CurrentHeaders | client/src/components/NodePropertiesPanel.tsx:27 | `node.data.headers \|\| {}` |
| PropertiesPanel.WithHeader | client/src/components/NodePropertiesPanel.tsx:28 | the headers gain or overwrite the typed key, and every other entry is kept |
| PropertiesPanel.WithoutHeader | client/src/components/NodePropertiesPanel.tsx:35-37 | the key is gone, every other entry is kept, and an absent key changes nothing |
| PropertiesPanel.RemoveUndoesAdd | client/src/components/NodePropertiesPanel.tsx:25-39 | removing a header just added under a new key restores the headers |
| PropertiesPanel.LastAddWins | client/src/components/NodePropertiesPanel.tsx:25-32 | adding under an existing key replaces its value |
| PropertiesPanel.DefaultsMatchPanel | client/src/components/NodePropertiesPanel.tsx:75-245 | a new node holds exactly the label plus the fields the panel edits for its kind, and the panel shows each as stored |
| PropertiesPanel.ResponseBodyNeverShownEmpty | client/src/components/NodePropertiesPanel.tsx:238 | a response body stored as `''` is shown as `{}` |
| PropertiesPanel.StatusCodeInput | client/src/components/NodePropertiesPanel.tsx:228 | stores the parsed integer, and 200 when it is NaN or 0; never 0 |
| PropertiesPanel.StatusCodeInputOfDecimal | client/src/components/NodePropertiesPanel.tsx:228 | typing a number's digits stores that number; typing 0 stores 200 |
| PropertiesPanel.StatusCodeInputOfEmpty | client/src/components/NodePropertiesPanel.tsx:228 | clearing the input stores 200 |
| PropertiesPanel.NodePropertiesPanel.constructor | client/src/components/NodePropertiesPanel.tsx:18-19 | both header fields start empty |
| PropertiesPanel.NodePropertiesPanel.SetHeaderKey | client/src/components/NodePropertiesPanel.tsx:143 | sets the key field only |
| PropertiesPanel.NodePropertiesPanel.SetHeaderValue | client/src/components/NodePropertiesPanel.tsx:148 | sets the value field only |
| PropertiesPanel.NodePropertiesPanel.UpdateData | client/src/components/NodePropertiesPanel.tsx:21-23 | sends a single-key update of the shown node |
| PropertiesPanel.NodePropertiesPanel.AddHeader | client/src/components/NodePropertiesPanel.tsx:25-32 | with both fields non-empty, sends the headers with the typed entry set and clears both fields; otherwise sends nothing and changes nothing |
| PropertiesPanel.NodePropertiesPanel.RemoveHeader | client/src/components/NodePropertiesPanel.tsx:34-39 | sends the headers with the key deleted |
| DesignStore.ApplySet | server/src/handlers/update_api_design.ts:23-26 | a `SET` changes the assigned columns, keeps the others, and always writes the timestamp |
| DesignStore.UpdatedRecord | server/src/handlers/update_api_design.ts:10-20 | supplied columns take their new value, omitted ones keep theirs, id and `created_at` are kept, `updated_at` is the current time |
| DesignStore.NameOnlyKeepsData | server/src/handlers/update_api_design.ts:14-20 | a name-only update keeps the design data |
| DesignStore.DataOnlyKeepsName | server/src/handlers/update_api_design.ts:14-20 | a data-only update keeps the name |
| DesignStore.UpdatedAtAdvances | server/src/handlers/update_api_design.ts:10-12 | with a clock that has moved on, `updated_at` strictly increases whatever was supplied |
| DesignStore.UpdateIdempotent | server/src/handlers/update_api_design.ts:10-26 | repeating an update at the same time changes nothing further |
| DesignStore.SeparateUpdatesCompose | server/src/handlers/update_api_design.ts:10-26 | a name-only update followed by a data-only update equals one update with both |
| DesignStore.DesignTable.constructor | server/src/db/schema.ts:4-10 | the table starts empty and keyed by id |
| DesignStore.DesignTable.UpdateApiDesign | server/src/handlers/update_api_design.ts:7-43 | a missing id returns `None` and leaves the table unchanged; otherwise the matching row becomes `UpdatedRecord` and is returned; every other row is untouched, and rows stay keyed by id |
| Session.CanvasConnectionsKeepNoSelfLoops | client/src/components/FlowCanvas.tsx:63-68 | edges made through the canvas never join a node to itself |
| Session.HandleClicksKeepNoSelfLoops | client/src/components/FlowCanvas.tsx:252-278 | whatever is pending, a handle click never adds a self-loop |
| Session.StoreAcceptsSelfLoop | client/src/App.tsx:116-123 | the store itself does accept a self-loop |
| Session.DragKeepsNonNegative | client/src/components/FlowCanvas.tsx:41-50 | drags keep every node at non-negative coordinates |
| Session.AddedNodeNonNegative | client/src/App.tsx:68 | added nodes start at non-negative coordinates |
| Session.SaveThenLoadRestoresGraph | client/src/App.tsx:129-185 | saving the open design and loading its record back restores the saved nodes and edges, the name and the id |

## Left out

- I/O and timing: the gateway calls, `async` ordering, the `isLoading` flag and `console.error` are not modelled. A gateway reply is a parameter of the method that consumes it.
- The `loadDesigns` refresh of the saved-design list after a save or delete is not modelled. The list is display state only.
- The creation, listing, fetching and deletion handlers on the server are not modelled. Each is one ORM call whose id generation, default timestamps and ordering happen in Postgres. Database failures that the update handler rethrows are not modelled either.
- The update handler's validation layer (uuid ids, non-empty names) is not modelled. The handler itself accepts any input.
- `DesignStore.DesignRecord.designData` has the client's blob type. The server stores it as untyped JSON.
- Canvas coordinates are given relative to the canvas. The branch where the canvas element is not mounted (`rect` undefined, so the handler does nothing) is not modelled.
- Event targets are not modelled: whether a click hit the bare canvas (`e.target === canvasRef.current`) is a boolean parameter of `CanvasClick`.
- Event bubbling is not modelled. A press on a handle also starts a drag of its node. Whether the SVG layer lets clicks reach the edge-removal marker depends on CSS.
- `Strings.ParseInt` reads decimal digits only. The `0x` prefix is not modelled, because the status-code input is a number input.
- Numbers are exact. Floating-point rounding of coordinates and integers beyond 2^53 are not modelled.
- Icons, colour classes other than the status colour, and titles are not modelled. They are presentation.
- `connectNodes` checks for an existing edge against the `edges` its closure captured, then appends to the latest state. The model has a single state, so two connects in one render are not modelled.
- `updateNodeData` tests the captured `selectedNode` in the same way.
- The model follows the code in these places:
  - The clamp to non-negative coordinates happens in the canvas before `updateNodePosition`. The store moves a node to any position it is given.
  - Both handles of a node behave alike: either can start or complete a connection. So a start node can become a target and a response node a source (`Canvas.StartCanBecomeTarget`).
  - The store's `connectNodes` accepts a self-loop (`Session.StoreAcceptsSelfLoop`). Only the canvas refuses one.
  - Node ids `<kind>-<Date.now()>` are not unique: two nodes of one kind added in the same millisecond collide (`FlowModel.SameMillisecondIdsCollide`).
  - Edge ids `<source>-<target>` can collide when node ids contain `-` (`FlowModel.EdgeIdsCanCollide`). A connect can then be skipped for a different pair.
