/**
 * The properties panel of the selected node
 * (`client/src/components/NodePropertiesPanel.tsx`). Every edit is reported to
 * the editor as a partial update holding a single key; the panel's own state
 * is the pair of text fields where a new header is typed.
 */
module PropertiesPanel {
  import opened Wrappers
  import opened Strings
  import opened FlowModel

  /** An `onUpdateNode(nodeId, data)` call. */
  datatype NodeUpdate = NodeUpdate(nodeId: string, patch: NodeData)

  /** `{ [key]: value }`. */
  function SingleKeyPatch(key: Field, value: Value): (p: NodeData)
    ensures p.Keys == {key} && p[key] == value
  {
    map[key := value]
  }

  /** Merging a single-key patch changes that field and no other. */
  lemma SingleKeyEditChangesOneField(data: NodeData, key: Field, value: Value)
    ensures var r := Merge(data, SingleKeyPatch(key, value));
            && key in r && r[key] == value
            && (forall f :: f != key ==> (f in r <==> f in data))
            && (forall f :: f != key && f in data ==> r[f] == data[f])
  {
  }

  /** `node.data.headers || {}`: missing headers read as the empty map. */
  function CurrentHeaders(data: NodeData): (h: map<string, string>)
    ensures Headers in data && data[Headers].Dict? ==> h == data[Headers].entries
    ensures Headers !in data ==> h == map[]
  {
    if Headers in data && data[Headers].Dict? then data[Headers].entries else map[]
  }

  /** `{ ...headers, [key]: value }`: sets `key`, overwriting any earlier value, and keeps every other entry. */
  function WithHeader(headers: map<string, string>, key: string, value: string): (r: map<string, string>)
    ensures r.Keys == headers.Keys + {key} && r[key] == value
    ensures forall k :: k in headers && k != key ==> r[k] == headers[k]
  {
    headers[key := value]
  }

  /** A copy of `headers` with `key` deleted: every other entry is kept. */
  function WithoutHeader(headers: map<string, string>, key: string): (r: map<string, string>)
    ensures r.Keys == headers.Keys - {key}
    ensures forall k :: k in r ==> r[k] == headers[k]
    ensures key !in headers ==> r == headers
  {
    headers - {key}
  }

  /** Removing a header just added, under a key that was not there, restores the headers. */
  lemma RemoveUndoesAdd(headers: map<string, string>, key: string, value: string)
    requires key !in headers
    ensures WithoutHeader(WithHeader(headers, key, value), key) == headers
  {
  }

  /** Adding under an existing key replaces its value: the last add wins. */
  lemma LastAddWins(headers: map<string, string>, key: string, v1: string, v2: string)
    ensures WithHeader(WithHeader(headers, key, v1), key, v2) == WithHeader(headers, key, v2)
  {
  }

  /** The fields whose inputs the panel shows for each kind. */
  function EditableFields(kind: NodeKind): set<Field> {
    match kind
    case Start => {Description}
    case HttpRequest => {Method, Url, Headers, Body}
    case DatabaseQuery => {Table, QueryType, Query}
    case Response => {StatusCode, Body}
  }

  /** What an input shows when its field is absent or falsy (`node.data.method || 'GET'` and so on). */
  function Fallback(kind: NodeKind, field: Field): Value {
    match (kind, field)
    case (HttpRequest, Method) => Str("GET")
    case (HttpRequest, Headers) => Dict(map[])
    case (DatabaseQuery, QueryType) => Str("SELECT")
    case (Response, StatusCode) => Num(200)
    case (Response, Body) => Str("{}")
    case _ => Str("")
  }

  /** JavaScript truthiness of a field's value: the empty string and 0 are falsy, an object never is. */
  predicate TruthyValue(v: Value) {
    match v
    case Str(s) => s != ""
    case Num(n) => n != 0
    case Dict(_) => true
  }

  /** The value an input of the panel shows for `field`. */
  function ShownValue(kind: NodeKind, field: Field, data: NodeData): Value {
    if field in data && TruthyValue(data[field]) then data[field] else Fallback(kind, field)
  }

  /**
   * A new node is created with exactly the fields the panel edits for its
   * kind (plus the label), and the panel shows each of them as stored.
   */
  lemma DefaultsMatchPanel(kind: NodeKind, text: string)
    ensures DefaultData(kind, text).Keys == {Label} + EditableFields(kind)
    ensures forall f :: f in EditableFields(kind) ==> ShownValue(kind, f, DefaultData(kind, text)) == DefaultData(kind, text)[f]
  {
  }

  /** A response body stored as `''` is shown as `'{}'`: its text area can never be shown empty. */
  lemma ResponseBodyNeverShownEmpty(data: NodeData)
    ensures ShownValue(Response, Body, data) != Str("")
  {
  }

  /** `parseInt(e.target.value) || 200`: NaN and 0 both fall back to 200. */
  function StatusCodeInput(s: string): (code: int)
    ensures code != 0
    ensures ParseInt(s).None? ==> code == 200
    ensures ParseInt(s).Some? ==> code == (if ParseInt(s).value == 0 then 200 else ParseInt(s).value)
  {
    match ParseInt(s)
    case Some(n) => if n == 0 then 200 else n
    case None => 200
  }

  /** Typing a number's digits stores that number; typing 0 stores 200. */
  lemma StatusCodeInputOfDecimal(n: nat)
    ensures StatusCodeInput(DecimalString(n)) == if n == 0 then 200 else n
  {
    ParseIntOfDecimal(n);
  }

  /** Clearing the input stores 200. */
  lemma StatusCodeInputOfEmpty()
    ensures StatusCodeInput("") == 200
  {
  }

  /** The panel's header-entry fields. */
  class NodePropertiesPanel {
    var headerKey: string
    var headerValue: string

    constructor ()
      ensures headerKey == "" && headerValue == ""
    {
      headerKey, headerValue := "", "";
    }

    /** The key input's `onChange`. */
    method SetHeaderKey(key: string)
      modifies this
      ensures headerKey == key && headerValue == old(headerValue)
    {
      headerKey := key;
    }

    /** The value input's `onChange`. */
    method SetHeaderValue(value: string)
      modifies this
      ensures headerValue == value && headerKey == old(headerKey)
    {
      headerValue := value;
    }

    /** `updateData(key, value)` while `node` is shown: a single-key update of that node. */
    method UpdateData(node: FlowNode, key: Field, value: Value) returns (update: NodeUpdate)
      ensures update.nodeId == node.id
      ensures update.patch.Keys == {key} && update.patch[key] == value
    {
      update := NodeUpdate(node.id, SingleKeyPatch(key, value));
    }

    /**
     * `addHeader()`: only when both fields are non-empty, send the headers with
     * the typed entry set, then clear both fields.
     */
    method AddHeader(node: FlowNode) returns (update: Option<NodeUpdate>)
      modifies this
      ensures old(headerKey) != "" && old(headerValue) != "" ==>
        && update == Some(NodeUpdate(node.id, SingleKeyPatch(Headers, Dict(WithHeader(CurrentHeaders(node.data), old(headerKey), old(headerValue))))))
        && headerKey == "" && headerValue == ""
      ensures !(old(headerKey) != "" && old(headerValue) != "") ==>
        update == None && headerKey == old(headerKey) && headerValue == old(headerValue)
    {
      update := None;
      if headerKey != "" && headerValue != "" {
        var current := CurrentHeaders(node.data);
        var headers := Dict(WithHeader(current, headerKey, headerValue));
        var sent := UpdateData(node, Headers, headers);
        assert sent.patch == SingleKeyPatch(Headers, headers);
        update := Some(sent);
        headerKey := "";
        headerValue := "";
      }
    }

    /** `removeHeader(key)`: send a copy of the headers with `key` deleted. */
    method RemoveHeader(node: FlowNode, key: string) returns (update: NodeUpdate)
      ensures update.nodeId == node.id && update.patch.Keys == {Headers}
      ensures update.patch[Headers] == Dict(WithoutHeader(CurrentHeaders(node.data), key))
    {
      var headers := CurrentHeaders(node.data);
      headers := headers - {key};
      update := UpdateData(node, Headers, Dict(headers));
    }
  }
}
