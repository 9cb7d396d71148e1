/**
 * The graph data returned by the journey API, reduced to the fields the
 * editor's logic reads (src/types/api.ts), and the first-match lookups
 * (`Array.prototype.find`) every component uses on it.
 */
module ApiTypes {

  datatype Option<T> = None | Some(value: T)

  /** The part of a node's `data` bag the editor reads. */
  datatype NodeData = NodeData(id: string, componentId: string)

  datatype Node = Node(id: string, nodeType: string, data: NodeData)

  datatype Edge = Edge(source: string, target: string)

  /**
   * A field descriptor of a form schema: a JSON value. An object may carry a
   * `title` and a `type`; `null` and the scalars carry neither.
   */
  datatype PropertyValue =
    | Descriptor(title: Option<string>, fieldType: Option<string>)
    | Scalar
    | Null

  /** One entry of `field_schema.properties`, in the object's key order. */
  datatype Property = Property(key: string, value: PropertyValue)

  /** `field_schema`; `properties` may be absent. */
  datatype FieldSchema = FieldSchema(properties: Option<seq<Property>>)

  datatype Form = Form(id: string, name: string, fieldSchema: Option<FieldSchema>)

  datatype Graph = Graph(nodes: seq<Node>, edges: seq<Edge>, forms: seq<Form>)

  /** The ids of the nodes that exist in `g`. */
  function NodeIds(g: Graph): (ids: set<string>)
    ensures forall i :: 0 <= i < |g.nodes| ==> g.nodes[i].id in ids
    ensures forall id :: id in ids ==> exists i :: 0 <= i < |g.nodes| && g.nodes[i].id == id
  {
    set n | n in g.nodes :: n.id
  }

  /** `nodes.find(node => node.id === id)`: the first node with that id. */
  function FindNode(nodes: seq<Node>, id: string): (r: Option<Node>)
    ensures r.Some? ==> exists i :: 0 <= i < |nodes| && nodes[i] == r.value
                          && r.value.id == id
                          && forall j :: 0 <= j < i ==> nodes[j].id != id
    ensures r.None? <==> forall i :: 0 <= i < |nodes| ==> nodes[i].id != id
  {
    if |nodes| == 0 then None
    else if nodes[0].id == id then Some(nodes[0])
    else
      var r := FindNode(nodes[1..], id);
      assert r.Some? ==> exists i :: 0 <= i < |nodes[1..]| && nodes[1..][i] == r.value
                          && r.value.id == id
                          && forall j :: 0 <= j < i ==> nodes[1..][j].id != id;
      assert r.Some? ==> exists i :: 1 <= i < |nodes| && nodes[i] == r.value
                          && r.value.id == id
                          && forall j :: 0 <= j < i ==> nodes[j].id != id;
      r
  }

  /** `forms.find(form => form.id === id)`: the first form with that id. */
  function FindForm(forms: seq<Form>, id: string): (r: Option<Form>)
    ensures r.Some? ==> exists i :: 0 <= i < |forms| && forms[i] == r.value
                          && r.value.id == id
                          && forall j :: 0 <= j < i ==> forms[j].id != id
    ensures r.None? <==> forall i :: 0 <= i < |forms| ==> forms[i].id != id
  {
    if |forms| == 0 then None
    else if forms[0].id == id then Some(forms[0])
    else
      var r := FindForm(forms[1..], id);
      assert r.Some? ==> exists i :: 0 <= i < |forms[1..]| && forms[1..][i] == r.value
                          && r.value.id == id
                          && forall j :: 0 <= j < i ==> forms[1..][j].id != id;
      assert r.Some? ==> exists i :: 1 <= i < |forms| && forms[i] == r.value
                          && r.value.id == id
                          && forall j :: 0 <= j < i ==> forms[j].id != id;
      r
  }

  /** Existing nodes are exactly those `find` resolves. */
  lemma FindNodeExists(g: Graph, id: string)
    ensures FindNode(g.nodes, id).Some? <==> id in NodeIds(g)
  {
  }

  /** The first node with the id is what `find` returns. */
  lemma FindNodeFirst(nodes: seq<Node>, id: string, i: nat)
    requires i < |nodes| && nodes[i].id == id
    requires forall j :: 0 <= j < i ==> nodes[j].id != id
    ensures FindNode(nodes, id) == Some(nodes[i])
  {
    var r := FindNode(nodes, id);
    var k :| 0 <= k < |nodes| && nodes[k] == r.value && r.value.id == id
             && forall j :: 0 <= j < k ==> nodes[j].id != id;
    assert !(k < i) && !(i < k);
  }

  /** The first form with the id is what `find` returns. */
  lemma FindFormFirst(forms: seq<Form>, id: string, i: nat)
    requires i < |forms| && forms[i].id == id
    requires forall j :: 0 <= j < i ==> forms[j].id != id
    ensures FindForm(forms, id) == Some(forms[i])
  {
    var r := FindForm(forms, id);
    var k :| 0 <= k < |forms| && forms[k] == r.value && r.value.id == id
             && forall j :: 0 <= j < k ==> forms[j].id != id;
    assert !(k < i) && !(i < k);
  }
}
