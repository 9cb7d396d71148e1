/**
 * The journey view (src/components/JourneyGraph.tsx): converting the loaded
 * graph into the nodes and edges the canvas draws, the node click that opens
 * the prefill editor, and the per-node store of saved prefill values.
 */
module JourneyGraph {
  import opened ApiTypes
  import opened JsStrings
  import opened PrefillEditor

  /** A node as the canvas holds it: the API node plus the form its component id names. */
  datatype FlowNode = FlowNode(id: string, nodeType: string, data: NodeData, formData: Option<Form>)

  /** An edge as the canvas holds it. */
  datatype FlowEdge = FlowEdge(id: string, source: string, target: string, animated: bool)

  // ---------------------------------------------------------------------
  // formsMap

  /** The `forEach` that fills `formsMap`: each form is stored under its id, so a later form with the same id replaces an earlier one. */
  function FormsMapOf(forms: seq<Form>): (m: map<string, Form>)
    ensures forall id :: id in m <==> exists i :: 0 <= i < |forms| && forms[i].id == id
  {
    if |forms| == 0 then map[]
    else
      var init := forms[..|forms| - 1];
      var last := forms[|forms| - 1];
      assert forall i :: 0 <= i < |init| ==> init[i] == forms[i];
      FormsMapOf(init)[last.id := last]
  }

  /** The form stored under an id is the last form with that id. */
  lemma {:induction false} FormsMapLast(forms: seq<Form>, i: nat)
    requires i < |forms|
    requires forall j :: i < j < |forms| ==> forms[j].id != forms[i].id
    ensures forms[i].id in FormsMapOf(forms) && FormsMapOf(forms)[forms[i].id] == forms[i]
    decreases |forms|
  {
    if i < |forms| - 1 {
      var init := forms[..|forms| - 1];
      assert init[i] == forms[i];
      FormsMapLast(init, i);
    }
  }

  /** No two forms share an id. */
  ghost predicate UniqueFormIds(forms: seq<Form>)
  {
    forall a, b :: 0 <= a < b < |forms| ==> forms[a].id != forms[b].id
  }

  /** With unique form ids, `formsMap` and the first-match `find` agree. */
  lemma FormsMapAgreesWithFind(forms: seq<Form>, id: string)
    requires UniqueFormIds(forms)
    ensures id in FormsMapOf(forms) <==> FindForm(forms, id).Some?
    ensures id in FormsMapOf(forms) ==> FindForm(forms, id) == Some(FormsMapOf(forms)[id])
  {
    if FindForm(forms, id).Some? {
      var i :| 0 <= i < |forms| && forms[i] == FindForm(forms, id).value && forms[i].id == id
               && forall j :: 0 <= j < i ==> forms[j].id != id;
      FormsMapLast(forms, i);
    }
  }

  /** With two forms under one id, `formsMap` keeps the second while `find` returns the first. */
  lemma DuplicateFormIdsDiverge()
    ensures var first, second := Form("f", "First", None), Form("f", "Second", None);
            FormsMapOf([first, second])["f"] == second && FindForm([first, second], "f") == Some(first)
  {
    var first, second := Form("f", "First", None), Form("f", "Second", None);
    FormsMapLast([first, second], 1);
  }

  /** `formsMap` built in place, as the source does. */
  method BuildFormsMap(forms: seq<Form>) returns (formsMap: map<string, Form>)
    ensures formsMap == FormsMapOf(forms)
  {
    formsMap := map[];
    var i := 0;
    while i < |forms|
      invariant i <= |forms|
      invariant formsMap == FormsMapOf(forms[..i])
    {
      formsMap := formsMap[forms[i].id := forms[i]];
      assert forms[..i + 1][..i] == forms[..i];
      i := i + 1;
    }
    assert forms[..i] == forms;
  }

  // ---------------------------------------------------------------------
  // Node and edge conversion

  /** `formsMap[component_id] || null`: a stored form is an object, hence truthy. */
  function NodeForm(formsMap: map<string, Form>, node: Node): (f: Option<Form>)
    ensures f.None? <==> node.data.componentId !in formsMap
    ensures f.Some? ==> f.value in formsMap.Values && f.value == formsMap[node.data.componentId]
  {
    if node.data.componentId in formsMap then Some(formsMap[node.data.componentId]) else None
  }

  /** The `map` over the API nodes. */
  function ConvertNodes(nodes: seq<Node>, formsMap: map<string, Form>): (r: seq<FlowNode>)
    ensures |r| == |nodes|
    ensures forall i :: 0 <= i < |nodes| ==>
              r[i].id == nodes[i].id && r[i].nodeType == nodes[i].nodeType && r[i].data == nodes[i].data
              && r[i].formData == NodeForm(formsMap, nodes[i])
  {
    seq(|nodes|, i requires 0 <= i < |nodes| => FlowNode(nodes[i].id, nodes[i].nodeType, nodes[i].data, NodeForm(formsMap, nodes[i])))
  }

  /**
   * With unique form ids, the form attached to a converted node is the form
   * a click on that node selects.
   */
  lemma NodeFormMatchesClick(g: Graph, i: nat)
    requires UniqueFormIds(g.forms) && i < |g.nodes|
    ensures ConvertNodes(g.nodes, FormsMapOf(g.forms))[i].formData == FindForm(g.forms, g.nodes[i].data.componentId)
  {
    FormsMapAgreesWithFind(g.forms, g.nodes[i].data.componentId);
  }

  /** The edge id of the `index`-th edge, `` `e${index}` ``. */
  function EdgeId(index: nat): (id: string)
    ensures |id| >= 2 && id[0] == 'e'
    ensures forall i :: 1 <= i < |id| ==> '0' <= id[i] <= '9'
    ensures DecimalValue(id[1..]) == index
  {
    DecimalRoundTrip(index);
    "e" + DecimalString(index)
  }

  /** The `map` over the API edges. */
  function ConvertEdges(edges: seq<Edge>): (r: seq<FlowEdge>)
    ensures |r| == |edges|
    ensures forall i :: 0 <= i < |edges| ==>
              r[i].id == EdgeId(i) && r[i].source == edges[i].source && r[i].target == edges[i].target && !r[i].animated
  {
    seq(|edges|, i requires 0 <= i < |edges| => FlowEdge(EdgeId(i), edges[i].source, edges[i].target, false))
  }

  /** Different edges get different ids. */
  lemma EdgeIdsDistinct(edges: seq<Edge>)
    ensures forall a, b :: 0 <= a < b < |edges| ==> ConvertEdges(edges)[a].id != ConvertEdges(edges)[b].id
  {
    var r := ConvertEdges(edges);
    forall a, b | 0 <= a < b < |edges|
      ensures r[a].id != r[b].id
    {
      assert DecimalValue(r[a].id[1..]) == a && DecimalValue(r[b].id[1..]) == b;
    }
  }

  /** The API edge a canvas edge stands for. */
  function ApiEdge(e: FlowEdge): Edge
  {
    Edge(e.source, e.target)
  }

  /** Conversion loses nothing of the edges: mapping back gives the API edges, in order. */
  lemma EdgesRoundTrip(edges: seq<Edge>)
    ensures seq(|edges|, i requires 0 <= i < |edges| => ApiEdge(ConvertEdges(edges)[i])) == edges
  {
  }

  // ---------------------------------------------------------------------
  // The view's state

  datatype ViewState = ViewState(
    graphData: Option<Graph>,
    nodes: seq<FlowNode>,
    edges: seq<FlowEdge>,
    selectedForm: Option<Form>,
    selectedNode: Option<FlowNode>,
    prefillModalOpen: bool,
    prefillValues: map<string, map<string, string>>)

  class Journey {
    var graphData: Option<Graph>
    var nodes: seq<FlowNode>
    var edges: seq<FlowEdge>
    var selectedForm: Option<Form>
    var selectedNode: Option<FlowNode>
    var prefillModalOpen: bool
    var prefillValues: map<string, map<string, string>>

    function State(): ViewState
      reads this
    {
      ViewState(graphData, nodes, edges, selectedForm, selectedNode, prefillModalOpen, prefillValues)
    }

    constructor ()
      ensures State() == ViewState(None, [], [], None, None, false, map[])
    {
      graphData := None;
      nodes := [];
      edges := [];
      selectedForm := None;
      selectedNode := None;
      prefillModalOpen := false;
      prefillValues := map[];
    }

    /** What `loadGraphData` does with the graph once it has been fetched. */
    method LoadGraphData(data: Graph)
      modifies this
      ensures State() == old(State()).(graphData := Some(data),
                                       nodes := ConvertNodes(data.nodes, FormsMapOf(data.forms)),
                                       edges := ConvertEdges(data.edges))
    {
      graphData := Some(data);
      var formsMap := BuildFormsMap(data.forms);
      nodes := ConvertNodes(data.nodes, formsMap);
      edges := ConvertEdges(data.edges);
    }

    /**
     * `onNodeClick`: the node is always recorded; only with a graph loaded
     * is its form looked up (first match on the component id) and the
     * editor opened.
     */
    method OnNodeClick(node: FlowNode)
      modifies this
      ensures old(graphData).None? ==> State() == old(State()).(selectedNode := Some(node))
      ensures old(graphData).Some? ==>
                State() == old(State()).(selectedNode := Some(node),
                                         selectedForm := FindForm(old(graphData).value.forms, node.data.componentId),
                                         prefillModalOpen := true)
    ensures old(graphData).Some? ==>
              (EditorVisible() <==> FindForm(old(graphData).value.forms, node.data.componentId).Some?)
    ensures old(graphData).Some? && UniqueFormIds(old(graphData).value.forms) ==>
              (EditorVisible() <==> NodeForm(FormsMapOf(old(graphData).value.forms), Node(node.id, node.nodeType, node.data)).Some?)
    {
      selectedNode := Some(node);
      if graphData.Some? {
        selectedForm := FindForm(graphData.value.forms, node.data.componentId);
        prefillModalOpen := true;
        if UniqueFormIds(graphData.value.forms) {
          FormsMapAgreesWithFind(graphData.value.forms, node.data.componentId);
        }
      }
    }

    /** `handleClosePrefillModal`, also the editor's Cancel: the store is untouched. */
    method HandleClosePrefillModal()
      modifies this
      ensures State() == old(State()).(prefillModalOpen := false)
    {
      prefillModalOpen := false;
    }

    /**
     * `handleSavePrefill`: the selected node's entry is replaced by the
     * saved values, every other entry kept; the editor closes either way.
     */
    method HandleSavePrefill(values: map<string, string>)
      modifies this
      ensures old(selectedNode).None? ==> State() == old(State()).(prefillModalOpen := false)
      ensures old(selectedNode).Some? ==>
                State() == old(State()).(prefillValues := old(prefillValues)[old(selectedNode).value.id := values],
                                         prefillModalOpen := false)
      ensures old(selectedNode).Some? ==> InitialValues() == values
      ensures forall id :: id in old(prefillValues) && (old(selectedNode).None? || id != old(selectedNode).value.id) ==>
                id in prefillValues && prefillValues[id] == old(prefillValues)[id]
    {
      if selectedNode.Some? {
        prefillValues := prefillValues[selectedNode.value.id := values];
      }
      prefillModalOpen := false;
    }

    /** `prefillValues[selectedNode.id] || {}`: a stored entry, even an empty one, is an object and so truthy. */
    function InitialValues(): (initial: map<string, string>)
      requires selectedNode.Some?
      reads this
      ensures selectedNode.value.id in prefillValues ==> initial == prefillValues[selectedNode.value.id]
      ensures selectedNode.value.id !in prefillValues ==> initial == map[]
    {
      if selectedNode.value.id in prefillValues then prefillValues[selectedNode.value.id] else map[]
    }

    /** The editor is rendered only when a node and its form are both selected. */
    predicate EditorVisible()
      reads this
      ensures EditorVisible() ==> selectedNode.Some? && selectedForm.Some?
    {
      selectedNode.Some? && selectedForm.Some?
    }
  }

  /**
   * Save, then reopen: a node is clicked, `global.currentUser` is mapped to
   * `field1` through the mapping panel, the draft is saved, and reopening the
   * same node starts the editor from exactly that mapping.
   */
  method SaveThenReopen(g: Graph, k: nat) returns (reopened: map<string, string>)
    requires k < |g.nodes|
    requires FindForm(g.forms, g.nodes[k].data.componentId).Some?
    ensures reopened == map["field1" := "global.currentUser"]
  {
    var view := new Journey();
    view.LoadGraphData(g);
    view.OnNodeClick(view.nodes[k]);
    assert view.EditorVisible();
    var draft := new Draft(view.InitialValues());
    draft.OnOpen(true, view.InitialValues());
    draft.HandleFieldChange("field1");
    draft.HandleOpenMappingPanel();
    draft.HandlePanelModalSave("global.currentUser");
    var saved := draft.HandleSave();
    view.HandleSavePrefill(saved.value);
    view.OnNodeClick(view.nodes[k]);
    draft.OnOpen(true, view.InitialValues());
    reopened := draft.values;
  }

  /**
   * Save, then click the same node again: the editor stays mounted, and its
   * open effect restores exactly the draft that was saved, whatever it held.
   */
  method SaveRoundTrip(view: Journey, draft: Draft) returns (reopened: map<string, string>)
    requires view.graphData.Some? && view.EditorVisible()
    requires draft.Valid() && draft.editingField.None?
    modifies view, draft
    ensures reopened == old(draft.values) && reopened == draft.values
    ensures view.prefillModalOpen && draft.Valid()
    ensures draft.State() == old(draft.State()).(selectedField := "", fieldValue := "", error := None)
    ensures view.prefillValues == old(view.prefillValues)[old(view.selectedNode).value.id := old(draft.values)]
  {
    var saved := draft.HandleSave();
    view.HandleSavePrefill(saved.value);
    view.OnNodeClick(view.selectedNode.value);
    draft.OnOpen(view.prefillModalOpen, view.InitialValues());
    reopened := draft.values;
  }
}
