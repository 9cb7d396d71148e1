/**
 * The mapping panel (src/components/modals/PrefillPanelModal.tsx): the
 * items it lists for a form's fields and for global data, the search filter
 * over them, and the state the panel keeps (search term, tab, and the
 * dependencies it resolves when it opens).
 */
module PrefillPanel {
  import opened ApiTypes
  import opened JsStrings
  import opened MappingCodec
  import opened DependencyResolver

  /**
   * A row of the panel. Form fields carry a type; the global data rows do
   * not, so their `fieldType` is `None`.
   */
  datatype PanelItem = PanelItem(id: string, itemLabel: string, description: string, fieldType: Option<string>)

  // ---------------------------------------------------------------------
  // getFormFields

  /** `value.title || key`: a missing or empty title falls back to the key. */
  function FieldDescription(p: Property): (d: string)
    requires !p.value.Null?
    ensures d == p.key || (p.value.Descriptor? && p.value.title == Some(d))
    ensures p.key != "" ==> d != ""
    ensures d == "" ==> p.key == ""
    ensures p.value.Descriptor? && p.value.title.Some? && p.value.title.value != "" ==> d == p.value.title.value
  {
    if p.value.Descriptor? && p.value.title.Some? && p.value.title.value != "" then p.value.title.value else p.key
  }

  /** `value.type || "string"`: a missing or empty type falls back to `string`. */
  function FieldType(p: Property): (t: string)
    requires !p.value.Null?
    ensures t != ""
    ensures p.value.Descriptor? && p.value.fieldType.Some? && p.value.fieldType.value != "" ==> t == p.value.fieldType.value
    ensures !(p.value.Descriptor? && p.value.fieldType.Some? && p.value.fieldType.value != "") ==> t == "string"
  {
    if p.value.Descriptor? && p.value.fieldType.Some? && p.value.fieldType.value != "" then p.value.fieldType.value else "string"
  }

  /** The row for property `p` of form `formId`. */
  function FieldItem(formId: string, p: Property): (item: PanelItem)
    requires !p.value.Null?
    ensures formId + "." <= item.id && item.id[|formId| + 1..] == p.key && item.itemLabel == p.key
    ensures item.description == p.key || (p.value.Descriptor? && p.value.title == Some(item.description))
    ensures p.key != "" ==> item.description != ""
    ensures item.fieldType.Some? && item.fieldType.value != ""
  {
    PanelItem(FormFieldId(formId, p.key), p.key, FieldDescription(p), Some(FieldType(p)))
  }

  /**
   * The `map` over the schema's entries. Reading `.title` of a `null`
   * descriptor throws, which is `None` here.
   */
  function FieldItems(formId: string, props: seq<Property>): (r: Option<seq<PanelItem>>)
    ensures r.None? <==> exists i :: 0 <= i < |props| && props[i].value.Null?
    ensures r.Some? ==> |r.value| == |props|
                        && forall i :: 0 <= i < |props| ==> r.value[i] == FieldItem(formId, props[i])
  {
    if |props| == 0 then Some([])
    else if props[0].value.Null? then None
    else
      var rest := FieldItems(formId, props[1..]);
      assert forall i :: 1 <= i < |props| ==> props[i] == props[1..][i - 1];
      if rest.None? then None else Some([FieldItem(formId, props[0])] + rest.value)
  }

  /** `getFormFields(form)`: no schema or no properties gives no rows. */
  function GetFormFields(form: Form): (r: Option<seq<PanelItem>>)
    ensures form.fieldSchema.None? || form.fieldSchema.value.properties.None? ==> r == Some([])
    ensures form.fieldSchema.Some? && form.fieldSchema.value.properties.Some? ==>
              r == FieldItems(form.id, form.fieldSchema.value.properties.value)
  {
    if form.fieldSchema.None? || form.fieldSchema.value.properties.None? then Some([])
    else FieldItems(form.id, form.fieldSchema.value.properties.value)
  }

  /**
   * Every row of a form present in the graph carries a reference id, and
   * when the form's id and the key are dot-free and the id is not `global`,
   * the id decodes back to the form's label and the row's key.
   */
  lemma FormFieldsDecode(g: Graph, form: Form, k: nat)
    requires form in g.forms
    requires GetFormFields(form).Some? && k < |GetFormFields(form).value|
    ensures IsMappingReference(GetFormFields(form).value[k].id, Some(g))
    ensures '.' !in form.id && form.id != "global" && '.' !in GetFormFields(form).value[k].itemLabel ==>
              GetFormattedMappingInfo(GetFormFields(form).value[k].id, Some(g))
                == MappingInfo(FormLabel(FindForm(g.forms, form.id)), GetFormFields(form).value[k].itemLabel)
  {
    var item := GetFormFields(form).value[k];
    var i :| 0 <= i < |g.forms| && g.forms[i] == form;
    assert g.forms[i].id + "." <= item.id;
    if '.' !in form.id && form.id != "global" && '.' !in item.itemLabel {
      FormFieldRoundTrip(g, form.id, item.itemLabel);
    }
  }

  // ---------------------------------------------------------------------
  // globalData

  const GlobalData: seq<PanelItem> := [
    PanelItem("global.currentDate", "Current Date", "The current date", None),
    PanelItem("global.currentUser", "Current User", "The currently logged in user", None),
    PanelItem("global.journeyId", "Journey ID", "The ID of the current journey", None),
    PanelItem("global.organizationName", "Organization Name", "Name of the organization", None),
    PanelItem("global.organizationId", "Organization ID", "ID of the organization", None)
  ]

  /** The global key of an item: its id after `global.`. */
  function GlobalKey(k: nat): (key: string)
    requires k < |GlobalData|
    ensures GlobalData[k].id == GlobalPrefix + key && '.' !in key
  {
    var keys := ["currentDate", "currentUser", "journeyId", "organizationName", "organizationId"];
    assert GlobalData[k].id == GlobalPrefix + keys[k];
    keys[k]
  }

  /**
   * Every global id starts with `global.`, so it is a reference whatever
   * graph is loaded, and with a graph it shows as Global Data and its key.
   */
  lemma GlobalDataAreReferences(graph: Option<Graph>, k: nat)
    requires k < |GlobalData|
    ensures GlobalPrefix <= GlobalData[k].id
    ensures IsMappingReference(GlobalData[k].id, graph)
    ensures graph.Some? ==> GetFormattedMappingInfo(GlobalData[k].id, graph) == MappingInfo("Global Data", GlobalKey(k))
  {
    var key := GlobalKey(k);
    if graph.Some? {
      DescribeGlobal(graph.value, key);
    }
  }

  /** The global ids are pairwise different. */
  lemma GlobalIdsDistinct()
    ensures forall a, b :: 0 <= a < b < |GlobalData| ==> GlobalData[a].id != GlobalData[b].id
  {
    forall a, b | 0 <= a < b < |GlobalData|
      ensures GlobalData[a].id != GlobalData[b].id
    {
      var ka, kb := GlobalKey(a), GlobalKey(b);
      assert GlobalData[a].id[|GlobalPrefix|..] == ka;
      assert GlobalData[b].id[|GlobalPrefix|..] == kb;
    }
  }

  // ---------------------------------------------------------------------
  // filterItems

  /** The case-insensitive test `filterItems` applies to one item. */
  predicate Matches(item: PanelItem, term: string)
    ensures term == "" ==> Matches(item, term)
    ensures ToLower(term) == ToLower(item.itemLabel) ==> Matches(item, term)
  {
    var t := ToLower(term);
    Includes(ToLower(item.itemLabel), t) || Includes(ToLower(item.description), t) || Includes(ToLower(item.id), t)
  }

  /** `filterItems(items)` for the search term `term`. */
  function FilterItems(items: seq<PanelItem>, term: string): (r: seq<PanelItem>)
    ensures |r| <= |items|
    ensures forall x :: x in r <==> x in items && Matches(x, term)
  {
    if |items| == 0 then []
    else (if Matches(items[0], term) then [items[0]] else []) + FilterItems(items[1..], term)
  }

  /** The filter keeps order: filtering a concatenation concatenates the filtered parts. */
  lemma {:induction false} FilterAppend(a: seq<PanelItem>, b: seq<PanelItem>, term: string)
    ensures FilterItems(a + b, term) == FilterItems(a, term) + FilterItems(b, term)
  {
    if |a| == 0 {
      assert a + b == b;
    } else {
      assert (a + b)[1..] == a[1..] + b;
      FilterAppend(a[1..], b, term);
    }
  }

  /** An empty search term keeps every item. */
  lemma {:induction false} EmptyTermKeepsAll(items: seq<PanelItem>)
    ensures FilterItems(items, "") == items
  {
    if |items| > 0 {
      assert Includes(ToLower(items[0].itemLabel), ToLower(""));
      EmptyTermKeepsAll(items[1..]);
    }
  }

  /** Filtering twice with the same term is filtering once. */
  lemma {:induction false} FilterIdempotent(items: seq<PanelItem>, term: string)
    ensures FilterItems(FilterItems(items, term), term) == FilterItems(items, term)
  {
    if |items| > 0 {
      var head := if Matches(items[0], term) then [items[0]] else [];
      var rest := FilterItems(items[1..], term);
      FilterIdempotent(items[1..], term);
      FilterAppend(head, rest, term);
      if Matches(items[0], term) {
        assert [items[0]][1..] == [];
      }
    }
  }

  /** Search is case-insensitive: terms with the same lower-case form keep the same items. */
  lemma {:induction false} CaseInsensitive(items: seq<PanelItem>, term: string, term': string)
    requires ToLower(term) == ToLower(term')
    ensures FilterItems(items, term) == FilterItems(items, term')
    decreases |items|
  {
    if |items| > 0 {
      CaseInsensitive(items[1..], term, term');
    }
  }

  /** The rows the panel lists under one dependency form. */
  function Listing(form: Form, term: string): (r: Option<seq<PanelItem>>)
    ensures r.None? <==> GetFormFields(form).None?
    ensures r.Some? ==> r.value == FilterItems(GetFormFields(form).value, term)
  {
    match GetFormFields(form)
    case None => None
    case Some(items) => Some(FilterItems(items, term))
  }

  /**
   * Whatever the search term, every row the panel offers under a direct or
   * transitive dependency of `sel` is a mapping reference for the graph.
   */
  lemma OfferedIdsAreReferences(g: Graph, sel: string, term: string, f: Form, k: nat)
    requires f in Direct(g, sel) || f in Transitive(g, sel)
    requires Listing(f, term).Some? && k < |Listing(f, term).value|
    ensures IsMappingReference(Listing(f, term).value[k].id, Some(g))
  {
    DirectMembers(g, sel);
    TransitiveSound(g, sel);
    assert f in g.forms;
    var item := Listing(f, term).value[k];
    var all := GetFormFields(f).value;
    assert item in all;
    var j :| 0 <= j < |all| && all[j] == item;
    FormFieldsDecode(g, f, j);
  }

  // ---------------------------------------------------------------------
  // The panel's state

  class PanelModal {
    var searchTerm: string
    var tabValue: int
    var directDependencies: seq<Form>
    var transitiveDependencies: seq<Form>

    constructor ()
      ensures searchTerm == "" && tabValue == 0
      ensures directDependencies == [] && transitiveDependencies == []
    {
      searchTerm := "";
      tabValue := 0;
      directDependencies := [];
      transitiveDependencies := [];
    }

    /** `handleSearchChange`. */
    method HandleSearchChange(value: string)
      modifies this
      ensures searchTerm == value
      ensures tabValue == old(tabValue)
      ensures directDependencies == old(directDependencies)
      ensures transitiveDependencies == old(transitiveDependencies)
    {
      searchTerm := value;
    }

    /** `handleTabChange`. */
    method HandleTabChange(newValue: int)
      modifies this
      ensures tabValue == newValue
      ensures searchTerm == old(searchTerm)
      ensures directDependencies == old(directDependencies)
      ensures transitiveDependencies == old(transitiveDependencies)
    {
      tabValue := newValue;
    }

    /**
     * The effect that resolves dependencies: it does nothing unless the
     * panel is open and a graph, a non-empty node id and a form are all
     * present; then both lists are replaced by the resolved ones.
     */
    method RefreshDependencies(open: bool, graph: Option<Graph>, nodeId: string, form: Option<Form>)
      modifies this
      ensures searchTerm == old(searchTerm) && tabValue == old(tabValue)
      ensures !(open && graph.Some? && nodeId != "" && form.Some?) ==>
                directDependencies == old(directDependencies)
                && transitiveDependencies == old(transitiveDependencies)
      ensures open && graph.Some? && nodeId != "" && form.Some? ==>
                directDependencies == Direct(graph.value, nodeId)
                && transitiveDependencies == Transitive(graph.value, nodeId)
    {
      if !open || graph.None? || nodeId == "" || form.None? {
        return;
      }
      var direct, transitive := FindFormDependencies(nodeId, graph.value);
      directDependencies := direct;
      transitiveDependencies := transitive;
    }

    /** The global rows listed for the current search term. */
    function GlobalListing(): (r: seq<PanelItem>)
      reads this
      ensures forall x :: x in r <==> x in GlobalData && Matches(x, searchTerm)
      ensures searchTerm == "" ==> r == GlobalData
    {
      EmptyTermKeepsAll(GlobalData);
      FilterItems(GlobalData, searchTerm)
    }
  }
}
