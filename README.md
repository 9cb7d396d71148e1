# Journey editor prefill logic, modelled in Dafny

The journey editor shows a directed graph of form nodes. Clicking a node opens
a prefill editor. There the user maps each field of the node's form to one of
three things: a literal, a global value (`global.<key>`), or a field of an
upstream form (`<formId>.<fieldKey>`). Upstream forms are found by walking
the graph's edges backwards.

This project models the logic behind that screen:

- **The mapping codec** (`src/service/utils.ts`). It tells references from literals and decodes a reference into the form name and field name shown to the user.
- **The dependency resolver** (`findFormDependencies` and `findTransitiveDependencies`). It computes the direct dependencies and the transitive dependencies of the selected node.
  - The model keeps the source's own computation: a depth-first walk that mutates a shared result list and a shared visited set.
  - That computation is proved equal to a functional definition. Termination, no duplicate ids, soundness and completeness are proved about the definition.
- **The mapping panel**. It covers the field rows built from a form schema, the fixed global rows, the case-insensitive search filter, and the effect that resolves dependencies when the panel opens.
- **The draft editor**. This is a class with the editor's seven state fields and one method per handler. Each method states the whole new state. All of them keep a class invariant. The selector's field list is computed by the source's two loops.
- **The journey view**. It covers the per-node store of saved prefill values, the node click, the `formsMap` loop, and the node and edge conversions. One end-to-end method clicks a node, maps a field through the panel, saves, and reopens the node.

Files:

| file | module | contents |
|---|---|---|
| `api_types.dfy` | `ApiTypes` | graph, node, edge, form and schema types; first-match lookups |
| `js_strings.dfy` | `JsStrings` | `split`, `includes`, ASCII `toLowerCase`, decimal numerals |
| `mapping_codec.dfy` | `MappingCodec` | `isMappingReference`, `getFormattedMappingInfo` |
| `dependency_resolver.dfy` | `DependencyResolver` | the dependency walk, its specification and proofs, worked examples |
| `prefill_panel.dfy` | `PrefillPanel` | `getFormFields`, `globalData`, `filterItems`, the panel's state |
| `prefill_editor.dfy` | `PrefillEditor` | the draft editor and `availableFieldOptions` |
| `journey_graph.dfy` | `JourneyGraph` | the view's state, `formsMap`, conversions, save-then-reopen |

The code behaves as follows where a reader might expect otherwise; the model keeps it as written:

- A reference's form is not chosen by the longest prefix. `isMappingReference` only asks whether some form id followed by a dot is a prefix. `getFormattedMappingInfo` splits on every dot and uses the first piece as the form id.
- A global reference's key is the second dot-separated piece, not everything after `global.`.
- `direct` is not deduplicated.
- `transitive` adds the forms of the sources of the incoming edges of each visited node, not the visited node's own form. So in a cycle, the selected node's own form can appear among its transitive dependencies (`CycleExample`).
- The walk is the source's recursion, not a worklist, because the order of the result depends on it.

## Model

| member | source | states |
|---|---|---|
| ApiTypes.NodeIds | src/components/modals/PrefillPanelModal.tsx:114-117 | a node id is in the set iff some node of the graph has that id |
| ApiTypes.FindNode | src/components/modals/PrefillPanelModal.tsx:114-116 | `nodes.find` by id: returns the first node with the id; `None` iff no node has it |
| ApiTypes.FindForm | src/components/modals/PrefillPanelModal.tsx:118-120 | `forms.find` by id: returns the first form with the id; `None` iff no form has it |
| ApiTypes.FindNodeExists | src/components/modals/PrefillPanelModal.tsx:114-117 | the node lookup succeeds exactly for the ids of existing nodes |
| ApiTypes.FindNodeFirst | src/components/modals/PrefillPanelModal.tsx:114-116 | if node `i` has the id and no earlier node does, `find` returns node `i` |
| ApiTypes.FindFormFirst | src/service/utils.ts:39 | if form `i` has the id and no earlier form does, `find` returns form `i` |
| JsStrings.Split | src/service/utils.ts:24 | `split` always yields at least one piece |
| JsStrings.SplitAt | src/service/utils.ts:31 | splitting at a separator concatenates the pieces of both sides |
| JsStrings.SplitSingle | src/service/utils.ts:31-34 | a string has exactly one piece iff it has no dot, and that piece is the string itself |
| JsStrings.SplitFirst | src/service/utils.ts:36-37 | with the first separator at `i`, there are at least two pieces; the first is the text before `i` and the rest are the pieces after it |
| JsStrings.Includes | src/components/modals/PrefillPanelModal.tsx:193-195 | `includes` holds iff the needle occurs at some index |
| JsStrings.LowerChar | src/components/modals/PrefillPanelModal.tsx:193-195 | ASCII capitals map to the lower-case letter 32 code points up; every other character is kept |
| JsStrings.ToLower | src/components/modals/PrefillPanelModal.tsx:193-195 | `toLowerCase` keeps the length and lowers each character |
| JsStrings.DecimalString | src/components/JourneyGraph.tsx:76 | the numeral of an index is a non-empty string of digits with no leading zero (it starts with `0` only for 0); it has two or more digits iff the index is at least 10 |
| JsStrings.DecimalStringInjective | src/components/JourneyGraph.tsx:76 | different indices have different numerals |
| JsStrings.DecimalRoundTrip | src/components/JourneyGraph.tsx:76 | reading a printed index back as a decimal numeral gives the index |
| MappingCodec.FormFieldId | src/components/modals/PrefillPanelModal.tsx:203 | the id of field `key` of form `formId` is the form id, a dot, then the key |
| MappingCodec.SomeFormPrefixes | src/service/utils.ts:11 | true iff some form's id followed by a dot is a prefix of the value |
| MappingCodec.IsMappingReference | src/service/utils.ts:4-13 | every `global.` value is a reference, whatever the graph; with no graph, nothing else is; with a graph, a non-global value is a reference iff some form id followed by a dot prefixes it |
| MappingCodec.FormLabel | src/service/utils.ts:41 | the shown form name is never empty: it is the form's name, or "Unknown Form" when the form is missing or its name is empty |
| MappingCodec.GetFormattedMappingInfo | src/service/utils.ts:15-44 | the form name is never empty; no graph gives ("Unknown", value) even for global values; a global value with a graph gives "Global Data"; a non-global value without a dot gives ("Unknown", value) |
| MappingCodec.UpToDot | src/service/utils.ts:27 | the result is the longest dot-free prefix: it is followed by a dot or is the whole string |
| MappingCodec.SplitFirstPiece | src/service/utils.ts:36 | the first piece of a split is the text before the first dot |
| MappingCodec.DescribeGlobal | src/service/utils.ts:23-28 | with a graph, `global.<rest>` shows as Global Data and the text of `rest` up to its next dot (empty when `rest` is empty or starts with a dot) |
| MappingCodec.DescribeFormReference | src/service/utils.ts:31-43 | a non-global `a.b` with a dot-free `a` shows the label of the first form with id `a` and the text of `b` up to its next dot |
| MappingCodec.FormFieldRoundTrip | src/service/utils.ts:4-44 | encode then decode: a dot-free form id other than `global` and a dot-free key of a form in the graph give a reference that shows the form's label and exactly that key |
| MappingCodec.NotGlobalPrefixed | src/service/utils.ts:23 | an id built from a dot-free form id other than `global` never starts with `global.` |
| MappingCodec.GlobalFormIdCollides | src/service/utils.ts:23-28 | a form whose id is `global` has its fields shown as Global Data |
| MappingCodec.DottedKeyTruncated | src/service/utils.ts:37 | a key with a dot does not round-trip: only its first segment is shown |
| MappingCodec.ReferenceShowsForm | src/service/utils.ts:11-43 | classification and display agree: a non-global reference through a dot-free form id is shown with that form's label |
| MappingCodec.CurrentUserLabel | src/service/utils.ts:23-28 | `global.currentUser` is a reference and shows as (Global Data, currentUser) |
| DependencyResolver.IncomingIn | src/components/modals/PrefillPanelModal.tsx:109-111 | the filter keeps exactly the edges whose target is the id, and is never longer than its input |
| DependencyResolver.Incoming | src/components/modals/PrefillPanelModal.tsx:142-144 | the incoming edges of a node are the graph's edges that target it |
| DependencyResolver.SourceForm | src/components/modals/PrefillPanelModal.tsx:114-120 | a resolved form belongs to an existing node and is one of the graph's forms |
| DependencyResolver.AddIfNew | src/components/modals/PrefillPanelModal.tsx:153-155 | the result extends the list and holds the form's id; the form is appended iff its id was absent; distinct ids stay distinct |
| DependencyResolver.Visit | src/components/modals/PrefillPanelModal.tsx:133-159 | entering a node marks it; only existing ids are ever marked; the result list only grows |
| DependencyResolver.VisitEdges | src/components/modals/PrefillPanelModal.tsx:145-158 | walking the remaining incoming edges only adds existing ids to the visited set and only grows the result |
| DependencyResolver.WalkFrom | src/components/modals/PrefillPanelModal.tsx:113-127 | the top-level loop only adds existing ids to the visited set and only grows the result |
| DependencyResolver.DirectOf | src/components/modals/PrefillPanelModal.tsx:113-124 | `direct` has at most one entry per incoming edge; its order and repeats are stated by DirectOfOne and DirectOfAppend |
| DependencyResolver.Direct | src/components/modals/PrefillPanelModal.tsx:101-130 | the returned `direct` is one of the graph's forms for each entry, and never has more entries than the selection has incoming edges |
| DependencyResolver.Transitive | src/components/modals/PrefillPanelModal.tsx:101-159 | the returned `transitive` never holds two forms with the same id, because the walk adds a form only when its id is new |
| DependencyResolver.Traversal.FindTransitiveDependencies | src/components/modals/PrefillPanelModal.tsx:133-159 | the recursive method's effect on the shared result and visited set is exactly `Visit` |
| DependencyResolver.FindFormDependencies | src/components/modals/PrefillPanelModal.tsx:101-130 | the method returns exactly `Direct` and `Transitive` |
| DependencyResolver.ExtendUpstream | src/components/modals/PrefillPanelModal.tsx:142-156 | an existing source of an edge into an upstream node is itself upstream, through two or more edges |
| DependencyResolver.EdgeDoneGrows | src/components/modals/PrefillPanelModal.tsx:149-156 | a followed edge stays followed as the walk proceeds |
| DependencyResolver.NodeDoneGrows | src/components/modals/PrefillPanelModal.tsx:145-158 | a node whose edges were all followed stays so as the walk proceeds |
| DependencyResolver.AddKeepsSound | src/components/modals/PrefillPanelModal.tsx:150-155 | adding the form of an edge into a visited node keeps every found form justified |
| DependencyResolver.VisitCorrect | src/components/modals/PrefillPanelModal.tsx:133-159 | entering a node upstream of the selection keeps the walk invariant and finishes that node and everything newly visited |
| DependencyResolver.VisitEdgesCorrect | src/components/modals/PrefillPanelModal.tsx:145-158 | walking a node's remaining edges keeps the invariant and follows each of them |
| DependencyResolver.WalkFromCorrect | src/components/modals/PrefillPanelModal.tsx:113-127 | the top-level loop keeps the invariant and enters every existing direct predecessor |
| DependencyResolver.TransitiveWalkCorrect | src/components/modals/PrefillPanelModal.tsx:101-159 | the finished walk has distinct ids, sound forms, only upstream nodes visited, and every visited node finished |
| DependencyResolver.ClosedHoldsUpstream | src/components/modals/PrefillPanelModal.tsx:113-158 | a visited set closed under incoming edges that holds the direct predecessors holds every upstream node |
| DependencyResolver.VisitedIsUpstream | src/components/modals/PrefillPanelModal.tsx:139-140 | the nodes visited are exactly the nodes upstream of the selection |
| DependencyResolver.TransitiveSound | src/components/modals/PrefillPanelModal.tsx:142-157 | every form in `transitive` is the form of a node two or more edges upstream |
| DependencyResolver.PathTail | src/components/modals/PrefillPanelModal.tsx:142-156 | the second node of a longer upstream path is itself upstream, one edge after the first |
| DependencyResolver.TransitiveComplete | src/components/modals/PrefillPanelModal.tsx:142-157 | every node two or more edges upstream that has a form contributes that form's id to `transitive`, including nodes without a form of their own on the way |
| DependencyResolver.DirectOfMembers | src/components/modals/PrefillPanelModal.tsx:113-124 | a form is in `direct` iff it is the resolved form of one of the edges' sources |
| DependencyResolver.DirectMembers | src/components/modals/PrefillPanelModal.tsx:109-124 | a form is in `direct` iff it is the form of an existing source of an edge into the selection |
| DependencyResolver.DirectOfOne | src/components/modals/PrefillPanelModal.tsx:117-124 | one incoming edge contributes its source's form exactly when the source node and its form both resolve, else nothing |
| DependencyResolver.DirectOfAppend | src/components/modals/PrefillPanelModal.tsx:117-124 | `direct` follows the edges: the entries for two edge lists in a row are the first list's followed by the second's, so order is kept and repeats are not removed |
| DependencyResolver.IncomingAppend | src/components/modals/PrefillPanelModal.tsx:109-111 | filtering edges distributes over concatenation |
| DependencyResolver.VisitSeen | src/components/modals/PrefillPanelModal.tsx:139 | a visited node is not entered again |
| DependencyResolver.VisitEnter | src/components/modals/PrefillPanelModal.tsx:140-145 | an unvisited node is marked before its edges are walked |
| DependencyResolver.VisitEdgesStep | src/components/modals/PrefillPanelModal.tsx:149-156 | an edge's source form is added before the source is entered |
| DependencyResolver.WalkFromStep | src/components/modals/PrefillPanelModal.tsx:117-125 | at the top level an existing source is entered without adding its own form to `transitive` |
| DependencyResolver.ExampleSourceForms | src/components/modals/PrefillPanelModal.tsx:114-120 | in the example graph each node resolves to its own form |
| DependencyResolver.ChainExample | src/components/modals/PrefillPanelModal.tsx:101-159 | chain a→b→c selecting c: direct [FB], transitive [FA] |
| DependencyResolver.DiamondExample | src/components/modals/PrefillPanelModal.tsx:101-159 | diamond a→b, a→c, b→d, c→d selecting d: direct [FB, FC], transitive [FA] |
| DependencyResolver.CycleExample | src/components/modals/PrefillPanelModal.tsx:101-159 | cycle a→b, b→a selecting b: direct [FA], transitive [FB, FA]; the walk ends and the selected node's own form appears |
| DependencyResolver.SharedFormExample | src/components/modals/PrefillPanelModal.tsx:101-130 | nodes a and b on one form, edges a→c and b→c, selecting c: `direct` is [FA, FA], the shared form once per edge |
| PrefillPanel.FieldDescription | src/components/modals/PrefillPanelModal.tsx:205 | the description is the key or the schema title; a non-empty title wins; it is empty only when the key is |
| PrefillPanel.FieldType | src/components/modals/PrefillPanelModal.tsx:206 | a row's type is the schema type when it is non-empty, else "string" |
| PrefillPanel.FieldItem | src/components/modals/PrefillPanelModal.tsx:202-207 | a row's id is the form id, a dot, then the key; its label is the key; its description is the title or the key, empty only for an empty key; its type is never empty |
| PrefillPanel.FieldItems | src/components/modals/PrefillPanelModal.tsx:202-207 | one row per schema entry, in order; reading a null descriptor fails (`None`) iff one is present |
| PrefillPanel.GetFormFields | src/components/modals/PrefillPanelModal.tsx:199-208 | no schema or no properties gives no rows; otherwise one row per property |
| PrefillPanel.FormFieldsDecode | src/components/modals/PrefillPanelModal.tsx:199-208 | every row id of a form in the graph is a reference; with dot-free ids other than `global` it decodes to the form's label and the row's key |
| PrefillPanel.GlobalKey | src/components/modals/PrefillPanelModal.tsx:162-188 | every global row id is `global.` followed by a dot-free key |
| PrefillPanel.GlobalDataAreReferences | src/components/modals/PrefillPanelModal.tsx:162-188 | every global row is a reference with or without a graph, and shows as Global Data and its key |
| PrefillPanel.GlobalIdsDistinct | src/components/modals/PrefillPanelModal.tsx:162-188 | the five global ids are pairwise different |
| PrefillPanel.FilterItems | src/components/modals/PrefillPanelModal.tsx:190-197 | the filter keeps exactly the items whose lower-cased label, description or id contains the lower-cased term |
| PrefillPanel.FilterAppend | src/components/modals/PrefillPanelModal.tsx:191 | the filter keeps the order: filtering a concatenation concatenates the filtered parts |
| PrefillPanel.EmptyTermKeepsAll | src/components/modals/PrefillPanelModal.tsx:190-197 | an empty search term keeps every item |
| PrefillPanel.FilterIdempotent | src/components/modals/PrefillPanelModal.tsx:190-197 | filtering twice with one term is filtering once |
| PrefillPanel.CaseInsensitive | src/components/modals/PrefillPanelModal.tsx:193-195 | terms with the same lower-case form keep the same items |
| PrefillPanel.Matches | src/components/modals/PrefillPanelModal.tsx:192-195 | an empty term matches every item, and an item matches a term equal to its label up to case |
| PrefillPanel.Listing | src/components/modals/PrefillPanelModal.tsx:266 | the rows under a dependency are its field rows filtered by the term; the listing fails iff reading the fields fails |
| PrefillPanel.OfferedIdsAreReferences | src/components/modals/PrefillPanelModal.tsx:259-301 | whatever the term, every row offered under a direct or transitive dependency is a mapping reference for the graph |
| PrefillPanel.PanelModal.constructor | src/components/modals/PrefillPanelModal.tsx:74-79 | the panel starts with an empty search term, the first tab, and no dependencies |
| PrefillPanel.PanelModal.HandleSearchChange | src/components/modals/PrefillPanelModal.tsx:85-87 | sets the search term and nothing else |
| PrefillPanel.PanelModal.HandleTabChange | src/components/modals/PrefillPanelModal.tsx:81-83 | sets the tab and nothing else |
| PrefillPanel.PanelModal.RefreshDependencies | src/components/modals/PrefillPanelModal.tsx:93-98 | unless the panel is open with a graph, a non-empty node id and a form, nothing changes; otherwise both lists become the resolved `Direct` and `Transitive` |
| PrefillPanel.PanelModal.GlobalListing | src/components/modals/PrefillPanelModal.tsx:319 | the global tab lists exactly the matching global rows, and all of them for an empty term |
| PrefillEditor.ObjectKeys | src/components/modals/PrefillModal.tsx:189-196 | `availableFields` has at most one key per schema entry |
| PrefillEditor.Selectable | src/components/modals/PrefillModal.tsx:199-201 | the field being edited is always offered; any other field holding a non-empty value is not |
| PrefillEditor.SchemaEntries | src/components/modals/PrefillModal.tsx:190-191 | the entries read are the form's own schema properties, and none without a form, schema or properties |
| PrefillEditor.FieldOptions | src/components/modals/PrefillModal.tsx:188-201 | the options are the object-valued schema keys that are selectable, never more than the schema has entries |
| PrefillEditor.SelectableKeys | src/components/modals/PrefillModal.tsx:199-201 | the filter keeps exactly the keys with no non-empty value, plus the edited one |
| PrefillEditor.ObjectKeysMembers | src/components/modals/PrefillModal.tsx:190-195 | a key is in `availableFields` iff some schema entry with that key is an object |
| PrefillEditor.ObjectKeysDistinct | src/components/modals/PrefillModal.tsx:189-196 | each key of `availableFields` appears once |
| PrefillEditor.FieldOptionsMembers | src/components/modals/PrefillModal.tsx:188-201 | the selector offers exactly the object-valued schema keys holding no non-empty value, plus the field being edited |
| PrefillEditor.FilledKeyWithdrawn | src/components/modals/PrefillModal.tsx:199-201 | once a key holds a non-empty value, it is no longer offered unless it is being edited |
| PrefillEditor.RemovedKeyOffered | src/components/modals/PrefillModal.tsx:133-144 | removing an offered key's value offers it again |
| PrefillEditor.Draft.constructor | src/components/modals/PrefillModal.tsx:56-62 | the draft starts from `initialValues` with no selection, no error, the panel closed and nothing edited |
| PrefillEditor.Draft.OnOpen | src/components/modals/PrefillModal.tsx:64-72 | opening resets the draft to `initialValues` and clears the selection, value, error and edit state; the panel state is kept |
| PrefillEditor.Draft.HandleFieldChange | src/components/modals/PrefillModal.tsx:74-80 | selecting a field clears the error |
| PrefillEditor.Draft.HandleValueChange | src/components/modals/PrefillModal.tsx:82-84 | sets the typed value and nothing else |
| PrefillEditor.Draft.HandleAddField | src/components/modals/PrefillModal.tsx:86-106 | no selection sets the error and leaves the values; an empty value opens the panel for the field; otherwise only the selected key is written and the selection is cleared |
| PrefillEditor.Draft.HandleEditField | src/components/modals/PrefillModal.tsx:108-112 | editing a field selects it and loads its value |
| PrefillEditor.Draft.HandleUpdateField | src/components/modals/PrefillModal.tsx:114-131 | nothing unless a field is being edited; an empty value opens the panel; otherwise only that key is written and edit mode ends; the set of keys never changes |
| PrefillEditor.Draft.HandleRemoveField | src/components/modals/PrefillModal.tsx:133-144 | deletes exactly that key; resets the selection and edit state only when it was the edited field |
| PrefillEditor.Draft.HandleClosePanelModal | src/components/modals/PrefillModal.tsx:150-153 | closes the panel and forgets the empty field |
| PrefillEditor.Draft.HandlePanelModalSave | src/components/modals/PrefillModal.tsx:155-175 | with a non-empty empty field, the mapping goes to the edited field if any, else to the empty field, and the panel closes; otherwise nothing changes |
| PrefillEditor.Draft.HandleOpenMappingPanel | src/components/modals/PrefillModal.tsx:177-180 | opens the panel for the selected field, which is `""` when none is selected, so the panel's save is then a no-op |
| PrefillEditor.Draft.HandleCancelEdit | src/components/modals/PrefillModal.tsx:182-186 | leaves edit mode and clears the selection and value |
| PrefillEditor.Draft.AvailableFieldOptions | src/components/modals/PrefillModal.tsx:188-201 | the two loops compute exactly the specified selector options |
| JourneyGraph.FormsMapOf | src/components/JourneyGraph.tsx:57-60 | `formsMap` has a key iff some form has that id |
| JourneyGraph.FormsMapLast | src/components/JourneyGraph.tsx:58-60 | the form stored under an id is the last form with that id |
| JourneyGraph.FormsMapAgreesWithFind | src/components/JourneyGraph.tsx:57-60 | with unique form ids, `formsMap` and the first-match `find` agree |
| JourneyGraph.DuplicateFormIdsDiverge | src/components/JourneyGraph.tsx:57-60 | with two forms under one id, `formsMap` keeps the second while `find` returns the first |
| JourneyGraph.BuildFormsMap | src/components/JourneyGraph.tsx:57-60 | the loop builds exactly `formsMap` |
| JourneyGraph.NodeForm | src/components/JourneyGraph.tsx:70 | `formsMap[id] || null` is null exactly when the id is absent, since a stored form is never falsy; otherwise it is the form stored under the component id |
| JourneyGraph.ConvertNodes | src/components/JourneyGraph.tsx:63-72 | node conversion keeps the length, order, id, type and data, and attaches the mapped form or none |
| JourneyGraph.NodeFormMatchesClick | src/components/JourneyGraph.tsx:63-72 | with unique form ids, the form attached to a node is the form a click on it selects |
| JourneyGraph.EdgeId | src/components/JourneyGraph.tsx:76 | an edge id is `e` followed by decimal digits that read back as the edge's index |
| JourneyGraph.ConvertEdges | src/components/JourneyGraph.tsx:75-80 | edge conversion keeps the length and order; the i-th edge gets id `e<i>`, copies source and target, and is not animated |
| JourneyGraph.EdgeIdsDistinct | src/components/JourneyGraph.tsx:76 | different edges get different ids |
| JourneyGraph.EdgesRoundTrip | src/components/JourneyGraph.tsx:75-80 | mapping converted edges back gives the API edges, in order |
| JourneyGraph.Journey.constructor | src/components/JourneyGraph.tsx:11-17 | the view starts with no graph, nothing selected, the editor closed and an empty store |
| JourneyGraph.Journey.LoadGraphData | src/components/JourneyGraph.tsx:53-83 | loading stores the graph and its converted nodes and edges and changes nothing else |
| JourneyGraph.Journey.OnNodeClick | src/components/JourneyGraph.tsx:19-26 | a click always records the node; with a graph it selects the first form with the node's component id and opens the dialog, and the editor is shown iff that form exists (with unique form ids: iff the node's `formsMap` entry exists) |
| JourneyGraph.Journey.HandleClosePrefillModal | src/components/JourneyGraph.tsx:28-30 | closing, also the editor's Cancel, leaves the store untouched |
| JourneyGraph.Journey.HandleSavePrefill | src/components/JourneyGraph.tsx:32-40 | with a selected node, its entry is replaced and every other entry is kept, and reopening it starts from the saved values; the editor closes either way |
| JourneyGraph.Journey.EditorVisible | src/components/JourneyGraph.tsx:116 | the editor is mounted only with both a node and a form selected, so its node id and initial values are defined |
| JourneyGraph.SaveThenReopen | src/components/JourneyGraph.tsx:32-40 | click, map `field1` to `global.currentUser` through the panel, save, click again: the mounted editor's open effect restores exactly `{field1: "global.currentUser"}` |
| JourneyGraph.SaveRoundTrip | src/components/modals/PrefillModal.tsx:146-148 | with the editor mounted, whatever the draft holds when Save is enabled is stored under the selected node, and clicking the node again restores exactly that draft |

## Left out

- The fetch of the graph, its error handling and logging. The loaded graph is a parameter of `LoadGraphData`.
- React's scheduling. Each handler and effect is one atomic transition; dependency arrays, memoised callbacks and stale closures are not modelled.
- The canvas library (`useNodesState`, `useEdgesState`, `addEdge` on connect), node positions, and everything rendered (dialogs, tabs, accordions, chips, tooltips, the node component, the app shell).
- The opaque parts of the API types. Only the fields the logic reads are kept.
- Arrays as schema values. `typeof [] === "object"`, so the source puts an array descriptor into `availableFields`; a schema value here is an object, `null` or another scalar. A title or type that is not a string is not modelled.
- JavaScript's ordering of integer-like object keys. Schema entries are taken in the order given.
- Object keys inherited from the prototype (such as `toString` or `constructor`) in `formsMap`, `values` and `prefillValues`. A node id such as `constructor` makes `prefillValues[id] || {}` yield an inherited function rather than `{}`. The maps hold only what was written.
- The values of `values` and of the store are strings. The source types them `any`, but only strings are written.
- `typeof value === "string"` in the codec. Every value here is a string.
- JsStrings.LowerChar: lowers ASCII letters only, not the full Unicode case mapping of `toLowerCase`.
- `handleSelectMapping` only passes the chosen id on. It is the `mappingValue` argument of `HandlePanelModalSave`.
- PrefillEditor.Draft.HandleEditField: requires the field to be a key of the draft. The source reads `values[field]` and only offers the button for the draft's own keys, so the `undefined` case is not modelled.
