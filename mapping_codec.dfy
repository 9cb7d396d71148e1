/**
 * Mapping references (src/service/utils.ts). A prefill value is either a
 * reference, `global.<key>` or `<formId>.<fieldKey>`, or a literal.
 * `IsMappingReference` tells the two apart and `GetFormattedMappingInfo`
 * turns a value into the (form name, field name) pair the editor displays.
 * Both are total: a missing graph or an unknown form degrades to a label.
 */
module MappingCodec {
  import opened ApiTypes
  import opened JsStrings

  const GlobalPrefix: string := "global."

  /** The pair `{ formName, fieldName }` shown for a mapped value. */
  datatype MappingInfo = MappingInfo(formName: string, fieldName: string)

  /** The reference id the panel builds for field `key` of form `formId`. */
  function FormFieldId(formId: string, key: string): (id: string)
    ensures |id| == |formId| + 1 + |key|
    ensures formId + "." <= id && id[|formId| + 1..] == key
  {
    formId + "." + key
  }

  /** `forms.some(form => value.startsWith(form.id + "."))`. */
  function SomeFormPrefixes(forms: seq<Form>, value: string): (r: bool)
    ensures r <==> exists i :: 0 <= i < |forms| && forms[i].id + "." <= value
  {
    if |forms| == 0 then false
    else if forms[0].id + "." <= value then true
    else
      assert forall i :: 1 <= i < |forms| ==> forms[i] == forms[1..][i - 1];
      SomeFormPrefixes(forms[1..], value)
  }

  /**
   * `isMappingReference`: a `global.` value is a reference whatever the
   * graph; otherwise, with no graph loaded nothing is, and with a graph a
   * value is a reference iff it starts with the id of some form and a dot.
   * No form is preferred among several matching ones.
   */
  function IsMappingReference(value: string, graph: Option<Graph>): (r: bool)
    ensures GlobalPrefix <= value ==> r
    ensures graph.None? ==> (r <==> GlobalPrefix <= value)
    ensures graph.Some? && !(GlobalPrefix <= value) ==>
              (r <==> exists i :: 0 <= i < |graph.value.forms| && graph.value.forms[i].id + "." <= value)
  {
    GlobalPrefix <= value || (graph.Some? && SomeFormPrefixes(graph.value.forms, value))
  }

  /** The displayed form name of a form that may be missing: its name, unless that is empty. */
  function FormLabel(form: Option<Form>): (shown: string)
    ensures shown != ""
    ensures form.Some? && form.value.name != "" ==> shown == form.value.name
    ensures form.None? || form.value.name == "" ==> shown == "Unknown Form"
  {
    if form.Some? && form.value.name != "" then form.value.name else "Unknown Form"
  }

  /**
   * `getFormattedMappingInfo`. The value is split on every dot: the form id
   * is the first piece and the field name the second, so later pieces are
   * dropped.
   */
  function GetFormattedMappingInfo(value: string, graph: Option<Graph>): (info: MappingInfo)
    ensures info.formName != ""
    ensures graph.None? ==> info == MappingInfo("Unknown", value)
    ensures graph.Some? && GlobalPrefix <= value ==> info.formName == "Global Data"
    ensures graph.Some? && !(GlobalPrefix <= value) && '.' !in value ==> info == MappingInfo("Unknown", value)
  {
    if graph.None? then MappingInfo("Unknown", value)
    else
      var parts := Split(value, '.');
      SplitSingle(value, '.');
      if GlobalPrefix <= value then
        MappingInfo("Global Data", if |parts| >= 2 then parts[1] else "")
      else if |parts| < 2 then
        MappingInfo("Unknown", value)
      else
        MappingInfo(FormLabel(FindForm(graph.value.forms, parts[0])), parts[1])
  }

  /** The text of `s` before its first dot, or all of `s` when it has none. */
  function UpToDot(s: string): (r: string)
    ensures r <= s && '.' !in r
    ensures |r| < |s| ==> s[|r|] == '.'
    ensures '.' !in s ==> r == s
  {
    if |s| == 0 || s[0] == '.' then "" else [s[0]] + UpToDot(s[1..])
  }

  /** The first piece of a split is the text before the first dot. */
  lemma {:induction false} SplitFirstPiece(s: string)
    ensures Split(s, '.')[0] == UpToDot(s)
    decreases |s|
  {
    if |s| > 0 && s[0] != '.' {
      SplitFirstPiece(s[1..]);
    }
  }

  /** With a graph loaded, `global.<rest>` shows as Global Data and the text of `rest` up to its first dot. */
  lemma DescribeGlobal(g: Graph, rest: string)
    ensures GetFormattedMappingInfo(GlobalPrefix + rest, Some(g)) == MappingInfo("Global Data", UpToDot(rest))
  {
    assert GlobalPrefix + rest == "global" + ['.'] + rest;
    SplitAt("global", '.', rest);
    SplitSingle("global", '.');
    SplitFirstPiece(rest);
  }

  /**
   * A dotted value `a.b` that is not global shows the label of the first
   * form with id `a` and the text of `b` up to its next dot.
   */
  lemma DescribeFormReference(g: Graph, a: string, b: string)
    requires '.' !in a && !(GlobalPrefix <= a + "." + b)
    ensures GetFormattedMappingInfo(a + "." + b, Some(g))
            == MappingInfo(FormLabel(FindForm(g.forms, a)), UpToDot(b))
  {
    assert a + "." + b == a + ['.'] + b;
    SplitAt(a, '.', b);
    SplitSingle(a, '.');
    SplitFirstPiece(b);
  }

  /**
   * Encode then decode: for a dot-free form id other than `global` and a
   * dot-free key of a form present in the graph, the id the panel builds is
   * a reference and shows that form's label and exactly that key.
   */
  lemma FormFieldRoundTrip(g: Graph, formId: string, key: string)
    requires '.' !in formId && '.' !in key && formId != "global"
    requires FindForm(g.forms, formId).Some?
    ensures IsMappingReference(FormFieldId(formId, key), Some(g))
    ensures GetFormattedMappingInfo(FormFieldId(formId, key), Some(g))
            == MappingInfo(FormLabel(FindForm(g.forms, formId)), key)
  {
    NotGlobalPrefixed(formId, key);
    DescribeFormReference(g, formId, key);
    var i :| 0 <= i < |g.forms| && g.forms[i] == FindForm(g.forms, formId).value;
  }

  /** Only the form id `global` makes a dot-free form id's references look global. */
  lemma NotGlobalPrefixed(formId: string, key: string)
    requires '.' !in formId && formId != "global"
    ensures !(GlobalPrefix <= FormFieldId(formId, key))
  {
    var id := FormFieldId(formId, key);
    if |formId| < 6 {
      assert id[|formId|] == '.' != GlobalPrefix[|formId|];
    } else if |formId| == 6 {
      assert id[..6] == formId != GlobalPrefix[..6];
    } else {
      assert id[6] == formId[6] != '.';
    }
  }

  /** A form whose id is `global` collides with the global prefix: its fields show as Global Data. */
  lemma GlobalFormIdCollides()
    ensures var g := Graph([], [], [Form("global", "Globals", None)]);
            GetFormattedMappingInfo(FormFieldId("global", "x"), Some(g)) == MappingInfo("Global Data", "x")
  {
    assert FormFieldId("global", "x") == GlobalPrefix + "x";
    DescribeGlobal(Graph([], [], [Form("global", "Globals", None)]), "x");
  }

  /** A key with a dot in it does not survive the round trip: only its first segment is shown. */
  lemma DottedKeyTruncated(g: Graph)
    requires FindForm(g.forms, "f").Some?
    ensures GetFormattedMappingInfo(FormFieldId("f", "a.b"), Some(g)).fieldName == "a"
  {
    DescribeFormReference(g, "f", "a.b");
  }

  /**
   * Classification and display agree: a non-global value that is a reference
   * through a dot-free form id shows that id's form, never "Unknown".
   */
  lemma ReferenceShowsForm(g: Graph, value: string, i: nat)
    requires i < |g.forms| && '.' !in g.forms[i].id && g.forms[i].id + "." <= value
    requires !(GlobalPrefix <= value)
    ensures IsMappingReference(value, Some(g))
    ensures FindForm(g.forms, g.forms[i].id).Some?
    ensures GetFormattedMappingInfo(value, Some(g)).formName == FormLabel(FindForm(g.forms, g.forms[i].id))
  {
    var a := g.forms[i].id;
    var b := value[|a| + 1..];
    assert value == a + "." + b;
    DescribeFormReference(g, a, b);
  }

  /** The value saved in the editor example shows as Global Data, currentUser. */
  lemma CurrentUserLabel(g: Graph)
    ensures IsMappingReference("global.currentUser", Some(g))
    ensures GetFormattedMappingInfo("global.currentUser", Some(g)) == MappingInfo("Global Data", "currentUser")
  {
    var v := GlobalPrefix + "currentUser";
    assert v == "global.currentUser";
    assert '.' !in "currentUser";
    DescribeGlobal(g, "currentUser");
  }
}
