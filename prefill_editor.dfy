/**
 * The prefill editor of one form node (src/components/modals/PrefillModal.tsx):
 * a draft mapping from field names to values, edited through the handlers
 * the dialog's buttons call, and the list of schema fields still offered in
 * the field selector.
 */
module PrefillEditor {
  import opened ApiTypes

  const SelectFieldError: string := "Please select a field"

  /** JavaScript truthiness of a `string | null`: `null` and `""` are falsy. */
  predicate Truthy(s: Option<string>)
  {
    s.Some? && s.value != ""
  }

  /** The seven pieces of the editor's state, as one value. */
  datatype DraftState = DraftState(
    values: map<string, string>,
    selectedField: string,
    fieldValue: string,
    error: Option<string>,
    panelModalOpen: bool,
    emptyField: Option<string>,
    editingField: Option<string>)

  // ---------------------------------------------------------------------
  // The fields offered in the selector

  /**
   * The keys of `availableFields`: the keys of the schema entries whose
   * value is an object, in the order an object records them (the first
   * assignment fixes a key's position).
   */
  function ObjectKeys(props: seq<Property>): (keys: seq<string>)
    ensures |keys| <= |props|
  {
    if |props| == 0 then []
    else
      var pre := ObjectKeys(props[..|props| - 1]);
      var last := props[|props| - 1];
      if last.value.Descriptor? && last.key !in pre then pre + [last.key] else pre
  }

  /** `!values[field] || field === editingField`. */
  predicate Selectable(values: map<string, string>, editingField: Option<string>, field: string)
    ensures editingField == Some(field) ==> Selectable(values, editingField, field)
    ensures field in values && values[field] != "" && editingField != Some(field) ==> !Selectable(values, editingField, field)
  {
    field !in values || values[field] == "" || editingField == Some(field)
  }

  /** The `filter` over the keys. */
  function SelectableKeys(keys: seq<string>, values: map<string, string>, editingField: Option<string>): (r: seq<string>)
    ensures |r| <= |keys|
    ensures forall k :: k in r <==> k in keys && Selectable(values, editingField, k)
  {
    if |keys| == 0 then []
    else
      var pre := SelectableKeys(keys[..|keys| - 1], values, editingField);
      var last := keys[|keys| - 1];
      assert forall k :: k in keys <==> k in keys[..|keys| - 1] || k == last by {
        assert keys == keys[..|keys| - 1] + [last];
      }
      if Selectable(values, editingField, last) then pre + [last] else pre
  }

  /** The schema entries of a form, when it has a schema with properties. */
  function SchemaEntries(form: Option<Form>): (props: seq<Property>)
    ensures form.None? ==> props == []
    ensures props != [] ==> form.Some? && form.value.fieldSchema.Some?
                            && form.value.fieldSchema.value.properties == Some(props)
    ensures form.Some? && form.value.fieldSchema.Some? && form.value.fieldSchema.value.properties.Some? ==>
              props == form.value.fieldSchema.value.properties.value
  {
    if form.Some? && form.value.fieldSchema.Some? && form.value.fieldSchema.value.properties.Some?
    then form.value.fieldSchema.value.properties.value
    else []
  }

  /** `availableFieldOptions` for a form and the draft's values and edit state. */
  function FieldOptions(form: Option<Form>, values: map<string, string>, editingField: Option<string>): (options: seq<string>)
    ensures |options| <= |SchemaEntries(form)|
    ensures forall k :: k in options <==> k in ObjectKeys(SchemaEntries(form)) && Selectable(values, editingField, k)
  {
    SelectableKeys(ObjectKeys(SchemaEntries(form)), values, editingField)
  }

  /** A key is in `availableFields` iff some schema entry with that key is an object. */
  lemma {:induction false} ObjectKeysMembers(props: seq<Property>)
    ensures forall k :: k in ObjectKeys(props) <==>
              exists i :: 0 <= i < |props| && props[i].key == k && props[i].value.Descriptor?
    decreases |props|
  {
    if |props| > 0 {
      var init := props[..|props| - 1];
      ObjectKeysMembers(init);
      assert forall i :: 0 <= i < |init| ==> init[i] == props[i];
    }
  }

  /** Each key appears once. */
  lemma {:induction false} ObjectKeysDistinct(props: seq<Property>)
    ensures forall a, b :: 0 <= a < b < |ObjectKeys(props)| ==> ObjectKeys(props)[a] != ObjectKeys(props)[b]
    decreases |props|
  {
    if |props| > 0 {
      ObjectKeysDistinct(props[..|props| - 1]);
    }
  }

  /**
   * The selector offers exactly the object-valued schema keys that hold no
   * non-empty value, plus the field being edited.
   */
  lemma FieldOptionsMembers(form: Option<Form>, values: map<string, string>, editingField: Option<string>, k: string)
    ensures k in FieldOptions(form, values, editingField) <==>
              (exists i :: 0 <= i < |SchemaEntries(form)| && SchemaEntries(form)[i].key == k
                           && SchemaEntries(form)[i].value.Descriptor?)
              && (k !in values || values[k] == "" || editingField == Some(k))
  {
    ObjectKeysMembers(SchemaEntries(form));
  }

  /** Writing a non-empty value for a key withdraws it from the selector unless it is being edited. */
  lemma FilledKeyWithdrawn(form: Option<Form>, values: map<string, string>, editingField: Option<string>, k: string, v: string)
    requires v != "" && editingField != Some(k)
    ensures k !in FieldOptions(form, values[k := v], editingField)
  {
    FieldOptionsMembers(form, values[k := v], editingField, k);
  }

  /** Removing a key offers it again when the schema has it as an object. */
  lemma RemovedKeyOffered(form: Option<Form>, values: map<string, string>, editingField: Option<string>, k: string)
    requires k in FieldOptions(form, values, Some(k))
    ensures k in FieldOptions(form, values - {k}, editingField)
  {
    FieldOptionsMembers(form, values, Some(k), k);
    FieldOptionsMembers(form, values - {k}, editingField, k);
  }

  // ---------------------------------------------------------------------
  // The draft and its handlers

  class Draft {
    var values: map<string, string>
    var selectedField: string
    var fieldValue: string
    var error: Option<string>
    var panelModalOpen: bool
    var emptyField: Option<string>
    var editingField: Option<string>

    function State(): DraftState
      reads this
    {
      DraftState(values, selectedField, fieldValue, error, panelModalOpen, emptyField, editingField)
    }

    /**
     * What every handler keeps: the mapping panel is open exactly when an
     * `emptyField` is recorded, the only error is the missing selection,
     * and a field being edited is a key of the draft.
     */
    predicate Valid()
      reads this
    {
      && (panelModalOpen <==> emptyField.Some?)
      && (error.Some? ==> error.value == SelectFieldError)
      && (editingField.Some? ==> editingField.value in values)
    }

    /** The initial state, from `initialValues`. */
    constructor (initialValues: map<string, string>)
      ensures Valid()
      ensures State() == DraftState(initialValues, "", "", None, false, None, None)
    {
      values := initialValues;
      selectedField := "";
      fieldValue := "";
      error := None;
      panelModalOpen := false;
      emptyField := None;
      editingField := None;
    }

    /** The effect run when `open` or `initialValues` change: opening resets the draft. */
    method OnOpen(open: bool, initialValues: map<string, string>)
      requires Valid()
      modifies this
      ensures Valid()
      ensures !open ==> State() == old(State())
      ensures open ==> State() == old(State()).(values := initialValues, selectedField := "",
                                                fieldValue := "", error := None, editingField := None)
    {
      if open {
        values := initialValues;
        selectedField := "";
        fieldValue := "";
        error := None;
        editingField := None;
      }
    }

    /** `handleFieldChange`: choosing a field clears the error. */
    method HandleFieldChange(field: string)
      requires Valid()
      modifies this
      ensures Valid()
      ensures State() == old(State()).(selectedField := field, error := None)
    {
      selectedField := field;
      error := None;
    }

    /** `handleValueChange`. */
    method HandleValueChange(value: string)
      requires Valid()
      modifies this
      ensures Valid()
      ensures State() == old(State()).(fieldValue := value)
    {
      fieldValue := value;
    }

    /**
     * `handleAddField`: without a selected field, report the error; with an
     * empty value, open the mapping panel for the field; otherwise write the
     * value and clear the selection.
     */
    method HandleAddField()
      requires Valid()
      modifies this
      ensures Valid()
      ensures old(selectedField) == "" ==> State() == old(State()).(error := Some(SelectFieldError))
      ensures old(selectedField) != "" && old(fieldValue) == "" ==>
                State() == old(State()).(emptyField := Some(old(selectedField)), panelModalOpen := true)
      ensures old(selectedField) != "" && old(fieldValue) != "" ==>
                State() == old(State()).(values := old(values)[old(selectedField) := old(fieldValue)],
                                         selectedField := "", fieldValue := "")
    {
      if selectedField == "" {
        error := Some(SelectFieldError);
        return;
      }
      if fieldValue == "" {
        emptyField := Some(selectedField);
        panelModalOpen := true;
        return;
      }
      values := values[selectedField := fieldValue];
      selectedField := "";
      fieldValue := "";
    }

    /** `handleEditField`, offered only for the fields of the draft. */
    method HandleEditField(field: string)
      requires Valid() && field in values
      modifies this
      ensures Valid()
      ensures State() == old(State()).(editingField := Some(field), selectedField := field,
                                       fieldValue := old(values)[field])
    {
      editingField := Some(field);
      selectedField := field;
      fieldValue := values[field];
    }

    /**
     * `handleUpdateField`: nothing unless a (non-empty) field is being
     * edited; then an empty value opens the mapping panel, and a value
     * overwrites that field's entry and leaves edit mode.
     */
    method HandleUpdateField()
      requires Valid()
      modifies this
      ensures Valid()
      ensures !Truthy(old(editingField)) ==> State() == old(State())
      ensures Truthy(old(editingField)) && old(fieldValue) == "" ==>
                State() == old(State()).(emptyField := old(editingField), panelModalOpen := true)
      ensures Truthy(old(editingField)) && old(fieldValue) != "" ==>
                State() == old(State()).(values := old(values)[old(editingField).value := old(fieldValue)],
                                         selectedField := "", fieldValue := "", editingField := None)
      ensures values.Keys == old(values).Keys
    {
      if Truthy(editingField) {
        if fieldValue == "" {
          emptyField := editingField;
          panelModalOpen := true;
          return;
        }
        values := values[editingField.value := fieldValue];
        selectedField := "";
        fieldValue := "";
        editingField := None;
      }
    }

    /** `handleRemoveField`: delete the key; leave edit mode only if it was the field being edited. */
    method HandleRemoveField(field: string)
      requires Valid()
      modifies this
      ensures Valid()
      ensures old(editingField) == Some(field) ==>
                State() == old(State()).(values := old(values) - {field}, editingField := None,
                                         selectedField := "", fieldValue := "")
      ensures old(editingField) != Some(field) ==> State() == old(State()).(values := old(values) - {field})
    {
      values := values - {field};
      if editingField == Some(field) {
        editingField := None;
        selectedField := "";
        fieldValue := "";
      }
    }

    /**
     * `handleSave` behind the Save button, which is disabled while a field
     * is being edited (`None` here); otherwise the draft is handed over as it is.
     */
    method HandleSave() returns (saved: Option<map<string, string>>)
      ensures editingField.Some? <==> saved.None?
      ensures saved.Some? ==> saved.value == values
    {
      if editingField.Some? {
        return None;
      }
      return Some(values);
    }

    /** `handleClosePanelModal`. */
    method HandleClosePanelModal()
      requires Valid()
      modifies this
      ensures Valid()
      ensures State() == old(State()).(panelModalOpen := false, emptyField := None)
    {
      panelModalOpen := false;
      emptyField := None;
    }

    /**
     * `handlePanelModalSave`: with a non-empty `emptyField` the mapping
     * goes to the field being edited when there is a (non-empty) one, else
     * to `emptyField`, and the panel closes; with none nothing changes.
     */
    method HandlePanelModalSave(mappingValue: string)
      requires Valid()
      modifies this
      ensures Valid()
      ensures !Truthy(old(emptyField)) ==> State() == old(State())
      ensures Truthy(old(emptyField)) && Truthy(old(editingField)) ==>
                State() == old(State()).(values := old(values)[old(editingField).value := mappingValue],
                                         editingField := None, selectedField := "", fieldValue := "",
                                         emptyField := None, panelModalOpen := false)
      ensures Truthy(old(emptyField)) && !Truthy(old(editingField)) ==>
                State() == old(State()).(values := old(values)[old(emptyField).value := mappingValue],
                                         selectedField := "", fieldValue := "",
                                         emptyField := None, panelModalOpen := false)
    {
      if Truthy(emptyField) {
        if Truthy(editingField) {
          values := values[editingField.value := mappingValue];
          editingField := None;
        } else {
          values := values[emptyField.value := mappingValue];
        }
        selectedField := "";
        fieldValue := "";
        emptyField := None;
        panelModalOpen := false;
      }
    }

    /** `handleOpenMappingPanel`: `selectedField || ""` is the selected field itself. */
    method HandleOpenMappingPanel()
      requires Valid()
      modifies this
      ensures Valid()
      ensures State() == old(State()).(emptyField := Some(old(selectedField)), panelModalOpen := true)
    {
      emptyField := Some(selectedField);
      panelModalOpen := true;
    }

    /** `handleCancelEdit`. */
    method HandleCancelEdit()
      requires Valid()
      modifies this
      ensures Valid()
      ensures State() == old(State()).(editingField := None, selectedField := "", fieldValue := "")
    {
      editingField := None;
      selectedField := "";
      fieldValue := "";
    }

    /**
     * `availableFieldOptions`: the `forEach` that fills `availableFields`,
     * then the `filter` over its keys.
     */
    method AvailableFieldOptions(form: Option<Form>) returns (options: seq<string>)
      ensures options == FieldOptions(form, values, editingField)
    {
      var availableFields: map<string, PropertyValue> := map[];
      var keys: seq<string> := [];
      var props := SchemaEntries(form);
      var i := 0;
      while i < |props|
        invariant i <= |props|
        invariant keys == ObjectKeys(props[..i])
        invariant forall k :: k in availableFields <==> k in keys
      {
        var entry := props[i];
        if entry.value.Descriptor? {
          if entry.key !in availableFields {
            keys := keys + [entry.key];
          }
          availableFields := availableFields[entry.key := entry.value];
        }
        assert props[..i + 1][..i] == props[..i];
        i := i + 1;
      }
      assert props[..i] == props;
      options := [];
      var j := 0;
      while j < |keys|
        invariant j <= |keys|
        invariant options == SelectableKeys(keys[..j], values, editingField)
      {
        var field := keys[j];
        if field !in values || values[field] == "" || editingField == Some(field) {
          options := options + [field];
        }
        assert keys[..j + 1][..j] == keys[..j];
        j := j + 1;
      }
      assert keys[..j] == keys;
    }
  }
}
