/** The inventory editor: a session that copies the three counts into edit
    fields, lets each field be typed over, and sends the edited counts. */
module InventoryEditor {
  import opened JsText
  import opened GoogleSheets

  /** The three counts being edited. */
  datatype EditValues = EditValues(bloodUnits: int, plasmaUnits: int, plateletUnits: int)

  /** The edit fields start from the counts on screen. */
  function ValuesOf(data: InventoryData): EditValues {
    EditValues(data.bloodUnitsAvailable, data.plasmaUnitsAvailable, data.plateletUnitsAvailable)
  }

  /** The three number inputs. */
  datatype Field = Blood | Plasma | Platelets

  function Get(v: EditValues, f: Field): int {
    match f
    case Blood => v.bloodUnits
    case Plasma => v.plasmaUnits
    case Platelets => v.plateletUnits
  }

  /** `prev => ({ ...prev, field: x })`: the field takes the new value and the
      other two keep theirs. */
  function WithField(v: EditValues, f: Field, x: int): (w: EditValues)
    ensures Get(w, f) == x
    ensures forall g :: g != f ==> Get(w, g) == Get(v, g)
  {
    match f
    case Blood => v.(bloodUnits := x)
    case Plasma => v.(plasmaUnits := x)
    case Platelets => v.(plateletUnits := x)
  }

  /** Three values agree when they agree field by field. */
  lemma ValuesByField(v: EditValues, w: EditValues)
    requires forall f :: Get(v, f) == Get(w, f)
    ensures v == w
  {
    assert Get(v, Blood) == Get(w, Blood);
    assert Get(v, Plasma) == Get(w, Plasma);
    assert Get(v, Platelets) == Get(w, Platelets);
  }

  /** Typing a number into a field sets that field to the number. */
  lemma TypedNumberIsKept(v: EditValues, f: Field, n: int)
    ensures WithField(v, f, ParseIntOrZero(IntString(n))) == WithField(v, f, n)
  {
    assert IntString(n) + "" == IntString(n);
    ParseIntOfIntString(n, "");
  }

  /** Clearing a field, or typing something that is not a number, sets it to 0. */
  lemma ClearedFieldIsZero(v: EditValues, f: Field, input: string)
    requires ParseInt(input).None?
    ensures Get(WithField(v, f, ParseIntOrZero(input)), f) == 0
  {
  }

  /** Editing one field and then another leaves the first as it was edited. */
  lemma EditsCommute(v: EditValues, f: Field, g: Field, x: int, y: int)
    requires f != g
    ensures WithField(WithField(v, f, x), g, y) == WithField(WithField(v, g, y), f, x)
  {
    var left := WithField(WithField(v, f, x), g, y);
    var right := WithField(WithField(v, g, y), f, x);
    forall h
      ensures Get(left, h) == Get(right, h)
    {
    }
    ValuesByField(left, right);
  }

  /** The component's state: whether the inputs are shown, and their values. */
  class EditSession {
    var isEditing: bool
    var editValues: EditValues

    /** The first render: not editing, the fields holding the counts shown. */
    constructor(data: InventoryData)
      ensures !isEditing && editValues == ValuesOf(data)
    {
      isEditing := false;
      editValues := ValuesOf(data);
    }

    /** `handleStartEdit`: show the inputs, filled with the current counts. */
    method StartEdit(data: InventoryData)
      modifies this
      ensures isEditing && editValues == ValuesOf(data)
    {
      isEditing := true;
      editValues := ValuesOf(data);
    }

    /** An input's `onChange`: `parseInt(value) || 0` into that field only. */
    method EditField(f: Field, input: string)
      modifies this
      ensures editValues == WithField(old(editValues), f, ParseIntOrZero(input))
      ensures isEditing == old(isEditing)
    {
      editValues := WithField(editValues, f, ParseIntOrZero(input));
    }

    /** `handleSave`: the request carries the three edited values as they are;
        whether the write succeeds is decided outside. A success closes the
        inputs and refreshes the data twice when a refresh callback is given
        (once from the write hook, once from the editor); a failure leaves the
        inputs open with their values. */
    method Save(writeSucceeded: bool, hasCallback: bool) returns (request: EditValues, refreshes: nat)
      modifies this
      ensures request == old(editValues) && editValues == old(editValues)
      ensures writeSucceeded ==> !isEditing && refreshes == (if hasCallback then 2 else 0)
      ensures !writeSucceeded ==> isEditing == old(isEditing) && refreshes == 0
    {
      request := EditValues(editValues.bloodUnits, editValues.plasmaUnits, editValues.plateletUnits);
      if writeSucceeded {
        isEditing := false;
        refreshes := if hasCallback then 2 else 0;
      } else {
        refreshes := 0;
      }
    }

    /** `handleCancel`: hide the inputs and put the counts shown back into
        them; nothing is sent. */
    method Cancel(data: InventoryData)
      modifies this
      ensures !isEditing && editValues == ValuesOf(data)
    {
      isEditing := false;
      editValues := ValuesOf(data);
    }
  }
}
