/**
 * What src/form-control.ts does differently from src/form-control-state.ts:
 * its `setValue` updater compares the whole entry record with the new value,
 * so do `setNumberValue` and the change handlers that call it, and it
 * defines the whole-form `setValue` and `reset` updaters. Its `resetValue`,
 * `markDirty`, `markTouched`, blur handlers, rendered values and loop helpers
 * are written as in the canonical module and are shared with it.
 */
module FormControl {
  import opened FormTypes
  import opened Numbers
  import FormControlState

  /**
   * `oldState[key] !== value`. A field value in this model is never an entry
   * record, so the comparison is true for every existing key; for a missing
   * key the left side is `undefined`.
   */
  predicate RecordDiffers(prev: Snapshot, key: string, v: Value) {
    if key in prev then true else !v.Undefined?
  }

  /**
   * `setValue(v)` as this revision writes it: the entry takes `v` and is
   * touched, and `dirty` is the record comparison above.
   */
  function SetValue(key: string, v: Value, prev: Snapshot): (s: Snapshot)
    ensures s.Keys == prev.Keys + {key}
    ensures s[key].value == v && s[key].touched
    ensures key in prev ==> s[key].dirty
    ensures key !in prev ==> (s[key].dirty <==> !v.Undefined?)
    ensures forall k | k in prev && k != key :: s[k] == prev[k]
  {
    prev[key := Entry(v, RecordDiffers(prev, key, v), true)]
  }

  /**
   * Re-setting a field's current value: this revision marks it dirty, where
   * the canonical updater does not.
   */
  lemma SetSameValueStaysDirty()
    ensures var prev := map["name" := Entry(Str("A"), false, false)];
      && SetValue("name", Str("A"), prev)["name"] == Entry(Str("A"), true, true)
      && FormControlState.SetValue("name", Str("A"), prev)["name"] == Entry(Str("A"), false, true)
  {
  }

  /** On an existing field the two revisions differ exactly in `dirty`, and only when the value is unchanged. */
  lemma RevisionsDifferOnlyInDirty(key: string, v: Value, prev: Snapshot)
    requires key in prev
    ensures SetValue(key, v, prev) == FormControlState.SetValue(key, v, prev) <==> !StrictEquals(prev[key].value, v)
  {
    if StrictEquals(prev[key].value, v) {
      assert SetValue(key, v, prev)[key].dirty != FormControlState.SetValue(key, v, prev)[key].dirty;
    }
  }

  /**
   * `setNumberValue(text)` of this revision: the same three cases as the
   * canonical updater, but setting a value goes through this `setValue`,
   * which also creates a missing field. Only the `markTouched` case needs an
   * existing entry.
   */
  function SetNumberValue(key: string, text: string, prev: Snapshot): (s: Snapshot)
    requires key in prev || text == "" || ParseDecimal(text).Some?
    ensures s.Keys == prev.Keys + {key} && s[key].touched
    ensures (text == "" || ParseDecimal(text).Some?) ==> s[key].dirty
    ensures text == "" ==> s[key].value == Null
    ensures forall k | k in prev && k != key :: s[k] == prev[k]
  {
    if text == "" then SetValue(key, Null, prev)
    else
      match ParseDecimal(text)
      case Some(n) => SetValue(key, Num(n), prev)
      case None => FormControlState.MarkTouched(key, true, prev)
  }

  /**
   * The updater each adapter's change handler dispatches in this revision. A
   * handler that sets a value creates a missing field; only a rejected number
   * text needs an existing entry.
   */
  function OnChange(a: FormControlState.Adapter, key: string, rendered: Value, text: string, prev: Snapshot): (s: Snapshot)
    requires key in prev || SetsValue(a, text)
    ensures s.Keys == prev.Keys + {key} && s[key].touched
    ensures SetsValue(a, text) ==> s[key].dirty
    ensures forall k | k in prev && k != key :: s[k] == prev[k]
  {
    match a
    case InputProps => SetValue(key, Str(text), prev)
    case NumberInputProps => SetNumberValue(key, text, prev)
    case CheckboxProps => SetValue(key, Bool(!Truthy(rendered)), prev)
    case RnInputProps => SetValue(key, Str(text), prev)
    case RnNumberInputProps => SetNumberValue(key, text, prev)
  }

  /** Whether a change handler, given this text, sets a value rather than only marking the field touched. */
  predicate SetsValue(a: FormControlState.Adapter, text: string) {
    (a.NumberInputProps? || a.RnNumberInputProps?) ==> text == "" || ParseDecimal(text).Some?
  }

  /**
   * Every change handler of this revision that sets a value marks the field
   * dirty, even when it sets the value the field already holds; a rejected
   * number text only marks it touched.
   */
  lemma ChangeHandlersMarkDirty(a: FormControlState.Adapter, key: string, rendered: Value, text: string, prev: Snapshot)
    requires key in prev
    ensures OnChange(a, key, rendered, text, prev).Keys == prev.Keys
    ensures OnChange(a, key, rendered, text, prev)[key].touched
    ensures SetsValue(a, text) ==> OnChange(a, key, rendered, text, prev)[key].dirty
    ensures !SetsValue(a, text) ==> OnChange(a, key, rendered, text, prev) == prev[key := prev[key].(touched := true)]
  {
  }

  /**
   * The change handlers of the two revisions write the same value, the same
   * `touched` and the same other fields; they differ at most in `dirty`.
   */
  lemma ChangeHandlersDifferOnlyInDirty(a: FormControlState.Adapter, key: string, rendered: Value, text: string, prev: Snapshot)
    requires key in prev
    ensures var mine := OnChange(a, key, rendered, text, prev);
      var canonical := FormControlState.OnChange(a, key, rendered, text, prev);
      && mine.Keys == canonical.Keys
      && mine[key].value == canonical[key].value
      && mine[key].touched == canonical[key].touched
      && (forall k | k in prev && k != key :: mine[k] == canonical[k])
      && (mine == canonical <==> !SetsValue(a, text) || !StrictEquals(prev[key].value, canonical[key].value))
  {
    var mine := OnChange(a, key, rendered, text, prev);
    var canonical := FormControlState.OnChange(a, key, rendered, text, prev);
    if SetsValue(a, text) && StrictEquals(prev[key].value, canonical[key].value) {
      assert mine[key].dirty != canonical[key].dirty;
    }
  }

  /** Typing a number field's current number again marks it dirty in this revision (the canonical handler does not). */
  lemma NumberRetypeIsDirty(key: string, n: int, prev: Snapshot)
    requires key in prev && prev[key].value == Num(n)
    ensures SetNumberValue(key, IntToString(n), prev)[key] == Entry(Num(n), true, true)
    ensures FormControlState.SetNumberValue(key, IntToString(n), prev)[key] == Entry(Num(n), false, true)
  {
    ParseIntToString(n);
  }

  /** The whole-form `setValue(values)`: the snapshot is replaced, the previous one ignored. */
  function SetFormValue(values: FormData, prev: Snapshot): (s: Snapshot)
    ensures s.Keys == values.Keys
    ensures forall k | k in s :: s[k].dirty && s[k].touched
  {
    FormControlState.SnapshotFromFormData(values)
  }

  /** The whole-form `reset()`: a copy of the snapshot the form was created with. */
  function Reset(initial: Snapshot, prev: Snapshot): (s: Snapshot)
    ensures s == initial
  {
    map k | k in initial :: initial[k]
  }

  /**
   * Setting the whole form marks every field dirty and touched, even when it
   * sets the values the form already holds.
   */
  lemma SetFormValueMarksAll(values: FormData, prev: Snapshot)
    ensures SetFormValue(values, prev).Keys == values.Keys
    ensures forall k | k in values :: SetFormValue(values, prev)[k] == Entry(values[k], true, true)
    ensures FormControlState.FormDataOf(SetFormValue(values, prev)) == values
  {
    FormControlState.FormDataRoundTrip(values);
  }

  /** Resetting restores the initial values with every flag cleared, whatever the current state. */
  lemma ResetRestoresInitial(spec: FormControlState.Spec, prev: Snapshot)
    ensures Reset(FormControlState.InitialSnapshot(spec), prev) == FormControlState.InitialSnapshot(spec)
    ensures FormControlState.FormDataOf(Reset(FormControlState.InitialSnapshot(spec), prev)) ==
      FormControlState.InitialValues(spec)
    ensures forall k | k in spec ::
      !Reset(FormControlState.InitialSnapshot(spec), prev)[k].dirty &&
      !Reset(FormControlState.InitialSnapshot(spec), prev)[k].touched
  {
    FormControlState.InitialFormData(spec);
  }
}
