/**
 * The state-derivation engine of src/form-control-state.ts: conversions
 * between the hook input, the internal snapshot and plain form data, the
 * per-field control records, the whole-form aggregate, and the copy-on-write
 * updaters that the controls hand to `setState`.
 *
 * An updater is modelled as a function from the previous snapshot to the next
 * one, taking the field name and the argument the control's setter received.
 */
module FormControlState {
  import opened Wrappers
  import opened FormTypes
  import opened Numbers
  import opened Validators

  /** One entry of the hook input: `[initialValue, validators?]`. */
  datatype FieldSpec = FieldSpec(initial: Value, validators: Option<seq<Validator>>)

  /** The hook input, keyed by field name. */
  type Spec = map<string, FieldSpec>

  /** The data part of a control record (its setters are the updaters below). */
  datatype Control = Control(
    value: Value,
    valid: bool,
    invalid: bool,
    dirty: bool,
    touched: bool,
    touchedOrDirty: bool,
    error: Option<Error>,
    errors: Option<map<string, Error>>)

  /** The whole-form flags. */
  datatype GlobalState = GlobalState(valid: bool, dirty: bool, touched: bool)

  // ---------------------------------------------------------------------------
  // Conversions between the three state representations

  /** The snapshot a form starts from: initial values, nothing dirty or touched. */
  function InitialSnapshot(spec: Spec): Snapshot {
    map k | k in spec :: Entry(spec[k].initial, false, false)
  }

  /** The initial value of every field. */
  function InitialValues(spec: Spec): FormData {
    map k | k in spec :: spec[k].initial
  }

  /** The snapshot after an external assignment of the whole form. */
  function SnapshotFromFormData(data: FormData): Snapshot {
    map k | k in data :: Entry(data[k], true, true)
  }

  /** The plain values of a snapshot. */
  function FormDataOf(state: Snapshot): FormData {
    map k | k in state :: state[k].value
  }

  /** `getInternalState`: one pristine entry per field of the input. */
  method GetInternalState(spec: Spec) returns (state: Snapshot)
    ensures state.Keys == spec.Keys
    ensures forall k | k in state :: state[k] == Entry(spec[k].initial, false, false)
    ensures state == InitialSnapshot(spec)
  {
    state := map[];
    var todo := spec.Keys;
    while todo != {}
      invariant todo <= spec.Keys
      invariant state.Keys == spec.Keys - todo
      invariant forall k | k in state :: state[k] == Entry(spec[k].initial, false, false)
      decreases |todo|
    {
      var key :| key in todo;
      state := state[key := Entry(spec[key].initial, false, false)];
      todo := todo - {key};
    }
  }

  /**
   * `getInternalStateFromFormData`: every field takes the given value and is
   * marked dirty and touched, whether or not the value changed.
   */
  method GetInternalStateFromFormData(data: FormData) returns (state: Snapshot)
    ensures state.Keys == data.Keys
    ensures forall k | k in state :: state[k] == Entry(data[k], true, true)
    ensures state == SnapshotFromFormData(data)
  {
    state := map[];
    var todo := data.Keys;
    while todo != {}
      invariant todo <= data.Keys
      invariant state.Keys == data.Keys - todo
      invariant forall k | k in state :: state[k] == Entry(data[k], true, true)
      decreases |todo|
    {
      var key :| key in todo;
      state := state[key := Entry(data[key], true, true)];
      todo := todo - {key};
    }
  }

  /** `getGlobalFormData`: the value of every field, flags dropped. */
  method GetGlobalFormData(state: Snapshot) returns (data: FormData)
    ensures data.Keys == state.Keys
    ensures forall k | k in data :: data[k] == state[k].value
    ensures data == FormDataOf(state)
  {
    data := map[];
    var todo := state.Keys;
    while todo != {}
      invariant todo <= state.Keys
      invariant data.Keys == state.Keys - todo
      invariant forall k | k in data :: data[k] == state[k].value
      decreases |todo|
    {
      var key :| key in todo;
      data := data[key := state[key].value];
      todo := todo - {key};
    }
  }

  /** Reading the values back from an external assignment gives the assigned values. */
  lemma FormDataRoundTrip(data: FormData)
    ensures FormDataOf(SnapshotFromFormData(data)) == data
  {
  }

  /** The values of the initial snapshot are the declared initial values. */
  lemma InitialFormData(spec: Spec)
    ensures FormDataOf(InitialSnapshot(spec)) == InitialValues(spec)
  {
  }

  /**
   * Re-assigning a form its own values keeps every value but marks every
   * field dirty and touched.
   */
  lemma ReassignMarksEverything(state: Snapshot)
    ensures SnapshotFromFormData(FormDataOf(state)).Keys == state.Keys
    ensures forall k | k in state ::
      SnapshotFromFormData(FormDataOf(state))[k] == Entry(state[k].value, true, true)
  {
  }

  // ---------------------------------------------------------------------------
  // Controls

  /** The control record of a field, from its entry and its validation result. */
  function DeriveControl(entry: Entry, props: ErrorProps): (c: Control)
    requires props.hasErrors <==> props.errors != []
    ensures c.value == entry.value && c.dirty == entry.dirty && c.touched == entry.touched
    ensures c.touchedOrDirty == (c.dirty || c.touched) && c.invalid == !c.valid
    ensures c.valid <==> props.errors == []
    ensures c.error.Some? <==> c.invalid
    ensures c.error.Some? ==> c.error.value in props.errors
    ensures c.errors.Some? <==> c.invalid
  {
    Control(
      value := entry.value,
      valid := !props.hasErrors,
      invalid := props.hasErrors,
      dirty := entry.dirty,
      touched := entry.touched,
      touchedOrDirty := entry.dirty || entry.touched,
      error := if props.hasErrors then Some(props.errors[0]) else None,
      errors := if props.hasErrors then Some(props.errorsMap) else None)
  }

  /**
   * The control of field `key`: its validators run on its current value with
   * the whole snapshot as form context.
   */
  function ControlOf(spec: Spec, state: Snapshot, key: string): (r: Result<Control, Fault>)
    requires key in spec && key in state
    ensures var vs := ValidatorList(spec[key].validators);
      r.Success? <==> forall i | 0 <= i < |vs| :: Validate(vs[i], state[key].value, Some(state)).Success?
    ensures r.Success? ==>
      && r.value.value == state[key].value
      && r.value.dirty == state[key].dirty
      && r.value.touched == state[key].touched
      && r.value.touchedOrDirty == (state[key].dirty || state[key].touched)
      && r.value.invalid == !r.value.valid
      && (r.value.error.Some? <==> r.value.invalid)
      && (r.value.errors.Some? <==> r.value.invalid)
    ensures var vs := ValidatorList(spec[key].validators);
      r.Success? ==>
        (r.value.valid <==> forall i | 0 <= i < |vs| :: Validate(vs[i], state[key].value, Some(state)) == Success(None))
  {
    var vs := ValidatorList(spec[key].validators);
    var value := state[key].value;
    match GetErrorProps(value, spec[key].validators, Some(state))
    case Failure(f) => Failure(f)
    case Success(props) =>
      assert props.hasErrors <==> exists i | 0 <= i < |vs| :: Validate(vs[i], value, Some(state)).value.Some? by {
        HasErrorsIffSomeValidatorFails(value, spec[key].validators, Some(state));
      }
      Success(DeriveControl(state[key], props))
  }

  /**
   * A control's `error` is the error of the first failing validator of the
   * field, and its `errors` map holds exactly the names of the failing ones
   * (`ControlErrorsAreLastFailures` states what each name maps to).
   */
  lemma ControlErrorIsFirstFailure(spec: Spec, state: Snapshot, key: string)
    requires key in spec && key in state && ControlOf(spec, state, key).Success?
    ensures var c := ControlOf(spec, state, key).value;
      var vs := ValidatorList(spec[key].validators);
      c.error.Some? ==>
        exists i | 0 <= i < |vs| ::
          && Validate(vs[i], state[key].value, Some(state)) == Success(c.error)
          && forall j | 0 <= j < i :: Validate(vs[j], state[key].value, Some(state)) == Success(None)
    ensures var c := ControlOf(spec, state, key).value;
      var vs := ValidatorList(spec[key].validators);
      c.errors.Some? ==>
        forall n :: n in c.errors.value <==>
          exists i | 0 <= i < |vs| :: Validate(vs[i], state[key].value, Some(state)).value.Some? &&
            Validate(vs[i], state[key].value, Some(state)).value.value.name == n
  {
    var value := state[key].value;
    var vs := ValidatorList(spec[key].validators);
    var props := GetErrorProps(value, spec[key].validators, Some(state)).value;
    if props.hasErrors {
      FirstErrorIsFirstFailure(value, spec[key].validators, Some(state));
      forall n ensures n in props.errorsMap <==>
        exists i | 0 <= i < |vs| :: Validate(vs[i], value, Some(state)).value.Some? &&
          Validate(vs[i], value, Some(state)).value.value.name == n
      {
        if n in props.errorsMap {
          var j :| 0 <= j < |props.errors| && props.errors[j].name == n;
          assert props.errors[j] in props.errors;
        }
        if exists i | 0 <= i < |vs| ::
          Validate(vs[i], value, Some(state)).value.Some? && Validate(vs[i], value, Some(state)).value.value.name == n
        {
          var i :| 0 <= i < |vs| && Validate(vs[i], value, Some(state)).value.Some? &&
            Validate(vs[i], value, Some(state)).value.value.name == n;
          var e := Validate(vs[i], value, Some(state)).value.value;
          assert e in props.errors;
          var j :| 0 <= j < |props.errors| && props.errors[j] == e;
          assert n in NamesOf(props.errors);
        }
      }
    }
  }

  /** The entries of a control's `errors`: each name maps to the error of the last validator reporting it. */
  lemma ControlErrorsAreLastFailures(spec: Spec, state: Snapshot, key: string)
    requires key in spec && key in state && ControlOf(spec, state, key).Success?
    ensures var c := ControlOf(spec, state, key).value;
      var vs := ValidatorList(spec[key].validators);
      c.errors.Some? ==>
        forall n | n in c.errors.value ::
          && c.errors.value[n].name == n
          && exists i | 0 <= i < |vs| ::
            && Validate(vs[i], state[key].value, Some(state)) == Success(Some(c.errors.value[n]))
            && forall j | i < j < |vs| && Validate(vs[j], state[key].value, Some(state)).value.Some? ::
              Validate(vs[j], state[key].value, Some(state)).value.value.name != n
  {
    var props := GetErrorProps(state[key].value, spec[key].validators, Some(state)).value;
    assert ControlOf(spec, state, key).value.errors.Some? ==> ControlOf(spec, state, key).value.errors.value == props.errorsMap;
    ErrorsMapEntryIsLastFailure(state[key].value, spec[key].validators, Some(state));
  }

  /** `controls` is what `getDetailedFormData` derives from `spec` and `state`. */
  ghost predicate ControlsOf(spec: Spec, state: Snapshot, controls: map<string, Control>)
    requires spec.Keys <= state.Keys
  {
    && controls.Keys == spec.Keys
    && forall k | k in controls :: ControlOf(spec, state, k) == Success(controls[k])
  }

  /**
   * `getDetailedFormData`: the control of every field of the input; if a
   * validator throws, the exception escapes and no controls are produced.
   */
  method GetDetailedFormData(spec: Spec, state: Snapshot) returns (r: Result<map<string, Control>, Fault>)
    requires spec.Keys <= state.Keys
    ensures r.Success? <==> forall k | k in spec :: ControlOf(spec, state, k).Success?
    ensures r.Success? ==> ControlsOf(spec, state, r.value)
    ensures r.Failure? ==> exists k | k in spec :: ControlOf(spec, state, k) == Failure(r.error)
  {
    var output: map<string, Control> := map[];
    var todo := spec.Keys;
    while todo != {}
      invariant todo <= spec.Keys
      invariant output.Keys == spec.Keys - todo
      invariant forall k | k in output :: ControlOf(spec, state, k) == Success(output[k])
      decreases |todo|
    {
      var key :| key in todo;
      var entry := state[key];
      var props := GetErrorProps(entry.value, spec[key].validators, Some(state));
      if props.Failure? {
        assert ControlOf(spec, state, key) == Failure(props.error);
        return Failure(props.error);
      }
      var control := DeriveControl(entry, props.value);
      assert ControlOf(spec, state, key) == Success(control);
      output := output[key := control];
      todo := todo - {key};
    }
    assert output.Keys == spec.Keys;
    return Success(output);
  }

  // ---------------------------------------------------------------------------
  // The whole-form aggregate

  /** Valid when every control is valid; dirty (touched) when some control is. */
  function GlobalStateOf(controls: map<string, Control>): GlobalState {
    GlobalState(
      valid := forall k | k in controls :: controls[k].valid,
      dirty := exists k | k in controls :: controls[k].dirty,
      touched := exists k | k in controls :: controls[k].touched)
  }

  /** `getGlobalState`: collects the controls into a list, then `every` / `some`. */
  method GetGlobalState(controls: map<string, Control>) returns (g: GlobalState)
    ensures g.valid <==> forall k | k in controls :: controls[k].valid
    ensures g.dirty <==> exists k | k in controls :: controls[k].dirty
    ensures g.touched <==> exists k | k in controls :: controls[k].touched
    ensures g == GlobalStateOf(controls)
  {
    var outValues: seq<Control> := [];
    ghost var pushed: seq<string> := [];
    var todo := controls.Keys;
    while todo != {}
      invariant todo <= controls.Keys
      invariant |pushed| == |outValues|
      invariant forall i | 0 <= i < |pushed| :: pushed[i] in controls && outValues[i] == controls[pushed[i]]
      invariant forall k | k in controls :: k in todo || k in pushed
      decreases |todo|
    {
      var key :| key in todo;
      outValues := outValues + [controls[key]];
      pushed := pushed + [key];
      todo := todo - {key};
    }
    g := GlobalState(
      valid := forall c | c in outValues :: c.valid,
      dirty := exists c | c in outValues :: c.dirty,
      touched := exists c | c in outValues :: c.touched);
  }

  /** An empty form is valid, not dirty and not touched. */
  lemma EmptyFormAggregate()
    ensures GlobalStateOf(map[]) == GlobalState(true, false, false)
  {
  }

  /** A freshly initialised form is neither dirty nor touched. */
  lemma InitialFormIsPristine(spec: Spec, controls: map<string, Control>)
    requires ControlsOf(spec, InitialSnapshot(spec), controls)
    ensures !GlobalStateOf(controls).dirty && !GlobalStateOf(controls).touched
  {
    forall k | k in controls ensures !controls[k].dirty && !controls[k].touched {
      assert ControlOf(spec, InitialSnapshot(spec), k) == Success(controls[k]);
    }
  }

  /** The form is valid exactly when every validator of every field passes. */
  lemma FormValidIffAllPass(spec: Spec, state: Snapshot, controls: map<string, Control>)
    requires spec.Keys <= state.Keys && ControlsOf(spec, state, controls)
    ensures GlobalStateOf(controls).valid <==>
      forall k | k in spec :: forall i | 0 <= i < |ValidatorList(spec[k].validators)| ::
        Validate(ValidatorList(spec[k].validators)[i], state[k].value, Some(state)) == Success(None)
  {
    forall k | k in spec ensures controls[k].valid <==>
      forall i | 0 <= i < |ValidatorList(spec[k].validators)| ::
        Validate(ValidatorList(spec[k].validators)[i], state[k].value, Some(state)) == Success(None)
    {
      assert ControlOf(spec, state, k) == Success(controls[k]);
    }
  }

  // ---------------------------------------------------------------------------
  // Field updaters (copy-on-write: the previous snapshot is a value and stays as it was)

  /**
   * `setValue(v)`: the entry takes `v`, is dirty exactly when `v` is not
   * identical to the previous value, and is touched.
   */
  function SetValue(key: string, v: Value, prev: Snapshot): (s: Snapshot)
    requires key in prev
    ensures s.Keys == prev.Keys
    ensures s[key] == Entry(v, !StrictEquals(prev[key].value, v), true)
    ensures forall k | k in prev && k != key :: s[k] == prev[k]
  {
    prev[key := Entry(v, !StrictEquals(prev[key].value, v), true)]
  }

  /** `resetValue(v)`: the entry takes `v` and both flags are cleared. */
  function ResetValue(key: string, v: Value, prev: Snapshot): (s: Snapshot)
    ensures s.Keys == prev.Keys + {key}
    ensures s[key] == Entry(v, false, false)
    ensures forall k | k in prev && k != key :: s[k] == prev[k]
  {
    prev[key := Entry(v, false, false)]
  }

  /** `markDirty(flag)`: only the entry's `dirty` changes. */
  function MarkDirty(key: string, flag: bool, prev: Snapshot): (s: Snapshot)
    requires key in prev
    ensures s.Keys == prev.Keys
    ensures s[key] == Entry(prev[key].value, flag, prev[key].touched)
    ensures forall k | k in prev && k != key :: s[k] == prev[k]
  {
    prev[key := prev[key].(dirty := flag)]
  }

  /** `markTouched(flag)`: only the entry's `touched` changes. */
  function MarkTouched(key: string, flag: bool, prev: Snapshot): (s: Snapshot)
    requires key in prev
    ensures s.Keys == prev.Keys
    ensures s[key] == Entry(prev[key].value, prev[key].dirty, flag)
    ensures forall k | k in prev && k != key :: s[k] == prev[k]
  {
    prev[key := prev[key].(touched := flag)]
  }

  /**
   * `setNumberValue(text)`: the empty text sets null, a numeric text sets its
   * number, and any other text only marks the field touched.
   */
  function SetNumberValue(key: string, text: string, prev: Snapshot): (s: Snapshot)
    requires key in prev
    ensures s.Keys == prev.Keys && s[key].touched
    ensures forall k | k in prev && k != key :: s[k] == prev[k]
  {
    if text == "" then SetValue(key, Null, prev)
    else
      match ParseDecimal(text)
      case Some(n) => SetValue(key, Num(n), prev)
      case None => MarkTouched(key, true, prev)
  }

  /** Setting the value a field already holds leaves it touched but not dirty. */
  lemma SetSameValueIsNotDirty(key: string, prev: Snapshot)
    requires key in prev
    ensures SetValue(key, prev[key].value, prev)[key] == Entry(prev[key].value, false, true)
    ensures FormDataOf(SetValue(key, prev[key].value, prev)) == FormDataOf(prev)
  {
  }

  /** The value updaters change the form data at their own field only. */
  lemma UpdatersOnFormData(key: string, v: Value, flag: bool, prev: Snapshot)
    requires key in prev
    ensures FormDataOf(SetValue(key, v, prev)) == FormDataOf(prev)[key := v]
    ensures FormDataOf(ResetValue(key, v, prev)) == FormDataOf(prev)[key := v]
    ensures FormDataOf(MarkDirty(key, flag, prev)) == FormDataOf(prev)
    ensures FormDataOf(MarkTouched(key, flag, prev)) == FormDataOf(prev)
  {
  }

  /** Resetting a field after any setter restores a pristine entry. */
  lemma ResetAfterSet(key: string, v: Value, w: Value, prev: Snapshot)
    requires key in prev
    ensures ResetValue(key, w, SetValue(key, v, prev)) == ResetValue(key, w, prev)
  {
  }

  /** The three outcomes of `setNumberValue`. */
  lemma SetNumberValueCases(key: string, text: string, prev: Snapshot)
    requires key in prev
    ensures text == "" ==> SetNumberValue(key, text, prev) == SetValue(key, Null, prev)
    ensures text != "" && StringToNumber(text).Some? ==>
      SetNumberValue(key, text, prev) == SetValue(key, Num(StringToNumber(text).value), prev)
    ensures StringToNumber(text).None? ==>
      SetNumberValue(key, text, prev) == prev[key := prev[key].(touched := true)]
  {
  }

  // ---------------------------------------------------------------------------
  // The input-element adapters: what each one shows and which updater it calls

  datatype Adapter = InputProps | NumberInputProps | CheckboxProps | RnInputProps | RnNumberInputProps

  /** `'' + value` for the values a number field can hold. */
  function ToText(v: Value): string
    requires !(v.Arr? || v.Obj?)
  {
    match v
    case Null => "null"
    case Undefined => "undefined"
    case Bool(b) => if b then "true" else "false"
    case Num(n) => IntToString(n)
    case Str(s) => s
  }

  /** The `value` (or `checked`) an adapter renders for a field value. */
  function DisplayValue(a: Adapter, v: Value): (r: Value)
    requires a.RnNumberInputProps? ==> !(v.Arr? || v.Obj?)
    ensures (a.NumberInputProps? || a.RnNumberInputProps?) && IsNullish(v) ==> r == Str("")
    ensures a.RnNumberInputProps? ==> r.Str?
    ensures !a.RnNumberInputProps? && !(a.NumberInputProps? && IsNullish(v)) ==> r == v
  {
    match a
    case NumberInputProps => if IsNullish(v) then Str("") else v
    case RnNumberInputProps => Str(if IsNullish(v) then "" else ToText(v))
    case _ => v
  }

  /**
   * The updater an adapter's change handler dispatches, given the value the
   * control held when it was rendered and the text the element reports.
   */
  function OnChange(a: Adapter, key: string, rendered: Value, text: string, prev: Snapshot): (s: Snapshot)
    requires key in prev
    ensures s.Keys == prev.Keys && s[key].touched
    ensures forall k | k in prev && k != key :: s[k] == prev[k]
  {
    match a
    case InputProps => SetValue(key, Str(text), prev)
    case NumberInputProps => SetNumberValue(key, text, prev)
    case CheckboxProps => SetValue(key, Bool(!Truthy(rendered)), prev)
    case RnInputProps => SetValue(key, Str(text), prev)
    case RnNumberInputProps => SetNumberValue(key, text, prev)
  }

  /** Every adapter's blur handler: `markTouched()`. */
  function OnBlur(key: string, prev: Snapshot): (s: Snapshot)
    requires key in prev
    ensures s.Keys == prev.Keys
    ensures s[key] == Entry(prev[key].value, prev[key].dirty, true)
    ensures forall k | k in prev && k != key :: s[k] == prev[k]
  {
    MarkTouched(key, true, prev)
  }

  /**
   * Feeding a number field's rendered text back through its change handler
   * keeps the value and leaves the field touched but not dirty (a null value
   * renders as the empty text, which sets null again).
   */
  lemma NumberTextRoundTrip(a: Adapter, key: string, prev: Snapshot)
    requires a.NumberInputProps? || a.RnNumberInputProps?
    requires key in prev && (prev[key].value.Num? || prev[key].value.Null?)
    ensures var text := if prev[key].value.Null? then "" else IntToString(prev[key].value.n);
      OnChange(a, key, prev[key].value, text, prev)[key] == Entry(prev[key].value, false, true)
  {
    if prev[key].value.Num? {
      ParseIntToString(prev[key].value.n);
    }
  }

  /** The web number adapter renders null as the empty text and a number as itself. */
  lemma NumberDisplay(v: Value)
    requires v.Num? || v.Null?
    ensures DisplayValue(NumberInputProps, v) == if v.Null? then Str("") else v
  {
  }

  /** The React Native number adapter renders exactly that text. */
  lemma RnNumberDisplay(v: Value)
    requires v.Num? || v.Null?
    ensures DisplayValue(RnNumberInputProps, v) == Str(if v.Null? then "" else IntToString(v.n))
  {
  }

  /** A text that is not a number leaves the value and `dirty` as they were. */
  lemma RejectedNumberText(a: Adapter, key: string, text: string, prev: Snapshot)
    requires a.NumberInputProps? || a.RnNumberInputProps?
    requires key in prev && text != "" && ParseDecimal(text).None?
    ensures OnChange(a, key, prev[key].value, text, prev) == prev[key := Entry(prev[key].value, prev[key].dirty, true)]
  {
  }

  /** The checkbox handler toggles the rendered boolean, which marks the field dirty. */
  lemma CheckboxToggles(key: string, b: bool, prev: Snapshot)
    requires key in prev && prev[key].value == Bool(b)
    ensures OnChange(CheckboxProps, key, Bool(b), "", prev)[key] == Entry(Bool(!b), true, true)
  {
  }
}
