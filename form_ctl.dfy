/**
 * The earliest revision of the engine, src/form-ctl.ts: entries have no
 * `touched` flag, the only setter always marks its field dirty, and
 * validators run without a form context.
 */
module FormCtl {
  import opened Wrappers
  import opened FormTypes
  import opened Validators
  import FormControlState

  /** The internal state of one field in this revision: `{ value, dirty }`. */
  datatype CtlEntry = CtlEntry(value: Value, dirty: bool)

  type CtlSnapshot = map<string, CtlEntry>

  /** The data part of a field record of this revision (its setter is `UpdateValue`). */
  datatype CtlControl = CtlControl(
    value: Value,
    valid: bool,
    invalid: bool,
    dirty: bool,
    error: Option<Error>,
    errors: Option<map<string, Error>>)

  datatype CtlGlobalState = CtlGlobalState(valid: bool, dirty: bool)

  // ---------------------------------------------------------------------------
  // Conversions between the state representations

  /** The snapshot a form starts from: initial values, nothing dirty. */
  function CtlInitialSnapshot(spec: FormControlState.Spec): CtlSnapshot {
    map k | k in spec :: CtlEntry(spec[k].initial, false)
  }

  /** The snapshot after an external assignment of the whole form. */
  function CtlSnapshotFromFormData(data: FormData): CtlSnapshot {
    map k | k in data :: CtlEntry(data[k], true)
  }

  /** The plain values of a snapshot. */
  function CtlFormDataOf(state: CtlSnapshot): FormData {
    map k | k in state :: state[k].value
  }

  /** `getInternalState`: every field starts with its initial value, not dirty. */
  method GetInternalState(spec: FormControlState.Spec) returns (state: CtlSnapshot)
    ensures state.Keys == spec.Keys
    ensures forall k | k in state :: state[k] == CtlEntry(spec[k].initial, false)
    ensures state == CtlInitialSnapshot(spec)
  {
    state := map[];
    var todo := spec.Keys;
    while todo != {}
      invariant todo <= spec.Keys
      invariant state.Keys == spec.Keys - todo
      invariant forall k | k in state :: state[k] == CtlEntry(spec[k].initial, false)
      decreases |todo|
    {
      var key :| key in todo;
      state := state[key := CtlEntry(spec[key].initial, false)];
      todo := todo - {key};
    }
  }

  /** `getInternalStateFromFormData`: every field takes the given value and is dirty. */
  method GetInternalStateFromFormData(data: FormData) returns (state: CtlSnapshot)
    ensures state.Keys == data.Keys
    ensures forall k | k in state :: state[k] == CtlEntry(data[k], true)
    ensures state == CtlSnapshotFromFormData(data)
  {
    state := map[];
    var todo := data.Keys;
    while todo != {}
      invariant todo <= data.Keys
      invariant state.Keys == data.Keys - todo
      invariant forall k | k in state :: state[k] == CtlEntry(data[k], true)
      decreases |todo|
    {
      var key :| key in todo;
      state := state[key := CtlEntry(data[key], true)];
      todo := todo - {key};
    }
  }

  /** `getGlobalFormData`: the value of every field. */
  method GetGlobalFormData(state: CtlSnapshot) returns (data: FormData)
    ensures data.Keys == state.Keys
    ensures forall k | k in data :: data[k] == state[k].value
    ensures data == CtlFormDataOf(state)
  {
    data := map[];
    var todo := state.Keys;
    while todo != {}
      invariant todo <= state.Keys
      invariant data.Keys == state.Keys - todo
      invariant forall k | k in data :: data[k] == state[k].value
      decreases |todo|
    {
      var key :| key in todo;
      data := data[key := state[key].value];
      todo := todo - {key};
    }
  }

  /** Reading the values back from an external assignment gives the assigned values. */
  lemma CtlFormDataRoundTrip(data: FormData)
    ensures CtlFormDataOf(CtlSnapshotFromFormData(data)) == data
  {
  }

  /** Re-assigning a form its own values keeps every value and marks every field dirty. */
  lemma CtlReassignMarksEverything(state: CtlSnapshot)
    ensures var s := CtlSnapshotFromFormData(CtlFormDataOf(state));
      && s.Keys == state.Keys
      && forall k | k in s :: s[k].value == state[k].value && s[k].dirty
  {
  }

  // ---------------------------------------------------------------------------
  // Derived records

  /** The record of field `key`: its validators see only its value, no form context. */
  function CtlControlOf(spec: FormControlState.Spec, state: CtlSnapshot, key: string): (r: Result<CtlControl, Fault>)
    requires key in spec && key in state
    ensures var vs := ValidatorList(spec[key].validators);
      r.Success? <==> forall i | 0 <= i < |vs| :: Validate(vs[i], state[key].value, None).Success?
    ensures r.Success? ==>
      && r.value.value == state[key].value
      && r.value.dirty == state[key].dirty
      && r.value.invalid == !r.value.valid
      && (r.value.error.Some? <==> r.value.invalid)
      && (r.value.errors.Some? <==> r.value.invalid)
    ensures var vs := ValidatorList(spec[key].validators);
      r.Success? ==>
        (r.value.valid <==> forall i | 0 <= i < |vs| :: Validate(vs[i], state[key].value, None) == Success(None))
  {
    var value := state[key].value;
    match GetErrorProps(value, spec[key].validators, None)
    case Failure(f) => Failure(f)
    case Success(props) =>
      HasErrorsIffSomeValidatorFails(value, spec[key].validators, None);
      Success(CtlControl(
        value := value,
        valid := !props.hasErrors,
        invalid := props.hasErrors,
        dirty := state[key].dirty,
        error := if props.hasErrors then Some(props.errors[0]) else None,
        errors := if props.hasErrors then Some(props.errorsMap) else None))
  }

  /**
   * A record's `error` is the error of the first failing validator of the
   * field, and its `errors` map holds exactly the names of the failing ones.
   */
  lemma CtlControlErrorIsFirstFailure(spec: FormControlState.Spec, state: CtlSnapshot, key: string)
    requires key in spec && key in state && CtlControlOf(spec, state, key).Success?
    ensures var c := CtlControlOf(spec, state, key).value;
      var vs := ValidatorList(spec[key].validators);
      c.error.Some? ==>
        exists i | 0 <= i < |vs| ::
          && Validate(vs[i], state[key].value, None) == Success(c.error)
          && forall j | 0 <= j < i :: Validate(vs[j], state[key].value, None) == Success(None)
    ensures var c := CtlControlOf(spec, state, key).value;
      var vs := ValidatorList(spec[key].validators);
      c.errors.Some? ==>
        forall n :: n in c.errors.value <==>
          exists i | 0 <= i < |vs| :: Validate(vs[i], state[key].value, None).value.Some? &&
            Validate(vs[i], state[key].value, None).value.value.name == n
  {
    var value := state[key].value;
    var vs := ValidatorList(spec[key].validators);
    var props := GetErrorProps(value, spec[key].validators, None).value;
    if props.hasErrors {
      FirstErrorIsFirstFailure(value, spec[key].validators, None);
      forall n ensures n in props.errorsMap <==>
        exists i | 0 <= i < |vs| :: Validate(vs[i], value, None).value.Some? &&
          Validate(vs[i], value, None).value.value.name == n
      {
        if n in props.errorsMap {
          var j :| 0 <= j < |props.errors| && props.errors[j].name == n;
          assert props.errors[j] in props.errors;
        }
        if exists i | 0 <= i < |vs| ::
          Validate(vs[i], value, None).value.Some? && Validate(vs[i], value, None).value.value.name == n
        {
          var i :| 0 <= i < |vs| && Validate(vs[i], value, None).value.Some? &&
            Validate(vs[i], value, None).value.value.name == n;
          var e := Validate(vs[i], value, None).value.value;
          assert e in props.errors;
          var j :| 0 <= j < |props.errors| && props.errors[j] == e;
          assert n in NamesOf(props.errors);
        }
      }
    }
  }

  /** The entries of a record's `errors`: each name maps to the error of the last validator reporting it. */
  lemma CtlControlErrorsAreLastFailures(spec: FormControlState.Spec, state: CtlSnapshot, key: string)
    requires key in spec && key in state && CtlControlOf(spec, state, key).Success?
    ensures var c := CtlControlOf(spec, state, key).value;
      var vs := ValidatorList(spec[key].validators);
      c.errors.Some? ==>
        forall n | n in c.errors.value ::
          && c.errors.value[n].name == n
          && exists i | 0 <= i < |vs| ::
            && Validate(vs[i], state[key].value, None) == Success(Some(c.errors.value[n]))
            && forall j | i < j < |vs| && Validate(vs[j], state[key].value, None).value.Some? ::
              Validate(vs[j], state[key].value, None).value.value.name != n
  {
    var props := GetErrorProps(state[key].value, spec[key].validators, None).value;
    assert CtlControlOf(spec, state, key).value.errors.Some? ==> CtlControlOf(spec, state, key).value.errors.value == props.errorsMap;
    ErrorsMapEntryIsLastFailure(state[key].value, spec[key].validators, None);
  }

  /** Without a form context, a field's record depends only on its own entry. */
  lemma CtlControlIsLocal(spec: FormControlState.Spec, s1: CtlSnapshot, s2: CtlSnapshot, key: string)
    requires key in spec && key in s1 && key in s2 && s1[key] == s2[key]
    ensures CtlControlOf(spec, s1, key) == CtlControlOf(spec, s2, key)
  {
  }

  /** `controls` holds exactly the successfully derived record of every field of `spec`. */
  ghost predicate CtlControlsOf(spec: FormControlState.Spec, state: CtlSnapshot, controls: map<string, CtlControl>)
    requires spec.Keys <= state.Keys
  {
    && controls.Keys == spec.Keys
    && forall k | k in controls :: CtlControlOf(spec, state, k) == Success(controls[k])
  }

  /** `getDetailedFormData`: the record of every field of the input. */
  method GetDetailedFormData(spec: FormControlState.Spec, state: CtlSnapshot) returns (r: Result<map<string, CtlControl>, Fault>)
    requires spec.Keys <= state.Keys
    ensures r.Success? <==> forall k | k in spec :: CtlControlOf(spec, state, k).Success?
    ensures r.Success? ==> CtlControlsOf(spec, state, r.value)
    ensures r.Failure? ==> exists k | k in spec :: CtlControlOf(spec, state, k) == Failure(r.error)
  {
    var output: map<string, CtlControl> := map[];
    var todo := spec.Keys;
    while todo != {}
      invariant todo <= spec.Keys
      invariant output.Keys == spec.Keys - todo
      invariant forall k | k in output :: CtlControlOf(spec, state, k) == Success(output[k])
      decreases |todo|
    {
      var key :| key in todo;
      var control := CtlControlOf(spec, state, key);
      if control.Failure? {
        assert key in spec && CtlControlOf(spec, state, key) == Failure(control.error);
        return Failure(control.error);
      }
      output := output[key := control.value];
      todo := todo - {key};
    }
    assert output.Keys == spec.Keys;
    return Success(output);
  }

  // ---------------------------------------------------------------------------
  // The whole-form aggregate

  /** Valid when every record is valid; dirty when some record is dirty. */
  function CtlGlobalStateOf(controls: map<string, CtlControl>): CtlGlobalState {
    CtlGlobalState(
      valid := forall k | k in controls :: controls[k].valid,
      dirty := exists k | k in controls :: controls[k].dirty)
  }

  /** `getGlobalState`: collects the records into a list, then `every` / `some`. */
  method GetGlobalState(controls: map<string, CtlControl>) returns (g: CtlGlobalState)
    ensures g.valid <==> forall k | k in controls :: controls[k].valid
    ensures g.dirty <==> exists k | k in controls :: controls[k].dirty
    ensures g == CtlGlobalStateOf(controls)
  {
    var outValues: seq<CtlControl> := [];
    ghost var pushed: seq<string> := [];
    var todo := controls.Keys;
    while todo != {}
      invariant todo <= controls.Keys
      invariant |pushed| == |outValues|
      invariant forall i | 0 <= i < |pushed| :: pushed[i] in controls && outValues[i] == controls[pushed[i]]
      invariant forall k | k in controls :: k in todo || k in pushed
      decreases |todo|
    {
      var key :| key in todo;
      outValues := outValues + [controls[key]];
      pushed := pushed + [key];
      todo := todo - {key};
    }
    g := CtlGlobalState(
      valid := forall c | c in outValues :: c.valid,
      dirty := exists c | c in outValues :: c.dirty);
  }

  /** A freshly initialised form is not dirty. */
  lemma CtlInitialFormIsPristine(spec: FormControlState.Spec, controls: map<string, CtlControl>)
    requires CtlControlsOf(spec, CtlInitialSnapshot(spec), controls)
    ensures !CtlGlobalStateOf(controls).dirty
  {
    forall k | k in controls ensures !controls[k].dirty {
      assert CtlControlOf(spec, CtlInitialSnapshot(spec), k) == Success(controls[k]);
    }
  }

  /** After a whole-form assignment of a non-empty form, the form is dirty. */
  lemma CtlAssignedFormIsDirty(spec: FormControlState.Spec, data: FormData, controls: map<string, CtlControl>)
    requires spec.Keys <= data.Keys && spec != map[]
    requires CtlControlsOf(spec, CtlSnapshotFromFormData(data), controls)
    ensures CtlGlobalStateOf(controls).dirty
  {
    var k :| k in spec;
    assert CtlControlOf(spec, CtlSnapshotFromFormData(data), k) == Success(controls[k]);
  }

  /** The form is valid exactly when every validator of every field passes on its own value. */
  lemma CtlFormValidIffAllPass(spec: FormControlState.Spec, state: CtlSnapshot, controls: map<string, CtlControl>)
    requires spec.Keys <= state.Keys && CtlControlsOf(spec, state, controls)
    ensures CtlGlobalStateOf(controls).valid <==>
      forall k | k in spec :: forall i | 0 <= i < |ValidatorList(spec[k].validators)| ::
        Validate(ValidatorList(spec[k].validators)[i], state[k].value, None) == Success(None)
  {
    forall k | k in spec ensures controls[k].valid <==>
      forall i | 0 <= i < |ValidatorList(spec[k].validators)| ::
        Validate(ValidatorList(spec[k].validators)[i], state[k].value, None) == Success(None)
    {
      assert CtlControlOf(spec, state, k) == Success(controls[k]);
    }
  }

  // ---------------------------------------------------------------------------
  // The field setter

  /**
   * `updateValue(v)`: the entry takes `v` and is marked dirty, unconditionally;
   * every other field is left as it was.
   */
  function UpdateValue(key: string, v: Value, prev: CtlSnapshot): (s: CtlSnapshot)
    ensures s.Keys == prev.Keys + {key}
    ensures s[key] == CtlEntry(v, true)
    ensures forall k | k in prev && k != key :: s[k] == prev[k]
  {
    prev[key := CtlEntry(v, true)]
  }

  /** Even re-setting the current value marks the field dirty in this revision. */
  lemma UpdateSameValueIsDirty(key: string, prev: CtlSnapshot)
    requires key in prev
    ensures UpdateValue(key, prev[key].value, prev)[key].dirty
    ensures UpdateValue(key, prev[key].value, prev)[key].value == prev[key].value
  {
  }
}
