/**
 * A form instance over time: the snapshot it was created with, and the
 * updaters its controls and its whole-form setters hand to `setState`, each
 * applied to the result of the previous one. Field updaters are those of
 * src/form-control-state.ts; the whole-form ones those of src/form-control.ts.
 */
module FormSession {
  import opened Wrappers
  import opened FormTypes
  import opened FormControlState
  import FormControl

  /** One call of a setter of a control or of the form. */
  datatype Mutation =
    | SetField(key: string, v: Value)
    | ResetField(key: string, v: Value)
    | MarkFieldDirty(key: string, flag: bool)
    | MarkFieldTouched(key: string, flag: bool)
    | SetFieldNumber(key: string, text: string)
    | SetForm(values: FormData)
    | ResetForm

  /** The updaters that read the previous entry of their field need it to exist. */
  predicate Applicable(m: Mutation, s: Snapshot) {
    match m
    case SetField(key, _) => key in s
    case MarkFieldDirty(key, _) => key in s
    case MarkFieldTouched(key, _) => key in s
    case SetFieldNumber(key, _) => key in s
    case _ => true
  }

  /** The snapshot after one updater. */
  function Apply(m: Mutation, initial: Snapshot, s: Snapshot): Snapshot
    requires Applicable(m, s)
  {
    match m
    case SetField(key, v) => SetValue(key, v, s)
    case ResetField(key, v) => ResetValue(key, v, s)
    case MarkFieldDirty(key, flag) => MarkDirty(key, flag, s)
    case MarkFieldTouched(key, flag) => MarkTouched(key, flag, s)
    case SetFieldNumber(key, text) => SetNumberValue(key, text, s)
    case SetForm(values) => FormControl.SetFormValue(values, s)
    case ResetForm => FormControl.Reset(initial, s)
  }

  /** Every updater of the sequence can be applied to the result of the previous ones. */
  predicate Runs(ms: seq<Mutation>, initial: Snapshot, s: Snapshot)
    decreases |ms|
  {
    ms == [] || (Applicable(ms[0], s) && Runs(ms[1..], initial, Apply(ms[0], initial, s)))
  }

  /** The snapshot after a sequence of updaters, each applied to the previous result. */
  function ApplyAll(ms: seq<Mutation>, initial: Snapshot, s: Snapshot): Snapshot
    requires Runs(ms, initial, s)
    decreases |ms|
  {
    if ms == [] then s else ApplyAll(ms[1..], initial, Apply(ms[0], initial, s))
  }

  /** Updaters compose: running two batches is running the second on the result of the first. */
  lemma {:induction false} ApplyAllAppend(ms1: seq<Mutation>, ms2: seq<Mutation>, initial: Snapshot, s: Snapshot)
    requires Runs(ms1, initial, s)
    ensures Runs(ms1 + ms2, initial, s) <==> Runs(ms2, initial, ApplyAll(ms1, initial, s))
    ensures Runs(ms1 + ms2, initial, s) ==>
      ApplyAll(ms1 + ms2, initial, s) == ApplyAll(ms2, initial, ApplyAll(ms1, initial, s))
    decreases |ms1|
  {
    if ms1 == [] {
      assert ms1 + ms2 == ms2;
    } else {
      assert (ms1 + ms2)[0] == ms1[0];
      assert (ms1 + ms2)[1..] == ms1[1..] + ms2;
      ApplyAllAppend(ms1[1..], ms2, initial, Apply(ms1[0], initial, s));
    }
  }

  /**
   * Reset is idempotent over any history: whatever was applied before, a
   * final `reset()` gives back the initial snapshot, so the initial values
   * with every flag cleared.
   */
  lemma ResetAfterAnyHistory(spec: Spec, ms: seq<Mutation>, s: Snapshot)
    requires Runs(ms, InitialSnapshot(spec), s)
    ensures Runs(ms + [ResetForm], InitialSnapshot(spec), s)
    ensures ApplyAll(ms + [ResetForm], InitialSnapshot(spec), s) == InitialSnapshot(spec)
    ensures FormDataOf(ApplyAll(ms + [ResetForm], InitialSnapshot(spec), s)) == InitialValues(spec)
  {
    var initial := InitialSnapshot(spec);
    ApplyAllAppend(ms, [ResetForm], initial, s);
    assert Runs([ResetForm], initial, ApplyAll(ms, initial, s)) by {
      assert [ResetForm][1..] == [];
    }
    FormControl.ResetRestoresInitial(spec, ApplyAll(ms, initial, s));
  }

  /** The field a mutation writes, if it writes a single field. */
  function FieldOf(m: Mutation): string
    requires !(m.SetForm? || m.ResetForm?)
  {
    m.key
  }

  /**
   * Field updaters that target existing fields keep the set of fields, and
   * leave every field they do not target exactly as it was.
   */
  lemma {:induction false} FieldUpdatesAreLocal(ms: seq<Mutation>, initial: Snapshot, s: Snapshot, other: string)
    requires forall i | 0 <= i < |ms| :: !(ms[i].SetForm? || ms[i].ResetForm?) && FieldOf(ms[i]) in s
    requires forall i | 0 <= i < |ms| :: FieldOf(ms[i]) != other
    ensures Runs(ms, initial, s)
    ensures ApplyAll(ms, initial, s).Keys == s.Keys
    ensures other in s ==> ApplyAll(ms, initial, s)[other] == s[other]
    decreases |ms|
  {
    if ms != [] {
      var next := Apply(ms[0], initial, s);
      assert next.Keys == s.Keys && (other in s ==> next[other] == s[other]);
      assert forall i | 0 <= i < |ms[1..]| :: ms[1..][i] == ms[i + 1];
      FieldUpdatesAreLocal(ms[1..], initial, next, other);
    }
  }

  /**
   * Assigning the whole form makes a non-empty form dirty and touched in the
   * aggregate, even when the assigned values are the current ones.
   */
  lemma SetFormDirtiesForm(spec: Spec, values: FormData, s: Snapshot, controls: map<string, Control>)
    requires spec.Keys <= values.Keys && spec != map[]
    requires ControlsOf(spec, Apply(SetForm(values), InitialSnapshot(spec), s), controls)
    ensures GlobalStateOf(controls).dirty && GlobalStateOf(controls).touched
  {
    var k :| k in spec;
    var after := Apply(SetForm(values), InitialSnapshot(spec), s);
    assert after[k] == Entry(values[k], true, true);
    assert ControlOf(spec, after, k) == Success(controls[k]);
  }
}
