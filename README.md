# react-form-ctl: validator engine and state derivation, in Dafny

react-form-ctl is a React form-state library. A form is declared as a map
from field names to an initial value and an optional list of validators. The
library keeps one immutable snapshot of the form: per field, its value, a
`dirty` flag and a `touched` flag. On every render it derives a control
record for each field (value, validity, first error, errors by name, flags)
and a whole-form aggregate (valid, dirty, touched). Every mutation replaces
the snapshot through an updater function of the previous snapshot.

The project models:

- **The validator engine** (`src/validators.ts`) in module `Validators`.
  - the built-in validators `required`, `requiredTrue`, `minLength`,
    `maxLength`, `min`, `max`, `pattern` and its alias `regex`;
  - caller-written validators, which get the form snapshot as context;
  - `getErrorProps` as its three steps: map, filter, then reduce into a
    name-keyed map;
  - `extError`.

  The model follows the JavaScript a validator runs: `==` versus `===`,
  `value.length` on `null`, a string's `length` counted in UTF-16 code units,
  and `value.match` on a non-string. The numeric
  coercion of `<` and `>` is modelled for integers only (see Left out). An
  exception, including one thrown by a caller-written validator, is a
  `Fault` in a `Result`.
- **The canonical state engine** (`src/form-control-state.ts`) in module
  `FormControlState`.
  - The `for...in` helpers are methods with loops. Each is proved against a
    specification function.
  - The per-field updaters are functions from the previous snapshot to the
    next: `setValue`, `resetValue`, `markDirty`, `markTouched` and
    `setNumberValue`.
  - The input-element adapters are modelled by what they render and which
    updater they call.
- **The second revision** (`src/form-control.ts`) in module `FormControl`.
  - Its `setValue` updater compares the entry record, not the entry's value.
    See Findings.
  - Its own `setNumberValue` and change handlers, which go through that
    `setValue` and so mark an existing field dirty whenever they set a value.
  - Its whole-form `setValue` and `reset`.
  - Its `resetValue`, `markDirty`, `markTouched`, blur handlers, rendered
    values and loop helpers are written as in the canonical module. They are
    shared with it, not repeated.
- **The earliest revision** (`src/form-ctl.ts`) in module `FormCtl`. Entries
  carry no `touched` flag. `updateValue` always marks the field dirty.
  Validators get no form context.
- **A form instance over time** in module `FormSession`: a sequence of
  updaters, each applied to the result of the previous one.
- **The repository's test expectations**, written as lemmas in module
  `Scenarios`.

Shared modules:

- `Wrappers` holds `Option` and `Result`.
- `FormTypes` holds the JavaScript value domain, strict equality and
  truthiness.
- `Numbers` holds the `+text` and `'' + n` conversions.

The form context is `Option<Snapshot>`. The two later revisions pass
`Some(state)`, the earliest passes `None`. `src/validators.ts` as it stands
takes no context argument. The two later revisions still pass the snapshot
(src/form-control-state.ts:45-49), and `src/types/error-handling.ts:7-10`
types a validator as `(value, internalState)`. The model follows the callers
and the types: it threads the snapshot through, so cross-field validators can
be written.

`Validators.If` and `Validators.ExtErrorWithDefault` are extensions that
`src/validators.ts` lacks. They follow its test suite (the `if`
combinator, the `default` mapping and the thrown "No error-mapping" fault).
Everything else follows the code.

## Model

| member | source | states |
|---|---|---|
| FormTypes.StrictEqualsIsEquivalence | src/form-control-state.ts:56 | The `!==` test that `setValue` uses is reflexive, symmetric and transitive on field values, with arrays and objects compared by identity. |
| Numbers.NatToDigits | src/form-control-state.ts:159 | The decimal rendering of a natural number is a non-empty digit string without a leading zero (unless the number is 0), and its value is the number. |
| Numbers.IntToString | src/form-control-state.ts:159 | `'' + n` for an integer is never empty. |
| Numbers.ParseDecimal | src/form-control-state.ts:93-96 | `+text` on a non-empty text: a number comes only from a non-empty text, is negative only after a leading `-`, and a text of digits alone gives the number they denote. |
| Numbers.StringToNumber | src/validators.ts:67-92 | `+text` on any text: a text of digits alone, including the empty text (0), gives the number they denote, and a negative number needs a leading `-`. |
| Numbers.ToNumber | src/validators.ts:67-92 | The number `<` and `>` compare a value as: a number is itself; null, `false` and `""` are 0; undefined and objects are NaN. |
| Numbers.ParseIntToString | src/form-control-state.ts:92-101 | Coercing the rendering of any integer back with `+text` gives that integer, whether through the non-empty parse or the full coercion. |
| Numbers.NonNumericText | src/form-control-state.ts:93-96 | A text with a non-digit after its first character is NaN under the model's integer-only `+text`. |
| Validators.BuiltInOutcomes | src/validators.ts:14-108 | A built-in validator throws exactly when it is a length validator applied to null or undefined, or `pattern` applied to a non-string. Every error it returns reports the value it got. |
| Validators.FirstErrorScan | tests/validators.spec.ts:224-232 | The scan of a conditional validator's inner validators from index `i`: an error or fault it returns comes from some validator all of whose predecessors from `i` on passed, and no error is returned exactly when all of them pass. |
| Validators.RunAll | src/validators.ts:132-134 | The map step succeeds exactly when no validator throws. On success it holds every validator's outcome in declaration order. On failure it reports the first throwing validator's fault, and every validator before that one succeeded. |
| Validators.Present | src/validators.ts:135 | The filter step keeps exactly the outcomes that are errors and never grows the list. |
| Validators.GetErrorProps | src/validators.ts:124-145 | An absent validator list gives no errors. The call succeeds exactly when no validator throws. An error is listed exactly when some validator produced it. `hasErrors` holds exactly when the list is non-empty. The map's keys are exactly the error names. |
| Validators.CollectKeys | src/validators.ts:137-140 | The reduce step's keys are the initial keys plus the names of the folded errors. |
| Validators.CollectKeeps | src/validators.ts:137-140 | A name that no folded error carries keeps its initial entry. |
| Validators.CollectLastWins | src/validators.ts:137-140 | The entry of each name is the last error with that name. |
| Validators.ErrorsMapIsLastByName | src/validators.ts:137-140 | `errorsMap` has the error names as keys, and a later error overwrites an earlier one with the same name. |
| Validators.LastIndexOfName | src/validators.ts:137-140 | Every name that an error carries has a last error carrying it. |
| Validators.PresentSuffix | src/validators.ts:132-135 | The `k`-th kept error comes from some validator `i`. The errors kept after it are exactly those of the validators after `i`. |
| Validators.LastErrorIsLastFailure | src/validators.ts:132-140 | The last kept error with a given name comes from an outcome after which no outcome is an error of that name. |
| Validators.CollectEntryIsLast | src/validators.ts:137-140 | The entry of a name in the folded map is the last kept error carrying that name. |
| Validators.ErrorsMapEntryOf | src/validators.ts:132-140 | The entry of one name in the folded map carries that name. It is some outcome, and no later outcome is an error of that name. |
| Validators.ErrorsMapEntryOfValidators | src/validators.ts:132-140 | The same read back through the validators: the entry is the error of some validator, and no later validator reports that name. |
| Validators.ErrorsMapEntryIsLastFailure | src/validators.ts:124-145 | The same for every key of `errorsMap`: each entry is the error of the last validator that reported its name. |
| Validators.PresentFirst | src/validators.ts:135 | The first kept error comes from the first outcome that is an error. |
| Validators.PresentAppend | src/validators.ts:135 | Filtering distributes over concatenation, so relative order is kept. |
| Validators.RunAllAppend | src/validators.ts:132-134 | Running a concatenated list runs each part in turn. |
| Validators.FirstErrorIsFirstFailure | src/validators.ts:132-135 | `errors[0]` is the error of a validator all of whose predecessors passed. |
| Validators.ErrorsInDeclarationOrder | src/validators.ts:132-135 | The errors of `a + b` are those of `a` followed by those of `b`. |
| Validators.HasErrorsIffSomeValidatorFails | src/validators.ts:142 | `hasErrors` holds exactly when some validator returns an error. |
| Validators.RequiredFailsIff | src/validators.ts:14-23 | `required` never throws. It fails exactly for null, undefined, `""` and `false`. |
| Validators.RequiredTrueFailsIff | src/validators.ts:25-34 | `requiredTrue` passes only `true` and otherwise reports the value it got. |
| Validators.Utf16Length | src/validators.ts:39-66 | The `length` a string has in JavaScript: its number of UTF-16 code units. It lies between the number of characters and twice that, and equals the number of characters exactly when no character lies above U+FFFF. |
| Validators.LengthValidatorsOnStrings | src/validators.ts:39-66 | On a string, `minLength(n)` fails exactly when its UTF-16 length is below `n`, and `maxLength(n)` exactly when it is above `n`. Each reports that length and the expected length. |
| Validators.AstralCharacterCountsTwice | src/validators.ts:39-66 | A single emoji (U+1F600) has length 2: it passes `minLength(2)` and fails `maxLength(1)`. |
| Validators.BoundValidatorsOnNumbers | src/validators.ts:67-92 | On a number, `min(m)` fails exactly below `m`, and `max(m)` exactly above `m`. The bound itself passes both. |
| Validators.PatternIsWholeMatch | src/validators.ts:93-108 | On a string, `pattern` passes exactly when the first match is the whole string. On any other value it throws. `regex` behaves the same. |
| Validators.IfFalsePasses | tests/validators.spec.ts:224-232 | A conditional validator whose condition is false passes. |
| Validators.IfShortCircuits | tests/validators.spec.ts:224-232 | When the condition holds and the first inner validator fails, only its error is returned. |
| Validators.FirstErrorFrom | tests/validators.spec.ts:224-232 | From index `i` on, the inner validators report the first error of the remaining list. |
| Validators.IfReportsFirstError | tests/validators.spec.ts:224-232 | When the condition holds, the conditional validator returns the first error that `getErrorProps` would list for its inner validators. |
| Validators.ExtError | src/validators.ts:115-122 | No error maps to `""`. A fault can only come from an error, and it names that error's missing mapping. |
| Validators.ExtErrorWithDefault | tests/validators.spec.ts:304-328 | No error maps to `""`. It fails only for an error whose name has no mapping when there is no `default` mapping either. |
| Validators.ExtErrorFailsIffUnmapped | src/validators.ts:115-122 | `extError` returns `""` for no error and the mapped text for a mapped name. It throws exactly when the error's name has no mapping. |
| Validators.ExtErrorDefaultExtends | tests/validators.spec.ts:304-328 | The `default` mapping changes only the unmapped case, and with it the unmapped case succeeds exactly when `default` exists. |
| Validators.ExtErrorOfPassingField | src/validators.ts:115-118 | Mapping the first error of a field without errors gives `""`. |
| FormControlState.GetInternalState | src/form-control-state.ts:177-191 | One entry per declared field, holding its initial value with both flags cleared. |
| FormControlState.GetInternalStateFromFormData | src/form-control-state.ts:196-212 | One entry per given field, holding the given value, dirty and touched. |
| FormControlState.GetGlobalFormData | src/form-control-state.ts:217-229 | The value of every entry, under the same keys. |
| FormControlState.FormDataRoundTrip | src/form-control-state.ts:196-229 | Reading the values back from a whole-form assignment gives the assigned values. |
| FormControlState.InitialFormData | src/form-control-state.ts:177-191 | The initial snapshot's values are the declared initial values. |
| FormControlState.ReassignMarksEverything | src/form-control-state.ts:196-229 | Re-assigning a form its own values keeps every value but marks every field dirty and touched. |
| FormControlState.DeriveControl | src/form-control-state.ts:110-120 | The control keeps the entry's value and flags, `touchedOrDirty` is their disjunction and `invalid` is `!valid`. It is valid exactly when there are no errors. `error` and `errors` are present exactly when invalid, and `error` is one of the listed errors. |
| FormControlState.ControlOf | src/form-control-state.ts:41-49 | A field's control is derived with the whole snapshot as context. It succeeds exactly when none of its validators throws. It keeps the entry's value and flags, with `touchedOrDirty` as their disjunction. `invalid` is `!valid`. `error` and `errors` are present exactly when invalid. It is valid exactly when every validator passes. |
| FormControlState.ControlErrorIsFirstFailure | src/form-control-state.ts:117-118 | A control's `error` comes from the first failing validator. Its `errors` keys are exactly the names of the failing validators' errors. |
| FormControlState.ControlErrorsAreLastFailures | src/form-control-state.ts:118 | Each name in a control's `errors` maps to an error carrying that name. That error is the one of some validator of the field, and no later validator reports the name. |
| FormControlState.GetDetailedFormData | src/form-control-state.ts:34-172 | It succeeds exactly when no field's validators throw. It then returns exactly the control of every declared field. Otherwise the fault is that of some field. |
| FormControlState.GetGlobalState | src/form-control-state.ts:15-29 | The form is valid when every control is valid, dirty when some control is dirty, and touched when some control is touched. |
| FormControlState.EmptyFormAggregate | src/form-control-state.ts:24-28 | A form without fields is valid, not dirty and not touched. |
| FormControlState.InitialFormIsPristine | src/form-control-state.ts:177-191 | The controls of a freshly created form are neither dirty nor touched in the aggregate. |
| FormControlState.FormValidIffAllPass | src/form-control-state.ts:15-49 | The form is valid exactly when every validator of every field passes on that field's value with the snapshot as context. |
| FormControlState.SetValue | src/form-control-state.ts:51-60 | The field takes the value and becomes touched. It is dirty exactly when the value is not strictly equal to the previous one. Every other field is unchanged. |
| FormControlState.ResetValue | src/form-control-state.ts:62-71 | The field takes the value with both flags cleared, and every other field is unchanged. |
| FormControlState.MarkDirty | src/form-control-state.ts:73-81 | Only the field's `dirty` flag changes, to the given flag. |
| FormControlState.MarkTouched | src/form-control-state.ts:82-90 | Only the field's `touched` flag changes, to the given flag. |
| FormControlState.SetSameValueIsNotDirty | src/form-control-state.ts:51-60 | Setting the value a field already holds leaves it touched, not dirty, and keeps the form data. |
| FormControlState.UpdatersOnFormData | src/form-control-state.ts:51-90 | `setValue` and `resetValue` change the form data at their own field only. The two markers leave it unchanged. |
| FormControlState.ResetAfterSet | src/form-control-state.ts:51-71 | `resetValue` after `setValue` on the same field is the same as `resetValue` alone. |
| FormControlState.SetNumberValue | src/form-control-state.ts:92-101 | `setNumberValue` keeps the set of fields, leaves every other field unchanged and marks its field touched, whatever the text. |
| FormControlState.SetNumberValueCases | src/form-control-state.ts:92-101 | The empty text sets null. A numeric text sets its number. Any other text only marks the field touched. |
| FormControlState.DisplayValue | src/form-control-state.ts:126-166 | Both number adapters render null and undefined as `""`. The React Native number adapter always renders a text. The other adapters, and the web number adapter on a non-null value, render the value itself. |
| FormControlState.OnChange | src/form-control-state.ts:126-166 | Every adapter's change handler keeps the set of fields, leaves every other field unchanged and marks its field touched. |
| FormControlState.OnBlur | src/form-control-state.ts:126-166 | Every adapter's blur handler only marks its field touched; the value, `dirty` and every other field are unchanged. |
| FormControlState.NumberTextRoundTrip | src/form-control-state.ts:134-138 | Feeding a number field's rendered text back through its change handler keeps the value and leaves the field touched, not dirty. |
| FormControlState.NumberDisplay | src/form-control-state.ts:134-138 | The web number adapter renders null as `""` and a number as itself. |
| FormControlState.RnNumberDisplay | src/form-control-state.ts:158-159 | The React Native number adapter renders null as `""` and a number as its decimal text. |
| FormControlState.RejectedNumberText | src/form-control-state.ts:96-100 | A non-numeric text keeps the value and `dirty`, and marks the field touched. |
| FormControlState.CheckboxToggles | src/form-control-state.ts:142-146 | The checkbox handler sets the negated boolean, which marks the field dirty and touched. |
| FormControl.SetValue | src/form-control.ts:129-138 | As written: the field takes the value and becomes touched. It is dirty whenever the field existed, because a record is never identical to a value. A missing field is created, dirty unless the value is `undefined`. Every other field is unchanged. |
| FormControl.SetSameValueStaysDirty | src/form-control.ts:134 | Re-setting `"A"` on a pristine field marks it dirty here, but not dirty in the canonical updater. |
| FormControl.RevisionsDifferOnlyInDirty | src/form-control.ts:129-138 | On an existing field, the two revisions' `setValue` agree exactly when the new value differs from the old one. |
| FormControl.SetNumberValue | src/form-control.ts:170-179 | This revision's `setNumberValue` marks its field touched whatever the text and leaves every other field unchanged. The empty text sets null. The empty or a numeric text makes the field dirty and creates it when missing; only a rejected text needs an existing field. |
| FormControl.OnChange | src/form-control.ts:199-227 | This revision's change handlers mark their field touched and leave every other field unchanged. A handler that sets a value makes the field dirty and creates it when missing; only a rejected number text needs an existing field. |
| FormControl.ChangeHandlersMarkDirty | src/form-control.ts:170-227 | In this revision every change handler keeps the fields and marks the field touched. One that sets a value marks the field dirty, even for the value it already holds. A rejected number text only marks the field touched. |
| FormControl.ChangeHandlersDifferOnlyInDirty | src/form-control.ts:170-227 | This revision's change handlers write the same value, `touched` flag and other fields as the canonical ones. The two agree exactly when no value is set, or the value set differs from the old one. |
| FormControl.NumberRetypeIsDirty | src/form-control.ts:170-179 | Typing a number field's current number again marks it dirty here, and not dirty in the canonical `setNumberValue`. |
| FormControl.SetFormValue | src/form-control.ts:56-58 | The whole-form `setValue` yields exactly the given fields, each dirty and touched, whatever the previous snapshot. |
| FormControl.Reset | src/form-control.ts:60-63 | `reset()` yields the initial snapshot, whatever the previous one. |
| FormControl.SetFormValueMarksAll | src/form-control.ts:56-58 | The whole-form `setValue` replaces the snapshot with the given values, all dirty and touched, and the form data reads back as given. |
| FormControl.ResetRestoresInitial | src/form-control.ts:60-63 | `reset()` restores the initial snapshot, so the initial values with every flag cleared, from any state. |
| FormCtl.GetInternalState | src/form-ctl.ts:122-137 | One entry per declared field, holding its initial value, not dirty. |
| FormCtl.GetInternalStateFromFormData | src/form-ctl.ts:139-152 | One entry per given field, holding the given value, dirty. |
| FormCtl.GetGlobalFormData | src/form-ctl.ts:154-164 | The value of every entry, under the same keys. |
| FormCtl.CtlFormDataRoundTrip | src/form-ctl.ts:139-164 | Reading back a whole-form assignment gives the assigned values. |
| FormCtl.CtlReassignMarksEverything | src/form-ctl.ts:139-164 | Re-assigning a form its own values keeps the values and marks every field dirty. |
| FormCtl.CtlControlOf | src/form-ctl.ts:91-116 | A record is derived without form context. It succeeds exactly when no validator throws. It keeps the value and `dirty`. `invalid` is `!valid`. `error` and `errors` are present exactly when invalid. It is valid exactly when every validator passes. |
| FormCtl.CtlControlErrorIsFirstFailure | src/form-ctl.ts:113-114 | A record's `error` comes from the first failing validator. Its `errors` keys are exactly the names of the failing validators' errors. |
| FormCtl.CtlControlErrorsAreLastFailures | src/form-ctl.ts:114 | Each name in a record's `errors` maps to an error carrying that name. That error is the one of some validator of the field, and no later validator reports the name. |
| FormCtl.CtlControlIsLocal | src/form-ctl.ts:94 | Without context, a field's record depends only on its own entry. |
| FormCtl.GetDetailedFormData | src/form-ctl.ts:84-120 | It succeeds exactly when no field's validators throw. It then returns exactly the record of every declared field. Otherwise the fault is that of some field. |
| FormCtl.GetGlobalState | src/form-ctl.ts:71-82 | Valid when every record is valid, dirty when some record is dirty. |
| FormCtl.CtlInitialFormIsPristine | src/form-ctl.ts:122-137 | A freshly created form is not dirty. |
| FormCtl.CtlAssignedFormIsDirty | src/form-ctl.ts:56-58 | After a whole-form assignment, a non-empty form is dirty. |
| FormCtl.CtlFormValidIffAllPass | src/form-ctl.ts:71-116 | The form is valid exactly when every validator of every field passes on that field's own value. |
| FormCtl.UpdateValue | src/form-ctl.ts:96-104 | The field takes the value and is dirty unconditionally. Every other field is unchanged. |
| FormCtl.UpdateSameValueIsDirty | src/form-ctl.ts:96-104 | Even re-setting the current value marks the field dirty. |
| FormSession.ApplyAllAppend | src/form-control.ts:56-63 | Updaters compose: a history run in two batches equals the second batch applied to the result of the first. |
| FormSession.ResetAfterAnyHistory | src/form-control.ts:43-63 | After any history of updaters, a final `reset()` yields the initial snapshot and the initial values. |
| FormSession.FieldUpdatesAreLocal | src/form-control-state.ts:51-101 | A history of field updaters on existing fields keeps the set of fields. It leaves every field it does not target exactly as it was. |
| FormSession.SetFormDirtiesForm | src/form-control.ts:56-58 | A whole-form assignment makes a non-empty form dirty and touched in the aggregate. |
| Scenarios.UpperPrefix | tests/validators.spec.ts:103-112 | The first match of the expression `[A-Z]*`: the longest prefix of capital letters. |
| Scenarios.RegexRejectsMixedText | tests/validators.spec.ts:104-107 | `regex(/[A-Z]*/)` rejects `"ABCD123"` and `"123123"`. |
| Scenarios.RegexAcceptsCapitals | tests/validators.spec.ts:108-111 | `regex(/[A-Z]*/)` accepts `"ABCDEFG"` and `""`. |
| Scenarios.RequiredScenario | tests/validators.spec.ts:12-39 | The test suite's passing and failing values for `required` and `requiredTrue`, `requiredTrue(false)` included. |
| Scenarios.LengthAndBoundScenario | tests/validators.spec.ts:41-101 | All 18 of the test suite's cases for the length and bound validators, including `minLength(-1)("")` passing and `maxLength(-1)("")` failing. |
| Scenarios.MultipleErrorsScenario | tests/validators.spec.ts:252-278 | `required` and `minLength(3)` on `""` give both errors in order, and the map holds both by name. |
| Scenarios.PasswordScenario | tests/validators.spec.ts:192-222 | A cross-field validator sees the `password` field through the context. It reports `isPasswordSame` on a mismatch and nothing on a match. Without a `password` field it throws. |
| Scenarios.ConditionalScenario | tests/validators.spec.ts:224-232 | `if(() => true, [required])` fails on `""`, and `if(() => false, ...)` passes. |
| Scenarios.ExtErrorScenario | tests/validators.spec.ts:281-328 | Mapped text, `""` without an error, the `default` fallback, and the fault without a mapping. |
| Scenarios.PersonScenario | tests/form-control.spec.ts:23-156 | The name/age form: its initial snapshot and values, a valid pristine `name` control, and `age` rendered as `"22"`. |
| Scenarios.ValidatedFormStart | tests/usage-test.spec.tsx:127-150 | The fresh validated form (earliest revision): `name` and `age` are invalid and not dirty, with the errors `required` and `min 0 < 5`. |
| Scenarios.ValidatedFormTyped | tests/usage-test.spec.tsx:152-162 | After "Mauz" and 4 go through the updaters, `name` is valid and dirty with no error text, and `age` is dirty and invalid with `min 4 < 5`. |
| Scenarios.ValidatedFormCorrected | tests/usage-test.spec.tsx:164-173 | After `age` becomes 22, both fields are valid and dirty and have no error. |

## Left out

- `numeric`, `create` and `createParametrized` from the test suite: `src/validators.ts` has none of them. The last two are identity wrappers, so a `Custom` validator already covers them.
- Numbers.ParseDecimal, Numbers.ToNumber, Numbers.NonNumericText: `+text` and the coercion of `<` and `>` read only an optional sign followed by decimal digits, because field values are integers in this model. Whitespace, fractions, exponents, hexadecimal and `Infinity` count as NaN here, while JavaScript reads `+"5 "` as 5 and `+"1.5"` as 1.5. The consequences:
  - `setNumberValue("1.5")` only marks the field touched here;
  - `min` and `max` on fraction or whitespace text differ from JavaScript. For example, `min(10)("7.5")` passes here but fails in JavaScript;
  - the value domain has no NaN, so FormTypes.StrictEqualsIsEquivalence is reflexive, where JavaScript's `NaN !== NaN` is not.
- Validators.Validate: `min` and `max` on an array count only the empty array as 0. Any other array is NaN, so the comparison is false. A one-element array that JavaScript would coerce through its string is not modelled.
- Key iteration order of `for...in`. The methods visit keys in an unspecified order. When several fields' validators throw, which field's fault escapes is therefore not pinned down. The contracts only say it is one of them.
- The React hooks (`useState`, `useMemo`, `useRef`), React's batching of updaters, and the `outputRef`/`stateRef` identity check that avoids rebuilding the output. These are the binding surface. The model keeps the updaters themselves and their sequential composition.
- `invalid: !valid` on the whole-form output (src/form-control.ts:72, src/form-ctl.ts:66) belongs to the hook's output builder. Only `valid` is modelled.
- DOM and React Native events: only the text or flag that a change handler passes on is modelled.
- Regular-expression matching in general. A pattern is its `match` function; the one concrete expression the tests use is defined in `Scenarios`.
- The `this` binding of `regex`: it calls `this.pattern`, which works only when called as `Validators.regex`. The model identifies `regex` with `pattern`.
- The condition of `Validators.If` is a total function here. A condition that throws in JavaScript is not modelled; a `Custom` validator may throw.
- The built-in validators return `null` while the tests expect `undefined`. Both mean "no error" to `getErrorProps`, and both are `None` here.
- FormControlState.GetDetailedFormData and FormCtl.GetDetailedFormData require every declared field to have an entry. The source would throw on destructuring a missing entry. Two paths can lead there: a whole-form `setValue` builds the snapshot from the caller's value map (src/form-control.ts:56-58), and the hook derives controls from the current specification over the snapshot made at the first render (src/form-control.ts:43-51). The requirement holds as long as every whole-form assignment supplies every declared field and the specification keeps its fields; FormSession.SetFormDirtiesForm requires the same of its value map.
- FormControlState.SetValue, MarkDirty, MarkTouched and SetNumberValue require the field to exist. This matters only for a field missing from the snapshot, and controls exist only for declared fields. On such a field the source behaves as follows:
  - the `setValue` of src/form-control-state.ts:56 would throw reading `.value` of `undefined`;
  - `markDirty` and `markTouched` would create an entry holding only the one flag, because spreading `undefined` adds nothing.
- FormControl.SetNumberValue and OnChange require the field to exist only when the text is rejected as a number. The `setValue` of src/form-control.ts:129-138 never reads `.value`: on a missing field it creates a full entry, and the model does the same. A rejected text goes to `markTouched`, which on a missing field would create a touched-only entry; that case is not modelled.
- The control records' callback members (`setValue`, `markTouched`, the `*Props` helpers) are not fields of `Control`. Their behaviour is the updater functions and `OnChange`/`OnBlur`.
- src/types/state.ts, src/form-control-hook.ts and src/index.ts hold types, a wrapper hook and re-exports. They are not part of this model.

## Findings

| source | as written | input that shows it | evidently intended | confidence | as-written member | corrected member |
|---|---|---|---|---|---|---|
| src/form-control.ts:134 | `dirty: oldState[key] !== value` compares the whole entry record `{ value, dirty, touched }` with the new value, which is always true | a pristine field holding `"A"`, then `setValue("A")`: it becomes dirty | `oldState[key].value !== value`, as src/form-control-state.ts:56 writes it: dirty only when the value changes | high, not executed | FormControl.SetSameValueStaysDirty | FormControlState.SetSameValueIsNotDirty |
