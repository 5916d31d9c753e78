/**
 * Concrete instances of the model on the inputs the repository's own test suites
 * use: each lemma states the outcome those tests expect.
 */
module Scenarios {
  import opened Wrappers
  import opened FormTypes
  import opened Validators
  import opened Numbers
  import opened FormControlState
  import FormCtl

  // ---------------------------------------------------------------------------
  // Built-in validators

  predicate IsUpper(c: char) {
    'A' <= c <= 'Z'
  }

  /** The longest prefix of `s` made of capital letters. */
  function UpperPrefix(s: string): (p: string)
    ensures |p| <= |s| && p == s[..|p|]
    ensures forall i | 0 <= i < |p| :: IsUpper(p[i])
    ensures |p| < |s| ==> !IsUpper(s[|p|])
  {
    if s == [] || !IsUpper(s[0]) then "" else [s[0]] + UpperPrefix(s[1..])
  }

  // The expression [A-Z] repeated zero or more times: it matches at offset 0 already, so the first match is the capital prefix.
  const UpperLetters := Regexp(s => Some(UpperPrefix(s)))

  lemma RegexRejectsMixedText()
    ensures Validate(Regex(UpperLetters), Str("ABCD123"), None) == Success(Some(Error("pattern", map["got" := Str("ABCD123")])))
    ensures Validate(Regex(UpperLetters), Str("123123"), None) == Success(Some(Error("pattern", map["got" := Str("123123")])))
  {
    assert !IsUpper("ABCD123"[4]);
  }

  lemma RegexAcceptsCapitals()
    ensures Validate(Regex(UpperLetters), Str("ABCDEFG"), None) == Success(None)
    ensures Validate(Regex(UpperLetters), Str(""), None) == Success(None)
  {
    var s := "ABCDEFG";
    assert UpperPrefix(s[6..]) == s[6..];
    assert UpperPrefix(s[5..]) == s[5..];
    assert UpperPrefix(s[4..]) == s[4..];
    assert UpperPrefix(s[3..]) == s[3..];
    assert UpperPrefix(s[2..]) == s[2..];
    assert UpperPrefix(s[1..]) == s[1..];
    assert UpperPrefix(s) == s;
  }

  lemma RequiredScenario()
    ensures forall v | v in [Null, Undefined, Str(""), Bool(false)] :: Validate(Required, v, None).value.Some?
    ensures forall v | v in [Str("TEST"), Str("null"), Str("false"), Str("0"), Arr(0, 0), Obj(1), Bool(true)] ::
      Validate(Required, v, None) == Success(None)
    ensures Validate(RequiredTrue, Str("true"), None).value.Some?
    ensures Validate(RequiredTrue, Undefined, None).value.Some?
    ensures Validate(RequiredTrue, Bool(false), None).value.Some?
    ensures Validate(RequiredTrue, Bool(true), None) == Success(None)
  {
  }

  lemma LengthAndBoundScenario()
    ensures Validate(MinLength(5), Str("TEST"), None).value.Some?
    ensures Validate(MinLength(5), Str("TESTTEST"), None) == Success(None)
    ensures Validate(MinLength(-1), Str(""), None) == Success(None)
    ensures Validate(MinLength(4), Str("1234"), None) == Success(None)
    ensures Validate(MaxLength(3), Str("TEST"), None).value.Some?
    ensures Validate(MaxLength(-1), Str(""), None).value.Some?
    ensures Validate(MaxLength(5), Str("TEST"), None) == Success(None)
    ensures Validate(MaxLength(4), Str("1234"), None) == Success(None)
    ensures Validate(Min(5), Num(4), None).value.Some?
    ensures Validate(Min(5), Num(5), None) == Success(None)
    ensures Validate(Min(5), Num(6), None) == Success(None)
    ensures Validate(Min(4), Num(-1), None).value.Some?
    ensures Validate(Min(-1), Num(4), None) == Success(None)
    ensures Validate(Max(-1), Num(5), None).value.Some?
    ensures Validate(Max(5), Num(6), None).value.Some?
    ensures Validate(Max(5), Num(5), None) == Success(None)
    ensures Validate(Max(5), Num(4), None) == Success(None)
    ensures Validate(Max(4), Num(-1), None) == Success(None)
  {
  }

  // ---------------------------------------------------------------------------
  // getErrorProps

  /** `required` and `minLength(3)` both fail on the empty text, reported in that order. */
  lemma MultipleErrorsScenario()
    ensures var req := Error("required", map["got" := Str("")]);
      var minLen := LengthError("minLength", Str(""), 0, 3);
      GetErrorProps(Str(""), Some([Required, MinLength(3)]), None) ==
        Success(ErrorProps([req, minLen], map["required" := req, "minLength" := minLen], true))
  {
    var req := Error("required", map["got" := Str("")]);
    var minLen := LengthError("minLength", Str(""), 0, 3);
    assert Validate(Required, Str(""), None) == Success(Some(req));
    assert Validate(MinLength(3), Str(""), None) == Success(Some(minLen));
    assert RunAll([Required, MinLength(3)], Str(""), None).value == [Some(req), Some(minLen)];
    assert Present([Some(req), Some(minLen)]) == [req, minLen];
  }

  /**
   * A cross-field rule: the repeated password must equal the `password` field.
   * Reading `values.password.value` throws when the context has no such field.
   */
  function PasswordSame(v: Value, ctx: Context): Result<Option<Error>, Fault> {
    if ctx.None? || "password" !in ctx.value then Failure(Thrown("values.password is undefined"))
    else if StrictEquals(v, ctx.value["password"].value) then Success(None)
    else Success(Some(Error("isPasswordSame", map[])))
  }

  lemma PasswordScenario()
    ensures GetErrorProps(Str("123"), Some([Custom(PasswordSame)]), Some(map["password" := Entry(Str("abc"), true, true)])).value.hasErrors
    ensures !GetErrorProps(Str("123"), Some([Custom(PasswordSame)]), Some(map["password" := Entry(Str("123"), true, true)])).value.hasErrors
    ensures GetErrorProps(Str("123"), Some([Custom(PasswordSame)]), Some(map[])).Failure?
  {
  }

  /** `Validators.if(() => is, [required])` on the empty text. */
  lemma ConditionalScenario()
    ensures GetErrorProps(Str(""), Some([If((v, c) => true, [Required])]), None).value.hasErrors
    ensures !GetErrorProps(Str(""), Some([If((v, c) => false, [Required])]), None).value.hasErrors
  {
    assert Validate(If((v, c) => true, [Required]), Str(""), None) == Success(Some(Error("required", map["got" := Str("")])));
  }

  lemma ExtErrorScenario()
    ensures var e := Some(Error("required", map["got" := Str("")]));
      && ExtError(map["required" := (err: Error) => "req"], e) == Success("req")
      && ExtError(map["required" := (err: Error) => "req"], None) == Success("")
      && ExtErrorWithDefault(map["default" := (err: Error) => "default"], e) == Success("default")
      && ExtError(map[], e) == Failure(MappingNotAFunction("required"))
      && ExtErrorWithDefault(map[], e) == Failure(NoErrorMapping("required"))
  {
  }

  // ---------------------------------------------------------------------------
  // Form state

  /** The fields `name`, `age` and `isOldEnough` of the form tests, without validators. */
  function PersonSpec(): Spec {
    map[
      "name" := FieldSpec(Str("Maurice"), None),
      "age" := FieldSpec(Num(22), None),
      "isOldEnough" := FieldSpec(Bool(true), None)]
  }

  lemma PersonScenario()
    ensures InitialSnapshot(PersonSpec()).Keys == {"name", "age", "isOldEnough"}
    ensures InitialValues(PersonSpec()) == map["name" := Str("Maurice"), "age" := Num(22), "isOldEnough" := Bool(true)]
    ensures ControlOf(PersonSpec(), InitialSnapshot(PersonSpec()), "name") ==
      Success(Control(Str("Maurice"), true, false, false, false, false, None, None))
    ensures DisplayValue(RnNumberInputProps, Num(22)) == Str("22")
  {
    InitialFormData(PersonSpec());
    assert IntToString(22) == "22" by {
      assert NatToDigits(22) == NatToDigits(2) + [DigitChar(2)];
    }
  }

  // ---------------------------------------------------------------------------
  // A validated form driven through its updaters (earliest revision)

  /** `name` is required, `age` must be at least 5, `isOldEnough` has no validators. */
  function ValidatedSpec(): Spec {
    map[
      "name" := FieldSpec(Str(""), Some([Required])),
      "age" := FieldSpec(Num(0), Some([Min(5)])),
      "isOldEnough" := FieldSpec(Bool(false), None)]
  }

  /** The number a named error property holds, as a template literal renders it. */
  function PropText(e: Error, name: string): string {
    if name in e.props && e.props[name].Num? then IntToString(e.props[name].n) else ""
  }

  /** The error mappings of the validated form: `required` and `` min ${got} < ${expected} ``. */
  const ValidatedErrorMap: map<string, Error -> string> := map[
    "required" := (e: Error) => "required",
    "min" := (e: Error) => "min " + PropText(e, "got") + " < " + PropText(e, "expected")]

  /** The form after typing "Mauz" into `name` and 4 into `age`. */
  function TypedState(): FormCtl.CtlSnapshot {
    FormCtl.UpdateValue("age", Num(4), FormCtl.UpdateValue("name", Str("Mauz"), FormCtl.CtlInitialSnapshot(ValidatedSpec())))
  }

  /** The fresh form: both validated fields fail, neither is dirty. */
  lemma ValidatedFormStart()
    ensures var s := FormCtl.CtlInitialSnapshot(ValidatedSpec());
      var nameError := Error("required", map["got" := Str("")]);
      var ageError := BoundError("min", Num(0), 5);
      && FormCtl.CtlControlOf(ValidatedSpec(), s, "name") ==
        Success(FormCtl.CtlControl(Str(""), false, true, false, Some(nameError), Some(map["required" := nameError])))
      && FormCtl.CtlControlOf(ValidatedSpec(), s, "age") ==
        Success(FormCtl.CtlControl(Num(0), false, true, false, Some(ageError), Some(map["min" := ageError])))
      && ExtError(ValidatedErrorMap, Some(nameError)) == Success("required")
      && ExtError(ValidatedErrorMap, Some(ageError)) == Success("min 0 < 5")
  {
    var ageError := BoundError("min", Num(0), 5);
    assert PropText(ageError, "got") == IntToString(0) == "0";
    assert PropText(ageError, "expected") == IntToString(5) == "5";
    assert ValidatedErrorMap["min"](ageError) == "min " + "0" + " < " + "5" == "min 0 < 5";
  }

  /** After "Mauz" and 4: `name` passes and both fields are dirty; `age` still fails. */
  lemma ValidatedFormTyped()
    ensures var ageError := BoundError("min", Num(4), 5);
      && FormCtl.CtlControlOf(ValidatedSpec(), TypedState(), "name") ==
        Success(FormCtl.CtlControl(Str("Mauz"), true, false, true, None, None))
      && FormCtl.CtlControlOf(ValidatedSpec(), TypedState(), "age") ==
        Success(FormCtl.CtlControl(Num(4), false, true, true, Some(ageError), Some(map["min" := ageError])))
      && ExtError(ValidatedErrorMap, None) == Success("")
      && ExtError(ValidatedErrorMap, Some(ageError)) == Success("min 4 < 5")
  {
    var ageError := BoundError("min", Num(4), 5);
    assert PropText(ageError, "got") == IntToString(4) == "4";
    assert PropText(ageError, "expected") == IntToString(5) == "5";
    assert ValidatedErrorMap["min"](ageError) == "min " + "4" + " < " + "5" == "min 4 < 5";
  }

  /** After changing `age` to 22: both validated fields pass and stay dirty. */
  lemma ValidatedFormCorrected()
    ensures var s := FormCtl.UpdateValue("age", Num(22), TypedState());
      && FormCtl.CtlControlOf(ValidatedSpec(), s, "name") ==
        Success(FormCtl.CtlControl(Str("Mauz"), true, false, true, None, None))
      && FormCtl.CtlControlOf(ValidatedSpec(), s, "age") ==
        Success(FormCtl.CtlControl(Num(22), true, false, true, None, None))
  {
  }
}
