/**
 * The validator engine of src/validators.ts: the built-in validators, the
 * evaluation of a validator list into an ordered error list plus a name-keyed
 * map (`getErrorProps`), and the mapping of an error to a message (`extError`).
 *
 * A validator is a function `(value, formContext) -> error | absent`. In
 * JavaScript some validators throw on values of the wrong shape (`null.length`,
 * `(5).match(...)`); those exceptions are the `Fault` side of a `Result`.
 */
module Validators {
  import opened Wrappers
  import opened FormTypes
  import opened Numbers

  /** An error record `{ name, ...props }`; built-ins always set `got`. */
  datatype Error = Error(name: string, props: map<string, Value>)

  /** An exception raised while validating or while mapping an error to a message. */
  datatype Fault =
    | LengthOfNullish(got: Value)        // `value.length` read on null or undefined
    | MatchOnNonString(got: Value)       // `value.match(pattern)` on a value that is not a string
    | MappingNotAFunction(name: string)  // `extError` calls `map[error.name]` when it is undefined
    | NoErrorMapping(name: string)       // the descriptive failure of the `default`-aware `extError`
    | Thrown(reason: string)             // an exception raised by a caller-written validator

  /** The form context a validator sees: the whole snapshot, or nothing at all. */
  type Context = Option<Snapshot>

  /**
   * A regular expression, seen only through `String.prototype.match`: the
   * first match of the expression in a string, if there is one.
   */
  datatype Regexp = Regexp(firstMatch: string -> Option<string>)

  /**
   * The validators a field can declare. `Custom` is any caller-written
   * validator function, which may throw; `If` is the conditional combinator (an extension: it
   * is exercised by the repository's tests but is not part of validators.ts).
   */
  datatype Validator =
    | Required
    | RequiredTrue
    | MinLength(length: int)
    | MaxLength(length: int)
    | Min(bound: int)
    | Max(bound: int)
    | Pattern(pattern: Regexp)
    | Custom(check: (Value, Context) -> Result<Option<Error>, Fault>)
    | If(condition: (Value, Context) -> bool, validators: seq<Validator>)

  /** `Validators.regex(re)`, which delegates to `Validators.pattern(re)`. */
  function Regex(re: Regexp): Validator {
    Pattern(re)
  }

  /**
   * A string's `length` in JavaScript: the number of UTF-16 code units, so a
   * character outside the Basic Multilingual Plane (above U+FFFF) counts twice.
   */
  function Utf16Length(s: string): (n: nat)
    ensures |s| <= n <= 2 * |s|
    ensures n == |s| <==> forall i | 0 <= i < |s| :: s[i] as int <= 0xFFFF
  {
    if s == [] then 0
    else Utf16Length(s[..|s| - 1]) + (if s[|s| - 1] as int > 0xFFFF then 2 else 1)
  }

  /**
   * `value.length`: a fault on null and undefined, `None` (undefined) for
   * values without a length, such as numbers, booleans and plain objects.
   */
  function LengthOf(value: Value): Result<Option<int>, Fault> {
    match value
    case Null => Failure(LengthOfNullish(value))
    case Undefined => Failure(LengthOfNullish(value))
    case Str(s) => Success(Some(Utf16Length(s)))
    case Arr(_, length) => Success(Some(length))
    case _ => Success(None)
  }

  function LengthError(name: string, value: Value, length: int, expected: int): Error {
    Error(name, map["got" := value, "length" := Num(length), "expectedLength" := Num(expected)])
  }

  function BoundError(name: string, value: Value, expected: int): Error {
    Error(name, map["got" := value, "expected" := Num(expected)])
  }

  /** Runs one validator on a value; `Success(None)` means the validator passes. */
  function Validate(v: Validator, value: Value, ctx: Context): Result<Option<Error>, Fault>
    decreases v, 1
  {
    match v
    case Required =>
      Success(if IsNullish(value) || value == Str("") || value == Bool(false)
              then Some(Error("required", map["got" := value])) else None)
    case RequiredTrue =>
      Success(if value != Bool(true) then Some(Error("requiredTrue", map["got" := value])) else None)
    case MinLength(n) =>
      (match LengthOf(value)
       case Failure(f) => Failure(f)
       case Success(len) =>
         // comparing `undefined` with a number is false
         Success(if len.Some? && len.value < n then Some(LengthError("minLength", value, len.value, n)) else None))
    case MaxLength(n) =>
      (match LengthOf(value)
       case Failure(f) => Failure(f)
       case Success(len) =>
         Success(if len.Some? && len.value > n then Some(LengthError("maxLength", value, len.value, n)) else None))
    case Min(m) =>
      var x := ToNumber(value);
      Success(if x.Some? && x.value < m then Some(BoundError("min", value, m)) else None)
    case Max(m) =>
      var x := ToNumber(value);
      Success(if x.Some? && x.value > m then Some(BoundError("max", value, m)) else None)
    case Pattern(re) =>
      if !value.Str? then Failure(MatchOnNonString(value))
      else
        var found := re.firstMatch(value.s);
        Success(if found.Some? && value.s == found.value then None else Some(Error("pattern", map["got" := value])))
    case Custom(check) =>
      check(value, ctx)
    case If(condition, _) =>
      if condition(value, ctx) then FirstError(v, value, ctx, 0) else Success(None)
  }

  /**
   * What every built-in validator does on any value: only the length
   * validators (on null and undefined) and `pattern` (on a non-string) throw,
   * and every built-in error reports the value it got.
   */
  lemma BuiltInOutcomes(v: Validator, value: Value, ctx: Context)
    requires !(v.Custom? || v.If?)
    ensures var r := Validate(v, value, ctx);
      r.Failure? <==> ((v.MinLength? || v.MaxLength?) && IsNullish(value)) || (v.Pattern? && !value.Str?)
    ensures var r := Validate(v, value, ctx);
      r.Success? && r.value.Some? ==> "got" in r.value.value.props && r.value.value.props["got"] == value
  {
  }

  /** The first error among the validators of an `If` from index `i` on, stopping there. */
  function FirstError(v: Validator, value: Value, ctx: Context, i: nat): Result<Option<Error>, Fault>
    requires v.If? && i <= |v.validators|
    decreases v, 0, |v.validators| - i
  {
    if i == |v.validators| then Success(None)
    else
      var outcome := Validate(v.validators[i], value, ctx);
      if outcome != Success(None) then outcome
      else FirstError(v, value, ctx, i + 1)
  }

  /**
   * The scan stops at the first inner validator that fails or throws: what it
   * returns comes from a validator all of whose predecessors from `i` on
   * passed, and it returns no error exactly when all of them pass.
   */
  lemma {:induction false} FirstErrorScan(v: Validator, value: Value, ctx: Context, i: nat)
    requires v.If? && i <= |v.validators|
    ensures var r := FirstError(v, value, ctx, i);
      r != Success(None) ==>
        exists j | i <= j < |v.validators| ::
          && Validate(v.validators[j], value, ctx) == r
          && forall k | i <= k < j :: Validate(v.validators[k], value, ctx) == Success(None)
    ensures FirstError(v, value, ctx, i) == Success(None) <==>
      forall j | i <= j < |v.validators| :: Validate(v.validators[j], value, ctx) == Success(None)
    decreases |v.validators| - i
  {
    if i < |v.validators| {
      var outcome := Validate(v.validators[i], value, ctx);
      if outcome != Success(None) {
        assert Validate(v.validators[i], value, ctx) == FirstError(v, value, ctx, i);
      } else {
        FirstErrorScan(v, value, ctx, i + 1);
        var rest := FirstError(v, value, ctx, i + 1);
        if rest != Success(None) {
          var j :| i + 1 <= j < |v.validators| && Validate(v.validators[j], value, ctx) == rest &&
            forall k | i + 1 <= k < j :: Validate(v.validators[k], value, ctx) == Success(None);
          assert forall k | i <= k < j :: Validate(v.validators[k], value, ctx) == Success(None);
        }
      }
    }
  }

  // ---------------------------------------------------------------------------
  // getErrorProps

  /** The result of `getErrorProps`. */
  datatype ErrorProps = ErrorProps(errors: seq<Error>, errorsMap: map<string, Error>, hasErrors: bool)

  /** `validators ?? []`: an absent list is treated as empty. */
  function ValidatorList(validators: Option<seq<Validator>>): seq<Validator> {
    if validators.None? then [] else validators.value
  }

  /** The `map` step: every validator's outcome, in order; the first exception escapes. */
  function RunAll(vs: seq<Validator>, value: Value, ctx: Context): (r: Result<seq<Option<Error>>, Fault>)
    ensures r.Success? <==> forall i | 0 <= i < |vs| :: Validate(vs[i], value, ctx).Success?
    ensures r.Success? ==> |r.value| == |vs| && forall i | 0 <= i < |vs| :: Validate(vs[i], value, ctx) == Success(r.value[i])
    ensures r.Failure? ==>
      exists i | 0 <= i < |vs| ::
        && Validate(vs[i], value, ctx) == Failure(r.error)
        && forall j | 0 <= j < i :: Validate(vs[j], value, ctx).Success?
  {
    if vs == [] then Success([])
    else
      match Validate(vs[0], value, ctx)
      case Failure(f) => Failure(f)
      case Success(o) =>
        var rest := RunAll(vs[1..], value, ctx);
        assert forall i | 1 <= i < |vs| :: vs[i] == vs[1..][i - 1];
        match rest
        case Failure(f) =>
          var i :| 0 <= i < |vs[1..]| && Validate(vs[1..][i], value, ctx) == Failure(f) &&
            forall j | 0 <= j < i :: Validate(vs[1..][j], value, ctx).Success?;
          assert Validate(vs[i + 1], value, ctx) == Failure(f);
          Failure(f)
        case Success(os) => Success([o] + os)
  }

  /** The `filter` step: the outcomes that are errors, in order. */
  function Present(outcomes: seq<Option<Error>>): (errors: seq<Error>)
    ensures |errors| <= |outcomes|
    ensures forall e :: e in errors <==> Some(e) in outcomes
  {
    if outcomes == [] then []
    else
      assert forall o :: o in outcomes <==> o == outcomes[0] || o in outcomes[1..];
      (if outcomes[0].Some? then [outcomes[0].value] else []) + Present(outcomes[1..])
  }

  /** The `reduce` step: later errors overwrite earlier ones with the same name. */
  function CollectByName(acc: map<string, Error>, errors: seq<Error>): map<string, Error>
    decreases |errors|
  {
    if errors == [] then acc else CollectByName(acc[errors[0].name := errors[0]], errors[1..])
  }

  /** The names of a list of errors. */
  function NamesOf(errors: seq<Error>): set<string> {
    set i | 0 <= i < |errors| :: errors[i].name
  }

  /** No later error in the list has the same name as `errors[i]`. */
  predicate LastWithName(errors: seq<Error>, i: nat)
    requires i < |errors|
  {
    forall j | i < j < |errors| :: errors[j].name != errors[i].name
  }

  /**
   * `getErrorProps(value, validators, formContext)`: runs the validators in
   * declaration order and reports the errors, the errors by name and whether
   * there were any.
   */
  function GetErrorProps(value: Value, validators: Option<seq<Validator>>, ctx: Context): (r: Result<ErrorProps, Fault>)
    ensures validators.None? ==> r == Success(ErrorProps([], map[], false))
    ensures var vs := ValidatorList(validators);
      r.Success? <==> forall i | 0 <= i < |vs| :: Validate(vs[i], value, ctx).Success?
    ensures var vs := ValidatorList(validators);
      r.Success? ==>
        forall e :: e in r.value.errors <==> exists i | 0 <= i < |vs| :: Validate(vs[i], value, ctx) == Success(Some(e))
    ensures r.Success? ==> (r.value.hasErrors <==> r.value.errors != [])
    ensures r.Success? ==> r.value.errorsMap.Keys == NamesOf(r.value.errors)
  {
    var vs := ValidatorList(validators);
    match RunAll(vs, value, ctx)
    case Failure(f) => Failure(f)
    case Success(outcomes) =>
      var errors := Present(outcomes);
      CollectKeys(map[], errors);
      assert forall e :: Some(e) in outcomes <==> exists i | 0 <= i < |vs| :: Validate(vs[i], value, ctx) == Success(Some(e)) by {
        forall e ensures Some(e) in outcomes <==> exists i | 0 <= i < |vs| :: Validate(vs[i], value, ctx) == Success(Some(e)) {
          if Some(e) in outcomes {
            var i :| 0 <= i < |outcomes| && outcomes[i] == Some(e);
            assert Validate(vs[i], value, ctx) == Success(Some(e));
          }
        }
      }
      Success(ErrorProps(errors, CollectByName(map[], errors), |errors| != 0))
  }

  lemma {:induction false} CollectKeys(acc: map<string, Error>, errors: seq<Error>)
    ensures CollectByName(acc, errors).Keys == acc.Keys + NamesOf(errors)
    decreases |errors|
  {
    if errors != [] {
      CollectKeys(acc[errors[0].name := errors[0]], errors[1..]);
      assert NamesOf(errors) == {errors[0].name} + NamesOf(errors[1..]) by {
        forall n ensures n in NamesOf(errors) <==> n == errors[0].name || n in NamesOf(errors[1..]) {
          if n in NamesOf(errors) {
            var i :| 0 <= i < |errors| && errors[i].name == n;
            if i > 0 { assert errors[1..][i - 1].name == n; }
          }
          if n in NamesOf(errors[1..]) {
            var i :| 0 <= i < |errors[1..]| && errors[1..][i].name == n;
            assert errors[i + 1].name == n;
          }
        }
      }
    }
  }

  /** An entry that no later error overwrites keeps its value. */
  lemma {:induction false} CollectKeeps(acc: map<string, Error>, errors: seq<Error>, n: string)
    requires n in acc && n !in NamesOf(errors)
    ensures n in CollectByName(acc, errors) && CollectByName(acc, errors)[n] == acc[n]
    decreases |errors|
  {
    if errors != [] {
      assert errors[0].name in NamesOf(errors);
      assert NamesOf(errors[1..]) <= NamesOf(errors) by {
        forall m | m in NamesOf(errors[1..]) ensures m in NamesOf(errors) {
          var i :| 0 <= i < |errors[1..]| && errors[1..][i].name == m;
          assert errors[i + 1].name == m;
        }
      }
      CollectKeeps(acc[errors[0].name := errors[0]], errors[1..], n);
    }
  }

  /** In the folded map, the entry of a name is the last error carrying that name. */
  lemma {:induction false} CollectLastWins(acc: map<string, Error>, errors: seq<Error>, i: nat)
    requires i < |errors| && LastWithName(errors, i)
    ensures errors[i].name in CollectByName(acc, errors)
    ensures CollectByName(acc, errors)[errors[i].name] == errors[i]
    decreases |errors|
  {
    var next := acc[errors[0].name := errors[0]];
    if i == 0 {
      assert errors[0].name !in NamesOf(errors[1..]) by {
        forall j | 0 <= j < |errors[1..]| ensures errors[1..][j].name != errors[0].name {
          assert errors[1..][j] == errors[j + 1];
        }
      }
      CollectKeeps(next, errors[1..], errors[0].name);
    } else {
      assert LastWithName(errors[1..], i - 1) by {
        forall j | i - 1 < j < |errors[1..]| ensures errors[1..][j].name != errors[1..][i - 1].name {
          assert errors[1..][j] == errors[j + 1];
        }
      }
      CollectLastWins(next, errors[1..], i - 1);
    }
  }

  /**
   * `errorsMap` has exactly the error names as keys, and the entry for a name
   * is the last error of that name (a later error overwrites an earlier one).
   */
  lemma ErrorsMapIsLastByName(value: Value, validators: Option<seq<Validator>>, ctx: Context)
    requires GetErrorProps(value, validators, ctx).Success?
    ensures var p := GetErrorProps(value, validators, ctx).value;
      && p.errorsMap.Keys == NamesOf(p.errors)
      && forall i | 0 <= i < |p.errors| && LastWithName(p.errors, i) :: p.errorsMap[p.errors[i].name] == p.errors[i]
  {
    var p := GetErrorProps(value, validators, ctx).value;
    forall i | 0 <= i < |p.errors| && LastWithName(p.errors, i) ensures p.errorsMap[p.errors[i].name] == p.errors[i] {
      CollectLastWins(map[], p.errors, i);
    }
  }

  /** A name that some error carries has a last error carrying it. */
  lemma {:induction false} LastIndexOfName(errors: seq<Error>, n: string)
    requires n in NamesOf(errors)
    ensures exists k | 0 <= k < |errors| :: errors[k].name == n && LastWithName(errors, k)
    decreases |errors|
  {
    var m := |errors| - 1;
    if errors[m].name != n {
      var init := errors[..m];
      var j :| 0 <= j < |errors| && errors[j].name == n;
      assert init[j].name == n;
      LastIndexOfName(init, n);
      var k :| 0 <= k < |init| && init[k].name == n && LastWithName(init, k);
      forall t | k < t < |errors| ensures errors[t].name != errors[k].name {
        if t < m {
          assert errors[t] == init[t];
        }
      }
      assert errors[k] == init[k];
    }
  }

  /** Filtering a non-empty list: the head's error, if any, then the filtered tail. */
  lemma PresentCons(outcomes: seq<Option<Error>>)
    requires outcomes != []
    ensures Present(outcomes) == (if outcomes[0].Some? then [outcomes[0].value] else []) + Present(outcomes[1..])
  {
  }

  /**
   * The `k`-th kept error sits at some position `i` of the outcomes, and the
   * errors kept after it are exactly those of the outcomes after `i`.
   */
  lemma {:induction false} PresentSuffix(outcomes: seq<Option<Error>>, k: nat)
    requires k < |Present(outcomes)|
    ensures exists i | 0 <= i < |outcomes| ::
      && outcomes[i] == Some(Present(outcomes)[k])
      && Present(outcomes[i + 1..]) == Present(outcomes)[k + 1..]
    decreases |outcomes|
  {
    var rest := outcomes[1..];
    var all := Present(outcomes);
    var tail := Present(rest);
    PresentCons(outcomes);
    if outcomes[0].Some? && k == 0 {
      assert all[1..] == tail;
      assert outcomes[0] == Some(all[0]);
    } else {
      var head := if outcomes[0].Some? then [outcomes[0].value] else [];
      assert all == head + tail;
      var k' := k - |head|;
      assert all[k] == tail[k'];
      assert all[k + 1..] == tail[k' + 1..];
      PresentSuffix(rest, k');
      var i :| 0 <= i < |rest| && rest[i] == Some(tail[k']) && Present(rest[i + 1..]) == tail[k' + 1..];
      assert outcomes[i + 1 + 1..] == rest[i + 1..];
      assert outcomes[i + 1] == rest[i];
    }
  }

  /** An outcome `e` after which no outcome carries an error named `name`. */
  predicate LastOutcomeWithName(outcomes: seq<Option<Error>>, i: nat, e: Error, name: string) {
    && i < |outcomes| && outcomes[i] == Some(e)
    && forall j | i < j < |outcomes| && outcomes[j].Some? :: outcomes[j].value.name != name
  }

  /**
   * The last kept error with a given name comes from an outcome after which
   * no outcome is an error of that name.
   */
  lemma LastErrorIsLastFailure(outcomes: seq<Option<Error>>, errors: seq<Error>, k: nat)
    requires errors == Present(outcomes) && k < |errors| && LastWithName(errors, k)
    ensures exists i :: LastOutcomeWithName(outcomes, i, errors[k], errors[k].name)
  {
    PresentSuffix(outcomes, k);
    var i :| 0 <= i < |outcomes| && outcomes[i] == Some(errors[k]) && Present(outcomes[i + 1..]) == errors[k + 1..];
    var later, kept, name := outcomes[i + 1..], errors[k + 1..], errors[k].name;
    assert forall t | 0 <= t < |kept| :: kept[t].name != name by {
      forall t | 0 <= t < |kept| ensures kept[t].name != name {
        assert kept[t] == errors[k + 1 + t];
      }
    }
    NoLaterName(later, kept, name);
    forall j | i < j < |outcomes| && outcomes[j].Some?
      ensures outcomes[j].value.name != name
    {
      assert outcomes[j] == later[j - i - 1];
    }
    assert LastOutcomeWithName(outcomes, i, errors[k], name);
  }

  /** When no kept error carries a name, no outcome does. */
  lemma NoLaterName(later: seq<Option<Error>>, kept: seq<Error>, name: string)
    requires kept == Present(later) && forall t | 0 <= t < |kept| :: kept[t].name != name
    ensures forall j | 0 <= j < |later| && later[j].Some? :: later[j].value.name != name
  {
    forall j | 0 <= j < |later| && later[j].Some? ensures later[j].value.name != name {
      assert later[j] in later;
      assert later[j].value in kept;
    }
  }

  /** The entry of a name in the folded map is the last error carrying that name. */
  lemma CollectEntryIsLast(errors: seq<Error>, n: string)
    requires n in CollectByName(map[], errors)
    ensures exists k | 0 <= k < |errors| ::
      && errors[k].name == n && LastWithName(errors, k)
      && CollectByName(map[], errors)[n] == errors[k]
  {
    CollectKeys(map[], errors);
    LastIndexOfName(errors, n);
    var k :| 0 <= k < |errors| && errors[k].name == n && LastWithName(errors, k);
    CollectLastWins(map[], errors, k);
  }

  /**
   * The entry of one name in the map folded from the kept errors carries that
   * name, and comes from an outcome after which no outcome reports the name.
   */
  lemma ErrorsMapEntryOf(outcomes: seq<Option<Error>>, p: ErrorProps, n: string)
    requires p.errors == Present(outcomes) && p.errorsMap == CollectByName(map[], p.errors)
    requires n in p.errorsMap
    ensures p.errorsMap[n].name == n
    ensures exists i :: LastOutcomeWithName(outcomes, i, p.errorsMap[n], n)
  {
    CollectEntryIsLast(p.errors, n);
    var k :| 0 <= k < |p.errors| && p.errors[k].name == n && LastWithName(p.errors, k) && p.errorsMap[n] == p.errors[k];
    LastErrorIsLastFailure(outcomes, p.errors, k);
  }

  /** An outcome of the map step, read back as the validator that produced it. */
  lemma LastOutcomeIsLastFailure(vs: seq<Validator>, value: Value, ctx: Context, i: nat, e: Error, name: string)
    requires RunAll(vs, value, ctx).Success? && LastOutcomeWithName(RunAll(vs, value, ctx).value, i, e, name)
    ensures i < |vs| && Validate(vs[i], value, ctx) == Success(Some(e))
    ensures forall j | i < j < |vs| && Validate(vs[j], value, ctx).value.Some? ::
      Validate(vs[j], value, ctx).value.value.name != name
  {
    var outcomes := RunAll(vs, value, ctx).value;
    forall j | i < j < |vs| && Validate(vs[j], value, ctx).value.Some?
      ensures Validate(vs[j], value, ctx).value.value.name != name
    {
      assert Validate(vs[j], value, ctx) == Success(outcomes[j]);
    }
  }

  /** `ErrorsMapEntryOf` read back through the validators that produced the outcomes. */
  lemma ErrorsMapEntryOfValidators(value: Value, vs: seq<Validator>, ctx: Context, p: ErrorProps, n: string)
    requires RunAll(vs, value, ctx).Success?
    requires p.errors == Present(RunAll(vs, value, ctx).value) && p.errorsMap == CollectByName(map[], p.errors)
    requires n in p.errorsMap
    ensures p.errorsMap[n].name == n
    ensures exists i | 0 <= i < |vs| ::
      && Validate(vs[i], value, ctx) == Success(Some(p.errorsMap[n]))
      && forall j | i < j < |vs| && Validate(vs[j], value, ctx).value.Some? ::
        Validate(vs[j], value, ctx).value.value.name != n
  {
    var outcomes := RunAll(vs, value, ctx).value;
    ErrorsMapEntryOf(outcomes, p, n);
    var i :| LastOutcomeWithName(outcomes, i, p.errorsMap[n], n);
    LastOutcomeIsLastFailure(vs, value, ctx, i, p.errorsMap[n], n);
  }

  /**
   * Each entry of `errorsMap` is the error of some validator, and no later
   * validator of the list produces an error with the same name.
   */
  lemma ErrorsMapEntryIsLastFailure(value: Value, validators: Option<seq<Validator>>, ctx: Context)
    requires GetErrorProps(value, validators, ctx).Success?
    ensures var p := GetErrorProps(value, validators, ctx).value;
      var vs := ValidatorList(validators);
      forall n | n in p.errorsMap ::
        && p.errorsMap[n].name == n
        && exists i | 0 <= i < |vs| ::
          && Validate(vs[i], value, ctx) == Success(Some(p.errorsMap[n]))
          && forall j | i < j < |vs| && Validate(vs[j], value, ctx).value.Some? ::
            Validate(vs[j], value, ctx).value.value.name != n
  {
    var p := GetErrorProps(value, validators, ctx).value;
    var vs := ValidatorList(validators);
    assert p.errors == Present(RunAll(vs, value, ctx).value) && p.errorsMap == CollectByName(map[], p.errors);
    forall n | n in p.errorsMap {
      ErrorsMapEntryOfValidators(value, vs, ctx, p, n);
    }
  }

  /** The first error is the outcome of the first validator in the list that produced one. */
  lemma {:induction false} PresentFirst(outcomes: seq<Option<Error>>)
    requires Present(outcomes) != []
    ensures exists i | 0 <= i < |outcomes| ::
      && outcomes[i] == Some(Present(outcomes)[0])
      && forall j | 0 <= j < i :: outcomes[j].None?
    decreases |outcomes|
  {
    if outcomes[0].None? {
      PresentFirst(outcomes[1..]);
      var i :| 0 <= i < |outcomes[1..]| && outcomes[1..][i] == Some(Present(outcomes[1..])[0]) &&
        forall j | 0 <= j < i :: outcomes[1..][j].None?;
      assert outcomes[i + 1] == Some(Present(outcomes)[0]);
      assert forall j | 0 <= j < i + 1 :: outcomes[j].None? by {
        forall j | 0 < j < i + 1 ensures outcomes[j].None? {
          assert outcomes[j] == outcomes[1..][j - 1];
        }
      }
    } else {
      assert outcomes[0] == Some(Present(outcomes)[0]);
    }
  }

  /** Filtering a concatenation filters each part, so errors keep their relative order. */
  lemma {:induction false} PresentAppend(a: seq<Option<Error>>, b: seq<Option<Error>>)
    ensures Present(a + b) == Present(a) + Present(b)
    decreases |a|
  {
    if a != [] {
      assert (a + b)[1..] == a[1..] + b;
      PresentAppend(a[1..], b);
    } else {
      assert a + b == b;
    }
  }

  /** Running a concatenation of validator lists runs each list in turn. */
  lemma {:induction false} RunAllAppend(a: seq<Validator>, b: seq<Validator>, value: Value, ctx: Context)
    requires RunAll(a + b, value, ctx).Success?
    ensures RunAll(a, value, ctx).Success? && RunAll(b, value, ctx).Success?
    ensures RunAll(a + b, value, ctx).value == RunAll(a, value, ctx).value + RunAll(b, value, ctx).value
    decreases |a|
  {
    if a == [] {
      assert a + b == b;
    } else {
      assert (a + b)[0] == a[0] && (a + b)[1..] == a[1..] + b;
      RunAllAppend(a[1..], b, value, ctx);
    }
  }

  /** `errors[0]`, which is `undefined` for an empty list. */
  function FirstOf(errors: seq<Error>): Option<Error> {
    if errors == [] then None else Some(errors[0])
  }

  /**
   * The reported first error comes from the first failing validator in
   * declaration order: every validator before it passed.
   */
  lemma FirstErrorIsFirstFailure(value: Value, validators: Option<seq<Validator>>, ctx: Context)
    requires GetErrorProps(value, validators, ctx).Success?
    requires GetErrorProps(value, validators, ctx).value.hasErrors
    ensures var vs := ValidatorList(validators);
      var e := GetErrorProps(value, validators, ctx).value.errors[0];
      exists i | 0 <= i < |vs| ::
        && Validate(vs[i], value, ctx) == Success(Some(e))
        && forall j | 0 <= j < i :: Validate(vs[j], value, ctx) == Success(None)
  {
    var vs := ValidatorList(validators);
    var outcomes := RunAll(vs, value, ctx).value;
    PresentFirst(outcomes);
    var i :| 0 <= i < |outcomes| && outcomes[i] == Some(Present(outcomes)[0]) &&
      forall j | 0 <= j < i :: outcomes[j].None?;
    assert Validate(vs[i], value, ctx) == Success(Some(Present(outcomes)[0]));
  }

  /**
   * Errors are reported in declaration order: the errors of `a + b` are those
   * of `a` followed by those of `b`.
   */
  lemma ErrorsInDeclarationOrder(value: Value, a: seq<Validator>, b: seq<Validator>, ctx: Context)
    requires GetErrorProps(value, Some(a + b), ctx).Success?
    ensures GetErrorProps(value, Some(a), ctx).Success? && GetErrorProps(value, Some(b), ctx).Success?
    ensures GetErrorProps(value, Some(a + b), ctx).value.errors ==
      GetErrorProps(value, Some(a), ctx).value.errors + GetErrorProps(value, Some(b), ctx).value.errors
  {
    RunAllAppend(a, b, value, ctx);
    PresentAppend(RunAll(a, value, ctx).value, RunAll(b, value, ctx).value);
  }

  /** `hasErrors` holds exactly when some validator of the list fails. */
  lemma HasErrorsIffSomeValidatorFails(value: Value, validators: Option<seq<Validator>>, ctx: Context)
    requires GetErrorProps(value, validators, ctx).Success?
    ensures var vs := ValidatorList(validators);
      GetErrorProps(value, validators, ctx).value.hasErrors <==>
        exists i | 0 <= i < |vs| :: Validate(vs[i], value, ctx).value.Some?
  {
    var vs := ValidatorList(validators);
    var p := GetErrorProps(value, validators, ctx).value;
    if exists i | 0 <= i < |vs| :: Validate(vs[i], value, ctx).value.Some? {
      var i :| 0 <= i < |vs| && Validate(vs[i], value, ctx).value.Some?;
      assert Validate(vs[i], value, ctx).value.value in p.errors;
    }
    if p.hasErrors {
      assert p.errors[0] in p.errors;
    }
  }

  // ---------------------------------------------------------------------------
  // The built-in validators

  /**
   * `required` fails exactly for null, undefined, the empty string and
   * `false` (so it passes for `0`, `"0"`, `"false"`, `[]` and `{}`).
   */
  lemma RequiredFailsIff(value: Value, ctx: Context)
    ensures Validate(Required, value, ctx).Success?
    ensures Validate(Required, value, ctx).value.Some? <==>
      value == Null || value == Undefined || value == Str("") || value == Bool(false)
    ensures Validate(Required, value, ctx).value.Some? ==>
      Validate(Required, value, ctx).value.value == Error("required", map["got" := value])
  {
  }

  /** `requiredTrue` fails unless the value is the boolean `true`. */
  lemma RequiredTrueFailsIff(value: Value, ctx: Context)
    ensures Validate(RequiredTrue, value, ctx) ==
      Success(if value == Bool(true) then None else Some(Error("requiredTrue", map["got" := value])))
  {
  }

  /**
   * On a string, `minLength(n)` fails iff it is shorter than `n` and
   * `maxLength(n)` iff it is longer; the error reports the observed length
   * and the expected one. Reading the length of null or undefined throws.
   */
  lemma LengthValidatorsOnStrings(n: int, s: string, ctx: Context)
    ensures var len := Utf16Length(s);
      Validate(MinLength(n), Str(s), ctx) ==
        Success(if len < n then Some(LengthError("minLength", Str(s), len, n)) else None)
    ensures var len := Utf16Length(s);
      Validate(MaxLength(n), Str(s), ctx) ==
        Success(if len > n then Some(LengthError("maxLength", Str(s), len, n)) else None)
    ensures Validate(MinLength(n), Null, ctx) == Failure(LengthOfNullish(Null))
    ensures Validate(MaxLength(n), Undefined, ctx) == Failure(LengthOfNullish(Undefined))
  {
  }

  /**
   * The length validators count code units: one emoji (U+1F600) has length 2,
   * so it passes `minLength(2)` and fails `maxLength(1)`.
   */
  lemma AstralCharacterCountsTwice(ctx: Context)
    ensures Utf16Length("\U{1F600}") == 2
    ensures Validate(MinLength(2), Str("\U{1F600}"), ctx) == Success(None)
    ensures Validate(MaxLength(1), Str("\U{1F600}"), ctx) ==
      Success(Some(LengthError("maxLength", Str("\U{1F600}"), 2, 1)))
  {
    assert "\U{1F600}"[..0] == [];
  }

  /**
   * On a number, `min(m)` fails iff it is below `m` and `max(m)` iff it is
   * above; the boundary passes. A null value compares as 0.
   */
  lemma BoundValidatorsOnNumbers(m: int, x: int, ctx: Context)
    ensures Validate(Min(m), Num(x), ctx) == Success(if x < m then Some(BoundError("min", Num(x), m)) else None)
    ensures Validate(Max(m), Num(x), ctx) == Success(if x > m then Some(BoundError("max", Num(x), m)) else None)
    ensures Validate(Min(m), Num(m), ctx) == Success(None) && Validate(Max(m), Num(m), ctx) == Success(None)
    ensures Validate(Min(m), Null, ctx).value.Some? <==> 0 < m
  {
  }

  /**
   * `pattern(re)` passes a string iff the first match of `re` is the whole
   * string; calling it on a non-string throws. `regex(re)` behaves identically.
   */
  lemma PatternIsWholeMatch(re: Regexp, s: string, value: Value, ctx: Context)
    ensures Validate(Pattern(re), Str(s), ctx).Success?
    ensures Validate(Pattern(re), Str(s), ctx).value.None? <==> re.firstMatch(s) == Some(s)
    ensures !value.Str? ==> Validate(Pattern(re), value, ctx) == Failure(MatchOnNonString(value))
    ensures Validate(Regex(re), value, ctx) == Validate(Pattern(re), value, ctx)
  {
  }

  // ---------------------------------------------------------------------------
  // The conditional combinator (extension)

  /** `if(cond, vs)` with a false condition always passes. */
  lemma IfFalsePasses(condition: (Value, Context) -> bool, vs: seq<Validator>, value: Value, ctx: Context)
    requires !condition(value, ctx)
    ensures Validate(If(condition, vs), value, ctx) == Success(None)
  {
  }

  /** Short-circuit: when the first validator fails, the second is not consulted. */
  lemma IfShortCircuits(condition: (Value, Context) -> bool, v1: Validator, v2: Validator, value: Value, ctx: Context)
    requires condition(value, ctx) && Validate(v1, value, ctx).Success? && Validate(v1, value, ctx).value.Some?
    ensures Validate(If(condition, [v1, v2]), value, ctx) == Validate(v1, value, ctx)
  {
    assert If(condition, [v1, v2]).validators[0] == v1;
  }

  lemma {:induction false} FirstErrorFrom(v: Validator, value: Value, ctx: Context, i: nat)
    requires v.If? && i <= |v.validators|
    requires RunAll(v.validators[i..], value, ctx).Success?
    ensures FirstError(v, value, ctx, i) == Success(FirstOf(Present(RunAll(v.validators[i..], value, ctx).value)))
    decreases |v.validators| - i
  {
    var vs := v.validators;
    if i < |vs| {
      assert vs[i..][0] == vs[i];
      assert vs[i..][1..] == vs[i + 1..];
      if Validate(vs[i], value, ctx).value.None? {
        FirstErrorFrom(v, value, ctx, i + 1);
      }
    }
  }

  /**
   * With a true condition and no faulting validator, `if(cond, vs)` reports
   * the first error that `getErrorProps` would report for `vs`.
   */
  lemma IfReportsFirstError(condition: (Value, Context) -> bool, vs: seq<Validator>, value: Value, ctx: Context)
    requires condition(value, ctx) && GetErrorProps(value, Some(vs), ctx).Success?
    ensures Validate(If(condition, vs), value, ctx) == Success(FirstOf(GetErrorProps(value, Some(vs), ctx).value.errors))
  {
    assert If(condition, vs).validators[0..] == vs;
    FirstErrorFrom(If(condition, vs), value, ctx, 0);
  }

  // ---------------------------------------------------------------------------
  // extError

  /**
   * `extError(map, error)`: the empty text for an absent error, otherwise the
   * formatter registered under the error's name applied to the error; calling
   * a missing formatter throws.
   */
  function ExtError(mappings: map<string, Error -> string>, error: Option<Error>): (r: Result<string, Fault>)
    ensures error.None? ==> r == Success("")
    ensures r.Failure? ==> error.Some? && r.error == MappingNotAFunction(error.value.name)
  {
    if error.None? then Success("")
    else if error.value.name in mappings then Success(mappings[error.value.name](error.value))
    else Failure(MappingNotAFunction(error.value.name))
  }

  /**
   * The `extError` the repository's tests expect (an extension): a missing
   * formatter falls back to the one registered as `default`, and without one
   * the call fails with a fault naming the missing mapping.
   */
  function ExtErrorWithDefault(mappings: map<string, Error -> string>, error: Option<Error>): (r: Result<string, Fault>)
    ensures error.None? ==> r == Success("")
    ensures r.Failure? ==> error.Some? && error.value.name !in mappings && "default" !in mappings
  {
    if error.None? then Success("")
    else if error.value.name in mappings then Success(mappings[error.value.name](error.value))
    else if "default" in mappings then Success(mappings["default"](error.value))
    else Failure(NoErrorMapping(error.value.name))
  }

  /** `extError` succeeds exactly when there is no error or its name has a mapping. */
  lemma ExtErrorFailsIffUnmapped(mappings: map<string, Error -> string>, error: Option<Error>)
    ensures ExtError(mappings, error).Success? <==> error.None? || error.value.name in mappings
    ensures error.None? ==> ExtError(mappings, error) == Success("")
    ensures error.Some? && error.value.name in mappings ==>
      ExtError(mappings, error) == Success(mappings[error.value.name](error.value))
  {
  }

  /**
   * The `default`-aware variant agrees with `extError` wherever that succeeds,
   * and beyond that succeeds exactly when a `default` mapping exists.
   */
  lemma ExtErrorDefaultExtends(mappings: map<string, Error -> string>, error: Option<Error>)
    ensures ExtError(mappings, error).Success? ==> ExtErrorWithDefault(mappings, error) == ExtError(mappings, error)
    ensures ExtError(mappings, error).Failure? ==>
      (ExtErrorWithDefault(mappings, error).Success? <==> "default" in mappings)
    ensures ExtErrorWithDefault(mappings, error).Failure? ==>
      ExtErrorWithDefault(mappings, error) == Failure(NoErrorMapping(error.value.name))
  {
  }

  /** The message for a field whose validators all pass is the empty text. */
  lemma ExtErrorOfPassingField(mappings: map<string, Error -> string>, value: Value, validators: Option<seq<Validator>>, ctx: Context)
    requires GetErrorProps(value, validators, ctx).Success?
    requires !GetErrorProps(value, validators, ctx).value.hasErrors
    ensures ExtError(mappings, FirstOf(GetErrorProps(value, validators, ctx).value.errors)) == Success("")
  {
  }
}
