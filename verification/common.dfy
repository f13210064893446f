/**
  The argument-validation helpers of `OmniOpen.Foundation.Common`.

  Each C# entry point is an extension method that either returns normally or
  throws. Here each one is a total function returning an `Outcome`: `Passed`
  for a normal return, `Invalid` for an `ArgumentException` and `Missing` for an
  `ArgumentNullException`, each failure carrying the parameter name and the
  custom message as the exception would.

  The C# `Expression<Func<T>>` that names and yields the argument becomes an
  optional `Target` (a null expression is `None`); the validator delegate becomes
  an optional total function (a null delegate is `None`). The receiver `@this`
  is never read by the source and is not a parameter here.
*/
module Common {
  import opened Wrappers

  /** A parameter name recovered from a member expression: never empty. */
  type ParamName = s: string | s != [] witness "argument"

  /** The argument under validation: the name of the caller's variable and its
      value at the time of the call. */
  datatype Target<T> = Target(name: ParamName, value: T)

  /** The expression tree the caller passes, as far as the library inspects it: the
      member access naming the variable, possibly wrapped in a boxing conversion
      (`Convert`) when the tree's result type is `object` and the variable's static
      type is a type parameter or a value type. */
  datatype ArgumentExpression<T> = ArgumentExpression(member: Target<T>, boxed: bool)

  /** What a validation call does: return normally, or throw one of the two
      exception kinds with the parameter name and the (normalised) message.
      `NullReference` is the `NullReferenceException` raised when the name is read
      from an expression body that is not a member access; only the as-written
      model of that read produces it. */
  datatype Outcome =
    | Passed
    | Invalid(name: ParamName, message: Option<string>)
    | Missing(name: ParamName, message: Option<string>)
    | NullReference
  {
    predicate Failed() { !Passed? }
  }

  /** `Char.IsWhiteSpace`: the Unicode space, line and paragraph separators
      together with the control characters U+0009..U+000D and U+0085. Among the
      ASCII characters exactly the space and the five format controls qualify. */
  function IsWhiteSpace(c: char): (r: bool)
    ensures c as int < 0x80 ==> (r <==> c in {' ', '\t', '\n', '\U{000B}', '\U{000C}', '\r'})
  {
    var n := c as int;
    || (0x09 <= n <= 0x0D)
    || n == 0x20
    || n == 0x85
    || n == 0xA0
    || n == 0x1680
    || (0x2000 <= n <= 0x200A)
    || n == 0x2028
    || n == 0x2029
    || n == 0x202F
    || n == 0x205F
    || n == 0x3000
  }

  /** True when no character of `s` is visible; the empty string qualifies. */
  function AllWhiteSpace(s: string): (r: bool)
    ensures r <==> forall i :: 0 <= i < |s| ==> IsWhiteSpace(s[i])
  {
    if s == [] then true else IsWhiteSpace(s[0]) && AllWhiteSpace(s[1..])
  }

  /** `string.IsNullOrEmpty`: null or of length 0; such a string is also null or
      blank. */
  function IsNullOrEmpty(s: Option<string>): (r: bool)
    ensures r <==> s.None? || |s.value| == 0
    ensures r ==> IsNullOrWhiteSpace(s)
  {
    s.None? || s.value == []
  }

  /** `string.IsNullOrWhiteSpace`: null, or no character is visible. */
  function IsNullOrWhiteSpace(s: Option<string>): (r: bool)
    ensures r <==> s.None? || forall i :: 0 <= i < |s.value| ==> IsWhiteSpace(s.value[i])
  {
    s.None? || AllWhiteSpace(s.value)
  }

  /** `GetNullIfWhitespace`: a null, empty or blank message becomes null; any other
      message is kept verbatim. */
  function GetNullIfWhitespace(message: Option<string>): (r: Option<string>)
    ensures r.None? <==> (message.None? || forall i :: 0 <= i < |message.value| ==> IsWhiteSpace(message.value[i]))
    ensures r.Some? ==> r == message && exists i :: 0 <= i < |r.value| && !IsWhiteSpace(r.value[i])
  {
    if IsNullOrWhiteSpace(message) then None else message
  }

  /** `ValidateArgument`: when both the argument expression and the validator are
      given, evaluate the validator on the argument's value and fail with an
      `ArgumentException` naming the argument when it returns false; otherwise
      do nothing. */
  function ValidateArgument<T>(argument: Option<Target<T>>, validator: Option<T -> bool>,
                               validationFailureMessage: Option<string>): (r: Outcome)
    ensures argument.None? || validator.None? ==> r == Passed
    ensures r.Failed() <==> argument.Some? && validator.Some? && !validator.value(argument.value.value)
    ensures r.Failed() ==> argument.Some? && r == Invalid(argument.value.name, GetNullIfWhitespace(validationFailureMessage))
  {
    if argument.Some? && validator.Some? && !validator.value(argument.value.value) then
      Invalid(argument.value.name, GetNullIfWhitespace(validationFailureMessage))
    else
      Passed
  }

  /** The validator `x => x != null` of `ValidateArgumentNotNull`. */
  function NonNull<V(!new)>(): (r: Option<V> -> bool)
    ensures !r(None)
    ensures forall v :: r(Some(v))
  {
    (x: Option<V>) => x.Some?
  }

  /** `ValidateArgumentNotNull`: run the generic validator with `x != null` and
      re-throw its `ArgumentException` as an `ArgumentNullException` with the same
      parameter name and the normalised message. */
  function ValidateArgumentNotNull<V(!new)>(argument: Option<Target<Option<V>>>,
                                      validationFailureMessage: Option<string>): (r: Outcome)
    ensures argument.None? ==> r == Passed
    ensures r.Failed() <==> argument.Some? && argument.value.value.None?
    ensures r.Failed() ==> argument.Some? && r == Missing(argument.value.name, GetNullIfWhitespace(validationFailureMessage))
  {
    match ValidateArgument(argument, Some(NonNull()), validationFailureMessage)
    case Invalid(paramName, _) => Missing(paramName, GetNullIfWhitespace(validationFailureMessage))
    case other => other
  }

  /** `ValidateArgumentNotNullOrEmpty`: the generic validator with
      `s => !string.IsNullOrEmpty(s)`. */
  function ValidateArgumentNotNullOrEmpty(argument: Option<Target<Option<string>>>,
                                          validationFailureMessage: Option<string>): (r: Outcome)
    ensures argument.None? ==> r == Passed
    ensures r.Failed() <==> argument.Some? && (argument.value.value.None? || |argument.value.value.value| == 0)
    ensures r.Failed() ==> argument.Some? && r == Invalid(argument.value.name, GetNullIfWhitespace(validationFailureMessage))
  {
    ValidateArgument(argument, Some(s => !IsNullOrEmpty(s)), validationFailureMessage)
  }

  /** `ValidateArgumentNotNullOrWhitespace`: the generic validator with
      `s => !string.IsNullOrWhiteSpace(s)`. */
  function ValidateArgumentNotNullOrWhitespace(argument: Option<Target<Option<string>>>,
                                               validationFailureMessage: Option<string>): (r: Outcome)
    ensures argument.None? ==> r == Passed
    ensures r.Failed() <==>
      && argument.Some?
      && (argument.value.value.None? ||
          forall i :: 0 <= i < |argument.value.value.value| ==> IsWhiteSpace(argument.value.value.value[i]))
    ensures r.Failed() ==> argument.Some? && r == Invalid(argument.value.name, GetNullIfWhitespace(validationFailureMessage))
  {
    ValidateArgument(argument, Some(s => !IsNullOrWhiteSpace(s)), validationFailureMessage)
  }

  // ---------------------------------------------------------------------------
  // Properties relating the entry points

  /** Normalising a message twice gives the same result as normalising it once. */
  lemma NormalizeIdempotent(message: Option<string>)
    ensures GetNullIfWhitespace(GetNullIfWhitespace(message)) == GetNullIfWhitespace(message)
  {
  }

  /** `ValidateArgumentNotNull` fails exactly where the generic validator with
      `x != null` fails, and only the exception kind differs. */
  lemma NotNullRelabelsGenericFailure<V(!new)>(argument: Option<Target<Option<V>>>, validationFailureMessage: Option<string>)
    ensures ValidateArgumentNotNull(argument, validationFailureMessage).Failed()
        <==> ValidateArgument(argument, Some(NonNull()), validationFailureMessage).Failed()
    ensures ValidateArgument(argument, Some(NonNull()), validationFailureMessage).Invalid? ==>
      var g := ValidateArgument(argument, Some(NonNull()), validationFailureMessage);
      ValidateArgumentNotNull(argument, validationFailureMessage) == Missing(g.name, g.message)
  {
  }

  /** A null string is rejected by every specialisation with the same name and
      message: as missing by `ValidateArgumentNotNull`, as invalid by the other two. */
  lemma NullRejectedByEverySpecialisation(name: ParamName, validationFailureMessage: Option<string>)
    ensures var nullString: Option<Target<Option<string>>> := Some(Target(name, None));
      var m := GetNullIfWhitespace(validationFailureMessage);
      && ValidateArgumentNotNull(nullString, validationFailureMessage) == Missing(name, m)
      && ValidateArgumentNotNullOrEmpty(nullString, validationFailureMessage) == Invalid(name, m)
      && ValidateArgumentNotNullOrWhitespace(nullString, validationFailureMessage) == Invalid(name, m)
  {
  }

  /** Every string rejected by `ValidateArgumentNotNullOrEmpty` is rejected by
      `ValidateArgumentNotNullOrWhitespace` too, with the very same exception. */
  lemma EmptyRejectionImpliesWhitespaceRejection(argument: Option<Target<Option<string>>>,
                                                 validationFailureMessage: Option<string>)
    ensures ValidateArgumentNotNullOrEmpty(argument, validationFailureMessage).Failed() ==>
      ValidateArgumentNotNullOrWhitespace(argument, validationFailureMessage)
        == ValidateArgumentNotNullOrEmpty(argument, validationFailureMessage)
  {
  }

  /** A stricter validator rejects at least what a weaker one rejects: when `strict`
      implies `lax` on every value, a failure under `lax` is the same failure
      under `strict`. */
  lemma StricterValidatorRejectsMore<T>(argument: Option<Target<T>>, strict: T -> bool, lax: T -> bool,
                                        validationFailureMessage: Option<string>)
    requires forall x :: strict(x) ==> lax(x)
    ensures ValidateArgument(argument, Some(lax), validationFailureMessage).Failed() ==>
      ValidateArgument(argument, Some(strict), validationFailureMessage)
        == ValidateArgument(argument, Some(lax), validationFailureMessage)
  {
  }

  // ---------------------------------------------------------------------------
  // The name lookup as written: `(argument.Body as MemberExpression).Member.Name`

  /** `ValidateArgument` as written, on the expression tree itself. When the validator
      fails and the body is a boxing conversion rather than a member access, the
      `as` cast yields null and reading `.Member` raises `NullReferenceException`.
      On a plain member access it is exactly `ValidateArgument`. */
  function ValidateArgumentAsWritten<T>(argument: Option<ArgumentExpression<T>>, validator: Option<T -> bool>,
                                        validationFailureMessage: Option<string>): (r: Outcome)
    ensures argument.Some? && !argument.value.boxed ==>
      r == ValidateArgument(Some(argument.value.member), validator, validationFailureMessage)
    ensures r.NullReference? <==>
      argument.Some? && argument.value.boxed && validator.Some? && !validator.value(argument.value.member.value)
    ensures !r.NullReference? ==>
      r == ValidateArgument(if argument.Some? then Some(argument.value.member) else None, validator, validationFailureMessage)
  {
    if argument.Some? && validator.Some? && !validator.value(argument.value.member.value) then
      if argument.value.boxed then NullReference
      else Invalid(argument.value.member.name, GetNullIfWhitespace(validationFailureMessage))
    else
      Passed
  }

  /** `ValidateArgumentNotNull` as written: only `ArgumentException` is caught and
      re-thrown, so the `NullReferenceException` of a boxed null argument escapes.
      Everywhere else it agrees with `ValidateArgumentNotNull`. */
  function ValidateArgumentNotNullAsWritten<V(!new)>(argument: Option<ArgumentExpression<Option<V>>>,
                                               validationFailureMessage: Option<string>): (r: Outcome)
    ensures r.NullReference? <==> argument.Some? && argument.value.boxed && argument.value.member.value.None?
    ensures !r.NullReference? ==>
      r == ValidateArgumentNotNull(if argument.Some? then Some(argument.value.member) else None, validationFailureMessage)
  {
    match ValidateArgumentAsWritten(argument, Some(NonNull()), validationFailureMessage)
    case Invalid(paramName, _) => Missing(paramName, GetNullIfWhitespace(validationFailureMessage))
    case other => other
  }

  /** A null argument whose static type is a type parameter reaches the name lookup
      through a boxing conversion: the code as written raises `NullReferenceException`,
      where `ValidateArgumentNotNull` reports the argument as missing under its name. */
  lemma BoxedNullArgumentEscapesTheCatch()
    ensures ValidateArgumentNotNullAsWritten<string>(Some(ArgumentExpression(Target("dummyArgument", None), true)), None)
      == NullReference
    ensures ValidateArgumentNotNull<string>(Some(Target("dummyArgument", None)), None) == Missing("dummyArgument", None)
  {
  }
}
