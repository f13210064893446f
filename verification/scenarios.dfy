/**
  The expected outcomes of `OmniOpen.Foundation.Test.Unit.CommonTests`, stated
  as facts about the model. The variable each test validates is given by its
  name; a null value is `None`. Where a test reads its values from a data table,
  null, the empty string and a run of spaces stand for the table's rows.
*/
module CommonScenarios {
  import opened Wrappers
  import opened Common

  // ---------------------------------------------------------------------------
  // ValidateArgument

  /** A null expression or a null validator means no validation at all. */
  lemma GenericNoOpScenarios()
    ensures ValidateArgument<Option<string>>(None, Some(NonNull<string>()), None) == Passed
    ensures ValidateArgument<Option<string>>(Some(Target("argument", None)), None, None) == Passed
  {
  }

  /** A null argument checked with `x != null` fails with the variable's name, and
      without a message the exception carries no custom message to prefix. */
  lemma InvalidArgumentNamesTheVariable()
    ensures ValidateArgument(Some(Target("invalidArgument", None)), Some(NonNull<string>()), None)
      == Invalid("invalidArgument", None)
  {
  }

  /** An empty (but non-null) string passes the `x != null` check. */
  lemma EmptyStringIsNotNull()
    ensures ValidateArgument(Some(Target("validArgument", Some(""))), Some(NonNull<string>()), None) == Passed
  {
  }

  /** Empty and blank custom messages are dropped, so the exception message never
      starts with an empty custom line. */
  lemma BlankMessagesAreDropped(name: ParamName)
    ensures ValidateArgument(Some(Target(name, None)), Some(NonNull<string>()), Some("")) == Invalid(name, None)
    ensures ValidateArgument(Some(Target(name, None)), Some(NonNull<string>()), Some("   ")) == Invalid(name, None)
  {
  }

  /** A visible custom message is carried into the exception verbatim. */
  lemma VisibleMessageIsKept(name: ParamName)
    ensures ValidateArgument(Some(Target(name, None)), Some(NonNull<string>()), Some("OmniOpen"))
      == Invalid(name, Some("OmniOpen"))
  {
  }

  /** Inside a generic method `ValidateArgument` is instantiated at the type
      parameter itself, so the body stays a plain member access and the failure
      names the generic method's parameter. */
  lemma GenericArgumentIsNamed()
    ensures ValidateArgumentAsWritten(Some(ArgumentExpression(Target("dummyArgument", None), false)),
                                      Some(NonNull<string>()), None)
      == Invalid("dummyArgument", None)
  {
  }

  // ---------------------------------------------------------------------------
  // ValidateArgumentNotNull

  /** A null expression is a no-op, a non-null value passes, and a null value is
      reported as missing under the variable's name. */
  lemma NotNullScenarios()
    ensures ValidateArgumentNotNull<string>(None, None) == Passed
    ensures ValidateArgumentNotNull(Some(Target("nonNullArgument", Some(""))), None) == Passed
    ensures ValidateArgumentNotNull<string>(Some(Target("nullArgument", None)), None) == Missing("nullArgument", None)
  {
  }

  /** Blank custom messages are dropped from the missing-argument exception. */
  lemma BlankMessagesAreDroppedOnMissing(name: ParamName)
    ensures ValidateArgumentNotNull<string>(Some(Target(name, None)), Some("")) == Missing(name, None)
    ensures ValidateArgumentNotNull<string>(Some(Target(name, None)), Some("\t\r\n")) == Missing(name, None)
  {
  }

  /** A visible custom message is carried into the missing-argument exception. */
  lemma VisibleMessageIsKeptOnMissing()
    ensures ValidateArgumentNotNull<string>(Some(Target("nullArgument", None)), Some("OmniOpen"))
      == Missing("nullArgument", Some("OmniOpen"))
  {
  }

  // ---------------------------------------------------------------------------
  // ValidateArgumentNotNullOrEmpty

  /** A null expression is a no-op; null and empty strings fail under the
      variable's name; a blank string is not empty and passes. */
  lemma NotNullOrEmptyScenarios()
    ensures ValidateArgumentNotNullOrEmpty(None, None) == Passed
    ensures ValidateArgumentNotNullOrEmpty(Some(Target("nullArgument", None)), None) == Invalid("nullArgument", None)
    ensures ValidateArgumentNotNullOrEmpty(Some(Target("argument", Some(""))), None) == Invalid("argument", None)
    ensures ValidateArgumentNotNullOrEmpty(Some(Target("argument", Some("   "))), None) == Passed
  {
  }

  /** "OmniOpen" is neither null nor empty. */
  lemma NotNullOrEmptyAcceptsText()
    ensures ValidateArgumentNotNullOrEmpty(Some(Target("validArgument", Some("OmniOpen"))), None) == Passed
  {
  }

  /** Blank custom messages are dropped from the emptiness check's exception. */
  lemma BlankMessagesAreDroppedOnEmptyCheck(name: ParamName)
    ensures ValidateArgumentNotNullOrEmpty(Some(Target(name, None)), Some("")) == Invalid(name, None)
    ensures ValidateArgumentNotNullOrEmpty(Some(Target(name, None)), Some("   ")) == Invalid(name, None)
  {
  }

  /** A visible custom message is carried into the emptiness check's exception. */
  lemma VisibleMessageIsKeptOnEmptyCheck(name: ParamName)
    ensures ValidateArgumentNotNullOrEmpty(Some(Target(name, None)), Some("OmniOpen")) == Invalid(name, Some("OmniOpen"))
  {
  }

  // ---------------------------------------------------------------------------
  // ValidateArgumentNotNullOrWhitespace

  /** A null expression is a no-op; null, empty and blank strings fail under the
      variable's name. */
  lemma NotNullOrWhitespaceScenarios()
    ensures ValidateArgumentNotNullOrWhitespace(None, None) == Passed
    ensures ValidateArgumentNotNullOrWhitespace(Some(Target("nullArgument", None)), None) == Invalid("nullArgument", None)
    ensures ValidateArgumentNotNullOrWhitespace(Some(Target("argument", Some(""))), None) == Invalid("argument", None)
    ensures ValidateArgumentNotNullOrWhitespace(Some(Target("argument", Some("   "))), None) == Invalid("argument", None)
  {
  }

  /** Blank custom messages are dropped from the whitespace check's exception. */
  lemma BlankMessagesAreDroppedOnWhitespaceCheck(name: ParamName)
    ensures ValidateArgumentNotNullOrWhitespace(Some(Target(name, None)), Some("")) == Invalid(name, None)
    ensures ValidateArgumentNotNullOrWhitespace(Some(Target(name, None)), Some("   ")) == Invalid(name, None)
  {
  }

  /** "OmniOpen" has a visible character. */
  lemma NotNullOrWhitespaceAcceptsText()
    ensures ValidateArgumentNotNullOrWhitespace(Some(Target("validArgument", Some("OmniOpen"))), None) == Passed
  {
  }
}
