# OmniOpen argument validation, modelled in Dafny

`OmniOpen.Foundation.Common` is a small library of extension methods for argument
validation. A caller passes an expression that names one of its variables, such as
`() => invalidArgument`, and a validator delegate. The library evaluates the
validator on the variable's value. When the validator returns false, it throws an
`ArgumentException` whose parameter name is the variable's name. A custom failure
message may be passed too. A null, empty or blank message is dropped, and any
other message is kept verbatim. When the expression or the validator is null,
nothing is validated. Three specialisations build on the generic check:

- `ValidateArgumentNotNull` re-throws the failure as an `ArgumentNullException`.
- `ValidateArgumentNotNullOrEmpty` rejects null and empty strings.
- `ValidateArgumentNotNullOrWhitespace` rejects null and blank strings.

The model (`common.dfy`, module `Common`) writes each entry point as a total function
returning an `Outcome`:

- `Passed` is a normal return.
- `Invalid(name, message)` is an `ArgumentException`.
- `Missing(name, message)` is an `ArgumentNullException`.

The expression becomes an optional `Target`, a pair of the variable's name and its
value; `None` is a null expression. The validator becomes an optional total function.
C# null values are `Option.None` (`wrappers.dfy`). `Char.IsWhiteSpace` is written
out as its list of code points. `scenarios.dfy` (module `CommonScenarios`) states the
outcomes that the unit tests in `CommonTests.cs` expect, as facts about the model.

Each property is stated twice over. The entry points carry contracts that say
exactly when they fail and what they then report. The lemmas relate the entry points
to one another:

- normalisation is idempotent;
- `ValidateArgumentNotNull` changes only the kind of the generic failure;
- every string rejected as empty is also rejected as blank, with the same exception;
- a stricter validator rejects at least what a laxer one rejects.

The name lookup in `ValidateArgument` is also modelled as written, on an expression
that may wrap the member access in a boxing conversion. This exposes the case
described under "## Findings".

## Model

| member | source | states |
|---|---|---|
| `Common.ValidateArgument` | OmniOpen.Foundation/Common.cs:47-60 | With a null expression or a null validator the call passes; otherwise it fails exactly when the validator returns false on the value, and the failure is `Invalid` with the argument's own name and the normalised message (never `Missing`) |
| `Common.GetNullIfWhitespace` | OmniOpen.Foundation/Common.cs:62-65 | The result is null exactly when the message is null or every character is whitespace (the empty message included); otherwise it is the message unchanged and contains a visible character |
| `Common.IsWhiteSpace` | OmniOpen.Foundation/Common.cs:64 | `Char.IsWhiteSpace`, which `string.IsNullOrWhiteSpace` applies to each character: among ASCII characters it holds exactly for space, tab, line feed, vertical tab, form feed and carriage return |
| `Common.AllWhiteSpace` | OmniOpen.Foundation/Common.cs:64 | The character-by-character scan behind `string.IsNullOrWhiteSpace` is true exactly when every character of the string is whitespace |
| `Common.IsNullOrWhiteSpace` | OmniOpen.Foundation/Common.cs:132 | `string.IsNullOrWhiteSpace` (also called at Common.cs:64) holds exactly for null and for strings whose characters are all whitespace |
| `Common.IsNullOrEmpty` | OmniOpen.Foundation/Common.cs:112 | `string.IsNullOrEmpty` holds exactly for null and for length 0, and every such string is also null or blank |
| `Common.NonNull` | OmniOpen.Foundation/Common.cs:87 | The validator `x => x != null` rejects null and accepts every non-null value |
| `Common.ValidateArgumentNotNull` | OmniOpen.Foundation/Common.cs:83-93 | Passes on a null expression; fails exactly when the value is null, and then as `Missing` (never `Invalid`) with the argument's name and the normalised message |
| `Common.ValidateArgumentNotNullOrEmpty` | OmniOpen.Foundation/Common.cs:104-113 | Passes on a null expression; fails exactly when the string is null or has length 0, as `Invalid` with the argument's name and the normalised message |
| `Common.ValidateArgumentNotNullOrWhitespace` | OmniOpen.Foundation/Common.cs:124-133 | Passes on a null expression; fails exactly when the string is null or all of its characters are whitespace, as `Invalid` with the argument's name and the normalised message |
| `Common.NormalizeIdempotent` | OmniOpen.Foundation/Common.cs:62-65 | Normalising an already normalised message changes nothing |
| `Common.NotNullRelabelsGenericFailure` | OmniOpen.Foundation/Common.cs:85-92 | `ValidateArgumentNotNull` fails exactly when the generic check with `x != null` fails, and then reports that failure's name and message as `Missing` |
| `Common.NullRejectedByEverySpecialisation` | OmniOpen.Foundation/Common.cs:83-133 | A null string is rejected by all three specialisations with the same name and message: as `Missing` by the not-null check, as `Invalid` by the two string checks |
| `Common.EmptyRejectionImpliesWhitespaceRejection` | OmniOpen.Foundation/Common.cs:110-133 | Whenever `ValidateArgumentNotNullOrEmpty` fails, `ValidateArgumentNotNullOrWhitespace` fails with the identical outcome |
| `Common.StricterValidatorRejectsMore` | OmniOpen.Foundation/Common.cs:50-58 | If one validator implies another on every value, a failure under the laxer one is the same failure under the stricter one |
| `Common.ValidateArgumentAsWritten` | OmniOpen.Foundation/Common.cs:50-58 | On a plain member access it equals `ValidateArgument`; on a boxing conversion a failing validator raises `NullReference` (the member read of line 55 on a null cast) instead of `Invalid`, and nothing else changes |
| `Common.ValidateArgumentNotNullAsWritten` | OmniOpen.Foundation/Common.cs:83-93 | As written, the catch of `ArgumentException` lets the `NullReference` through: it occurs exactly for a boxed null argument, and in every other case the outcome equals `ValidateArgumentNotNull`'s |
| `Common.BoxedNullArgumentEscapesTheCatch` | OmniOpen.Foundation.Test.Unit/CommonTests.cs:298-310 | For the generic-typed null argument `dummyArgument` the code as written raises `NullReference`, while the test expects, and `ValidateArgumentNotNull` gives, `Missing("dummyArgument", None)` |
| `CommonScenarios.GenericNoOpScenarios` | OmniOpen.Foundation.Test.Unit/CommonTests.cs:59-87 | A null expression or a null validator passes, even on a null value |
| `CommonScenarios.InvalidArgumentNamesTheVariable` | OmniOpen.Foundation.Test.Unit/CommonTests.cs:90-111 | Validating the null variable `invalidArgument` with `x != null` and no message fails as `Invalid("invalidArgument", None)` |
| `CommonScenarios.EmptyStringIsNotNull` | OmniOpen.Foundation.Test.Unit/CommonTests.cs:114-126 | The empty string passes the `x != null` check |
| `CommonScenarios.BlankMessagesAreDropped` | OmniOpen.Foundation.Test.Unit/CommonTests.cs:128-146 | Empty and blank custom messages leave the generic check's failure without a message |
| `CommonScenarios.VisibleMessageIsKept` | OmniOpen.Foundation.Test.Unit/CommonTests.cs:148-164 | The message "OmniOpen" is carried verbatim into the generic check's failure |
| `CommonScenarios.GenericArgumentIsNamed` | OmniOpen.Foundation.Test.Unit/CommonTests.cs:166-179 | A generic-typed null argument checked by `ValidateArgument` at its own type fails as `Invalid("dummyArgument", None)` |
| `CommonScenarios.NotNullScenarios` | OmniOpen.Foundation.Test.Unit/CommonTests.cs:182-249 | A null expression and a non-null value pass `ValidateArgumentNotNull`; the null variable `nullArgument` fails as `Missing("nullArgument", None)` |
| `CommonScenarios.BlankMessagesAreDroppedOnMissing` | OmniOpen.Foundation.Test.Unit/CommonTests.cs:251-269 | Empty and blank custom messages leave the `Missing` failure without a message |
| `CommonScenarios.VisibleMessageIsKeptOnMissing` | OmniOpen.Foundation.Test.Unit/CommonTests.cs:271-295 | The message "OmniOpen" is carried verbatim into `Missing("nullArgument", …)` |
| `CommonScenarios.NotNullOrEmptyScenarios` | OmniOpen.Foundation.Test.Unit/CommonTests.cs:312-368 | A null expression passes; null and "" fail as `Invalid` under the variable's name; "   " is not empty and passes |
| `CommonScenarios.NotNullOrEmptyAcceptsText` | OmniOpen.Foundation.Test.Unit/CommonTests.cs:370-383 | "OmniOpen" passes the emptiness check |
| `CommonScenarios.BlankMessagesAreDroppedOnEmptyCheck` | OmniOpen.Foundation.Test.Unit/CommonTests.cs:385-408 | Empty and blank custom messages leave the emptiness check's failure without a message |
| `CommonScenarios.VisibleMessageIsKeptOnEmptyCheck` | OmniOpen.Foundation.Test.Unit/CommonTests.cs:410-426 | The message "OmniOpen" is carried verbatim into the emptiness check's failure |
| `CommonScenarios.NotNullOrWhitespaceScenarios` | OmniOpen.Foundation.Test.Unit/CommonTests.cs:428-484 | A null expression passes; null, "" and "   " fail as `Invalid` under the variable's name |
| `CommonScenarios.BlankMessagesAreDroppedOnWhitespaceCheck` | OmniOpen.Foundation.Test.Unit/CommonTests.cs:486-509 | Empty and blank custom messages leave the whitespace check's failure without a message |
| `CommonScenarios.NotNullOrWhitespaceAcceptsText` | OmniOpen.Foundation.Test.Unit/CommonTests.cs:511-524 | "OmniOpen" passes the whitespace check |

## Left out

- Compiling the expression tree and reading the member name by reflection are not modelled. The entry points take the name and the value as an explicit pair, which is the member access the library expects. The one other expression shape reachable through ordinary calls is a boxing conversion around that member access. This happens in `ValidateArgumentNotNull`, whose expression has result type `object`, when the variable's static type is a type parameter or a value type such as `Nullable<T>`. `Common.ValidateArgumentAsWritten` and `Common.ValidateArgumentNotNullAsWritten` model that shape; see "## Findings". Any other expression body (a method call, a constant) is not modelled.
- The extension-method receiver `@this` is never read by the source and is not a parameter. So a null receiver validates like any other, and the outcome depends on nothing but the remaining inputs, which holds for Dafny functions by construction.
- The exception objects and the text the framework builds around the custom message (the "Parameter name: …" suffix, the default text used when the message is null) are not modelled. An outcome carries only the exception kind, the parameter name and the normalised custom message. The tests' "message does not start with a new line" check becomes "a blank message is normalised to `None`".
- Exceptions thrown by a validator delegate or while evaluating the argument are not modelled. Validators are total functions.
- `Common.IsWhiteSpace` lists the code points that the current Unicode tables class as separators, plus U+0009..U+000D and U+0085. Characters classed differently in older Unicode versions, such as U+180E, are not modelled.
- The XML data tables that drive the table-driven tests are not part of this model. Their rows are represented by null, `""` and `"   "` (for arguments) and by `""` and blanks (for messages).
- Unit-test infrastructure (MSTest, FluentAssertions) is not modelled.

## Findings

| source | as written | input that shows it | evidently intended | confidence | as-written member | corrected member |
|---|---|---|---|---|---|---|
| OmniOpen.Foundation/Common.cs:55 | The name is read as `(argument.Body as MemberExpression).Member.Name`. `ValidateArgumentNotNull` takes an `Expression<Func<object>>`, so for a variable whose static type is a type parameter or a value type, the body is a boxing `Convert` node. The cast then yields null, the read raises `NullReferenceException`, and that exception escapes the `catch (ArgumentException)` at line 89 | `ValidateArgumentNotNull(() => dummyArgument)` inside a generic method, with `dummyArgument` null (OmniOpen.Foundation.Test.Unit/CommonTests.cs:298-310) | `ArgumentNullException` with parameter name `dummyArgument`, the name of the member under the conversion | medium, not executed | `Common.ValidateArgumentNotNullAsWritten`, shown by `Common.BoxedNullArgumentEscapesTheCatch` | `Common.ValidateArgumentNotNull` |
