# UnionizeNow in Dafny

UnionizeNow gives C# closed unions. A union is an abstract record that
implements the `UnionizeNow.IUnionizeNow` marker. A source generator gives
each member an interface of its own. A diagnostic suppressor then withholds
the compiler's warning CS8509 ("the switch expression does not handle all
possible inputs") for a switch over a union whose arms account for every
member. An arm accounts for a member when it names the member's type
exactly, or an interface the member implements.

This project models five parts of the repository:

- **`Suppressor`**: the suppressor. It covers the `Rule` descriptor, the
  per-switch decision `ShouldSuppress`, the `GetCoveredTypes` loop over the
  arms, and the `ReportSuppressions` loop over the reported diagnostics. The
  compiler is modelled by what the suppressor reads of it:
  - type symbols are identities with a name, a namespace and a set of
    implemented interfaces;
  - a semantic model is a partial map from syntax nodes to types;
  - an arm is a pattern form with the node whose type it asks for, plus a
    flag for a `when` clause.

  The two loops are methods proved equal to functions. The decision's
  properties are lemmas about those functions.
- **`Unions`**: the railway-oriented library's failures (`ResultFailure` and
  its cases), `Result`, `Result<T>` (here `ResultOf<T>`) and `Option<T>`,
  with their implicit conversions.
- **`Extensions`**: the LINQ and railway combinators over those unions.
  - `Select` and `SelectMany`, with the query-syntax projection overloads.
  - `Require` and `ToOption`/`ToResult`.
  - `OnSuccess`/`OnFailure`. These are methods that record what their
    action was called with.
- **`Application`, `TodoService`, `ItemService`**: the `InvalidError.If`
  guard and the two services.
  - Each service method is its query expression, translated the way C#
    translates `from … from … select` into `SelectMany` calls.
  - A repository is given as the results its operations return.
- **`Example`**: the example unions `Side` and `Option<T>`, and the functions
  `ChooseSide`, `Divide` and `CanDivide`. The example's switch expressions
  are given to the suppressor model as concrete instances.
- **`CSharp`**: the runtime behaviour the other modules rely on:
  - nullable references;
  - `string.IsNullOrWhiteSpace`, with .NET's white-space characters;
  - decimal formatting of an `int`;
  - 32-bit `int`;
  - C#'s division, which truncates toward zero.

The suppressor does not filter the diagnostics it is given by id
(UnionizeNow/SwitchExhaustivenessSuppressor.cs:40). The host passes it only
the diagnostic ids named in `SupportedSuppressions`. So `ReportSuppressions`
looks at every diagnostic it is given.

## Model

| member | source | states |
|---|---|---|
| Suppressor.ArmType | UnionizeNow/SwitchExhaustivenessSuppressor.cs:49-70 | the type an arm contributes: the resolved type of a declaration, constant or type pattern, and none for any other form (used by `CoveredTypesMembership`) |
| Suppressor.CoveredTypes | UnionizeNow/SwitchExhaustivenessSuppressor.cs:45-71 | the covered set as a comprehension over the arms, the specification `GetCoveredTypes` is proved against |
| Suppressor.ShouldSuppress | UnionizeNow/SwitchExhaustivenessSuppressor.cs:25-38 | the shipped decision for one switch: gates, then every member covered exactly or through one of its interfaces (properties in `ShouldSuppressGates`, `CoversAllIffNamed`) |
| Suppressor.GetCoveredTypes | UnionizeNow/SwitchExhaustivenessSuppressor.cs:45-74 | the loop's set is exactly the resolved types of the arms' declaration, constant and type patterns (`CoveredTypes`) |
| Suppressor.CoveredTypesMembership | UnionizeNow/SwitchExhaustivenessSuppressor.cs:48-71 | a type is covered iff some arm's pattern resolves to it |
| Suppressor.CoveredTypesAppend | UnionizeNow/SwitchExhaustivenessSuppressor.cs:48-71 | the covered set of concatenated arm lists is the union of the two covered sets |
| Suppressor.CoveredTypesSnoc | UnionizeNow/SwitchExhaustivenessSuppressor.cs:48-71 | one more arm adds its resolved type, if any, and nothing else |
| Suppressor.UnresolvedArmAddsNothing | UnionizeNow/SwitchExhaustivenessSuppressor.cs:49-70 | an arm of another pattern form, or whose type does not resolve, leaves the covered set unchanged |
| Suppressor.CoveredTypesOrderFree | UnionizeNow/SwitchExhaustivenessSuppressor.cs:46-71 | the covered set depends only on which arms occur, not on their order or repetition |
| Suppressor.ShouldSuppressGates | UnionizeNow/SwitchExhaustivenessSuppressor.cs:25-38 | suppression needs a semantic model, a resolved governing type that is a union, and a non-empty member list; past those gates, the coverage test alone decides |
| Suppressor.NoMembersNoSuppression | UnionizeNow/SwitchExhaustivenessSuppressor.cs:32-33 | a type with no union members is never suppressed for |
| Suppressor.NonUnionNoSuppression | UnionizeNow/SwitchExhaustivenessSuppressor.cs:28-31 | a type that neither is nor implements `UnionizeNow.IUnionizeNow` is never suppressed for |
| Suppressor.CoversAllIffNamed | UnionizeNow/SwitchExhaustivenessSuppressor.cs:35-38 | coverage holds iff every member is named by some arm, exactly or through an interface it implements |
| Suppressor.SuppressionMonotone | UnionizeNow/SwitchExhaustivenessSuppressor.cs:35-38 | adding arms to a suppressed switch keeps it suppressed |
| Suppressor.SuppressionOrderFree | UnionizeNow/SwitchExhaustivenessSuppressor.cs:46-71 | reordering or repeating arms does not change the decision |
| Suppressor.MarkerArmSuffices | UnionizeNow/SwitchExhaustivenessSuppressor.cs:35-38 | one arm naming an interface that every member implements suffices, whatever the other arms |
| Suppressor.GetSwitch | UnionizeNow/SwitchExhaustivenessSuppressor.cs:22-23 | the switch expression at a diagnostic's span, or null without a source tree |
| Suppressor.Qualifies | UnionizeNow/SwitchExhaustivenessSuppressor.cs:40 | the filter of the reporting loop: the diagnostic points at a switch that `ShouldSuppress` suppresses |
| Suppressor.Qualifying | UnionizeNow/SwitchExhaustivenessSuppressor.cs:40 | the qualifying diagnostics in feed order, the specification `ReportSuppressions` is proved against |
| Suppressor.ReportSuppressions | UnionizeNow/SwitchExhaustivenessSuppressor.cs:13-42 | one suppression per qualifying diagnostic, in feed order, each with the descriptor `UNION0001` for `CS8509` and the fixed justification |
| Suppressor.QualifyingSnoc | UnionizeNow/SwitchExhaustivenessSuppressor.cs:40 | the qualifying diagnostics of a longer feed are those of the prefix plus the last one if it qualifies |
| Suppressor.QualifyingCount | UnionizeNow/SwitchExhaustivenessSuppressor.cs:40-42 | each occurrence of a qualifying diagnostic is suppressed exactly once, and no other diagnostic is |
| Suppressor.NoSourceTreeNoSuppression | UnionizeNow/SwitchExhaustivenessSuppressor.cs:22-23 | a diagnostic without a source tree gets no suppression |
| Suppressor.Unguarded | UnionizeNow/SwitchExhaustivenessSuppressor.cs:48 | the arms kept are exactly those without a `when` clause |
| Suppressor.ShouldSuppressUnguarded | UnionizeNow/SwitchExhaustivenessSuppressor.cs:25-38 | the corrected decision: the shipped one over the arms without a `when` clause (characterised by `ShouldSuppressUnguardedSound`) |
| Suppressor.ShouldSuppressUnguardedSound | UnionizeNow/SwitchExhaustivenessSuppressor.cs:45-71 | the corrected decision suppresses iff the gates pass and every member is certainly caught by an arm with no `when` clause |
| Suppressor.UnguardedAgreesWithoutWhenClauses | UnionizeNow/SwitchExhaustivenessSuppressor.cs:25-38 | without `when` clauses the corrected decision and the shipped decision coincide |
| Suppressor.QualifiesUnguarded | UnionizeNow/SwitchExhaustivenessSuppressor.cs:40 | the reporting filter with the corrected decision |
| Suppressor.UnguardedCoversLess | UnionizeNow/SwitchExhaustivenessSuppressor.cs:45-71 | the covered set of the unguarded arms is a subset of the covered set of all arms |
| Suppressor.CorrectedFilterIsStricter | UnionizeNow/SwitchExhaustivenessSuppressor.cs:40 | every diagnostic the corrected filter suppresses, the shipped loop suppresses too |
| Suppressor.QualifiesAsShipped | UnionizeNow/SwitchExhaustivenessSuppressor.cs:40 | a diagnostic at a switch without `when` clauses qualifies iff the shipped decision suppresses that switch |
| Unions.ResultFailure.Message | UnionizeNow.Rop/Unions.cs:3-7 | the message each failure record passes to the base record (cases in `MessageCases`) |
| Unions.ResultFromFailure | UnionizeNow.Rop/Unions.cs:16 | a `ResultFailure` converts to `Result.Failure` carrying it |
| Unions.FromValue | UnionizeNow.Rop/Unions.cs:23 | a `T` converts to `Result<T>.Success` carrying it |
| Unions.FromFailure | UnionizeNow.Rop/Unions.cs:24 | a `ResultFailure` converts to `Result<T>.Failure` carrying it |
| Unions.OptionFromValue | UnionizeNow.Rop/Unions.cs:31 | a `T` converts to `Option<T>.Some` carrying it |
| Unions.MessageCases | UnionizeNow.Rop/Unions.cs:3-7 | a failure's message is null only for `Error(null)`; `Error` reports its argument, `FromException` the exception's message, `AggregateError` the fixed text |
| Unions.ConversionsDistinct | UnionizeNow.Rop/Unions.cs:16-31 | `T` and `ResultFailure` convert into different `Result<T>` cases, and every conversion keeps its argument |
| Extensions.SelectUnit | UnionizeNow.Rop/Extensions.cs:5-6 | unit `Select`: its input (`SelectUnitIdentity`) |
| Extensions.SelectManyUnit | UnionizeNow.Rop/Extensions.cs:8-11 | unit `SelectMany`: `bind(null)` on success, the failure otherwise (`SelectManyUnitLaws`) |
| Extensions.SelectManyUnitProjecting | UnionizeNow.Rop/Extensions.cs:13-16 | the projecting unit `SelectMany`, which ignores its projection (`SelectManyUnitLaws`) |
| Extensions.SelectValue | UnionizeNow.Rop/Extensions.cs:20-23 | `Select(Func<TOut>)` on a unit result: the selector's value on success, the error otherwise (`SelectValueLaws`) |
| Extensions.SelectValueOfNull | UnionizeNow.Rop/Extensions.cs:25-28 | `Select(Func<object?, TOut>)` on a unit result (`SelectValueLaws`) |
| Extensions.SelectManyValue | UnionizeNow.Rop/Extensions.cs:30-33 | `SelectMany` from a unit result to a value result (`SelectValueLaws`) |
| Extensions.Select | UnionizeNow.Rop/Extensions.cs:37-40 | `Result<T>.Select` (`SelectCases`, `SelectFunctor`) |
| Extensions.SelectMany | UnionizeNow.Rop/Extensions.cs:42-45 | `Result<T>.SelectMany` (`SelectManyCases`, `SelectManyMonad`) |
| Extensions.SelectManyValueProjecting | UnionizeNow.Rop/Extensions.cs:49-52 | bind-then-project from a unit result (`SelectManyValueProjectingLaws`) |
| Extensions.SelectManyProjecting | UnionizeNow.Rop/Extensions.cs:56-59 | bind-then-project from a value result (`SelectManyProjectingLaws`) |
| Extensions.RequireUnit | UnionizeNow.Rop/Extensions.cs:65-68 | unit `Require` (`RequireUnitLaws`) |
| Extensions.Require | UnionizeNow.Rop/Extensions.cs:88-91 | `Result<T>.Require` (`RequireLaws`) |
| Extensions.ToOption | UnionizeNow.Rop/Extensions.cs:93-96 | `Result<T>.ToOption` (`ToOptionCases`, `OptionRoundTrips`) |
| Extensions.OptionToResult | UnionizeNow.Rop/Extensions.cs:116-119 | `Option<T>.ToResult` (`ToResultCases`, `OptionRoundTrips`) |
| Extensions.ToResult | UnionizeNow.Rop/Extensions.cs:123-126 | `Result<Option<T>>.ToResult` (`ToResultCases`, `ToResultIsBind`) |
| Extensions.SelectUnitIdentity | UnionizeNow.Rop/Extensions.cs:5-6 | unit `Select` returns its input, whatever the selector |
| Extensions.SelectManyUnitLaws | UnionizeNow.Rop/Extensions.cs:8-16 | unit `SelectMany` gives `bind(null)` on success and the same failure otherwise; the projection is never used |
| Extensions.SelectManyUnitIdentities | UnionizeNow.Rop/Extensions.cs:8-11 | `Success` is a left identity, and binding to `Success` gives the input back |
| Extensions.SelectValueLaws | UnionizeNow.Rop/Extensions.cs:20-33 | the unit-to-value `Select` overloads agree with binding to a success, and a failure passes its error on |
| Extensions.SelectManyValueProjectingLaws | UnionizeNow.Rop/Extensions.cs:49-52 | bind-then-project on a unit result: success of the projection, or the first failure unchanged |
| Extensions.SelectCases | UnionizeNow.Rop/Extensions.cs:37-40 | `Select` maps `Success(v)` to `Success(selector(v))` and keeps `Failure(e)` |
| Extensions.SelectManyCases | UnionizeNow.Rop/Extensions.cs:42-45 | `SelectMany` maps `Success(v)` to `selector(v)` and keeps `Failure(e)` |
| Extensions.SelectFunctor | UnionizeNow.Rop/Extensions.cs:37-40 | `Select` keeps the identity and composes |
| Extensions.SelectManyMonad | UnionizeNow.Rop/Extensions.cs:37-45 | `SelectMany` obeys the monad laws with the success conversion as unit; `Select` is bind then success |
| Extensions.SelectManyProjectingLaws | UnionizeNow.Rop/Extensions.cs:56-59 | with `Success(v)` and `bind(v) == Success(m)` the result is `Success(project(v, m))`; a failure at either stage is passed on unchanged |
| Extensions.RequireUnitLaws | UnionizeNow.Rop/Extensions.cs:65-68 | unit `Require` keeps a success iff the condition holds, else gives `onError()`; a failure passes through |
| Extensions.OnSuccessUnit | UnionizeNow.Rop/Extensions.cs:70-76 | returns its input; the action runs once on a success and never on a failure |
| Extensions.OnFailureUnit | UnionizeNow.Rop/Extensions.cs:78-84 | returns its input; the action is called with the error exactly when it is a failure |
| Extensions.RequireLaws | UnionizeNow.Rop/Extensions.cs:88-91 | `Require` keeps a success iff the predicate holds of its value, else gives `Failure(onError(value))`; a failure passes through; applying it twice equals applying it once |
| Extensions.ToOptionCases | UnionizeNow.Rop/Extensions.cs:93-96 | `ToOption` maps `Success(v)` to `Some(v)` and a failure to `None` |
| Extensions.OnSuccess | UnionizeNow.Rop/Extensions.cs:98-104 | returns its input; the action is called with the value exactly when it is a success |
| Extensions.OnFailure | UnionizeNow.Rop/Extensions.cs:106-112 | returns its input; the action is called with the error exactly when it is a failure |
| Extensions.ToResultCases | UnionizeNow.Rop/Extensions.cs:116-126 | `Some(v)` becomes `Success(v)` and `None` becomes `onNone()`; on a result of an option a failure is kept |
| Extensions.OptionRoundTrips | UnionizeNow.Rop/Extensions.cs:93-119 | a success survives `ToOption` then `ToResult`; an option survives `ToResult` with a failing fallback, then `ToOption` |
| Extensions.ToResultIsBind | UnionizeNow.Rop/Extensions.cs:122-126 | `ToResult` on a result of an option is `SelectMany` of the option conversion |
| Application.InvalidErrorIf | UnionizeNow.Rop/Application.cs:6-9 | a failure iff the condition holds, carrying `InvalidError(name, message)`, whose message is `message` |
| TodoService.GetById | UnionizeNow.Rop/Application.cs:27-32 | the id guard, then the repository lookup with a not-found fallback (`GetByIdInvalid`, `GetByIdValid`) |
| TodoService.Create | UnionizeNow.Rop/Application.cs:34-38 | the title guard, then the repository's create (`CreateCases`) |
| TodoService.UpdateTitleById | UnionizeNow.Rop/Application.cs:40-45 | the id guard, the title guard, then the repository's update (`UpdateTitleByIdCases`) |
| TodoService.DeleteById | UnionizeNow.Rop/Application.cs:47-51 | the id guard, then the repository's delete (`DeleteByIdCases`) |
| TodoService.GetByIdInvalid | UnionizeNow.Rop/Application.cs:27-29 | an id below 1 gives `InvalidError("id", "Id must be greater than 0.")` |
| TodoService.GetByIdValid | UnionizeNow.Rop/Application.cs:30-32 | with a valid id: a repository failure propagates, `Success(None)` becomes `NotFoundError("Unable to find Todo {id}.")`, and `Success(Some t)` becomes `Success(t)` |
| TodoService.CreateCases | UnionizeNow.Rop/Application.cs:34-38 | a null or blank title is an `InvalidError` naming `title`; otherwise the repository's result |
| TodoService.UpdateTitleByIdCases | UnionizeNow.Rop/Application.cs:40-45 | the id is checked first, so its error wins over a blank title; with both valid, the repository's result |
| TodoService.DeleteByIdCases | UnionizeNow.Rop/Application.cs:47-51 | the id error below 1, otherwise the repository's result |
| TodoService.InvalidIdIgnoresRepository | UnionizeNow.Rop/Application.cs:27-51 | with an invalid id the id-taking operations give the same result for any two repositories |
| ItemService.GetById | UnionizeNow.Rop/Application.cs:55-60 | the id guard, then the repository lookup with a not-found fallback (`GetByIdCases`) |
| ItemService.GetAllByTodoId | UnionizeNow.Rop/Application.cs:62-68 | the id guard, then the repository's list required to be non-empty (`GetAllByTodoIdCases`) |
| ItemService.Create | UnionizeNow.Rop/Application.cs:70-74 | the name guard, then the repository's create (`CreateCases`) |
| ItemService.UpdateCompletedById | UnionizeNow.Rop/Application.cs:76-80 | the id guard, then the repository's update (`UpdateCompletedAndDeleteCases`) |
| ItemService.UpdateNameById | UnionizeNow.Rop/Application.cs:82-88 | the id guard, the name guard, then the repository's update (`UpdateNameByIdCases`) |
| ItemService.DeleteById | UnionizeNow.Rop/Application.cs:90-94 | the id guard, then the repository's delete (`UpdateCompletedAndDeleteCases`) |
| ItemService.GetByIdCases | UnionizeNow.Rop/Application.cs:55-60 | the id error, the repository's failure, the not-found error with the id, or the item |
| ItemService.GetAllByTodoIdCases | UnionizeNow.Rop/Application.cs:62-68 | an empty list becomes `NotFoundError("Unable to find any items for todo {id}.")`; a non-empty list passes; failures propagate |
| ItemService.CreateCases | UnionizeNow.Rop/Application.cs:70-74 | a null or blank name is an `InvalidError` naming `name`; otherwise the repository's result |
| ItemService.UpdateCompletedAndDeleteCases | UnionizeNow.Rop/Application.cs:76-94 | the id error below 1, otherwise the repository's result |
| ItemService.UpdateNameByIdCases | UnionizeNow.Rop/Application.cs:82-88 | the id is checked before the name; with both valid, the repository's result |
| CSharp.NatToString | UnionizeNow.Rop/Application.cs:31 | the decimal text of a number: digits only, no leading zero, denoting that number |
| CSharp.IntToString | UnionizeNow.Rop/Application.cs:66 | an `int` prints as its magnitude's decimal text, signed when negative |
| CSharp.IntToStringInjective | UnionizeNow.Rop/Application.cs:31 | different ints have different decimal texts |
| Application.FramedIdInjective | UnionizeNow.Rop/Application.cs:31 | a fixed prefix, an id's text and a full stop determine the id |
| Application.NotFoundMessagesDistinct | UnionizeNow.Rop/Application.cs:31 | different ids give different not-found errors, for `Unable to find Todo {id}.` (lines 31, 59) and `Unable to find any items for todo {id}.` (line 66) |
| CSharp.IsWhiteSpace | UnionizeNow.Example/Example.cs:18 | the characters .NET counts as white space |
| CSharp.IsNullOrWhiteSpace | UnionizeNow.Example/Example.cs:18 | `string.IsNullOrWhiteSpace`: null, or every character white space (`NotBlank`) |
| CSharp.NotBlank | UnionizeNow.Example/Example.cs:18 | a string with a non-white-space character is not null-or-white-space |
| CSharp.TruncDiv | UnionizeNow.Example/Example.cs:37 | C#'s `/` on integers, truncating toward zero (`TruncDivQuotient`, `TruncDivInRange`) |
| CSharp.TruncDivQuotient | UnionizeNow.Example/Example.cs:37 | C# division: the remainder is smaller than the divisor in magnitude and has the dividend's sign |
| CSharp.TruncDivInRange | UnionizeNow.Example/Example.cs:37 | the quotient of two `int`s, other than `int.MinValue / -1`, is an `int` |
| Example.ChooseSide | UnionizeNow.Example/Example.cs:17-20 | `Scab` for a null or blank name, otherwise `Unionist(name)` (`ChooseSideCases`) |
| Example.IsUnionistIncomplete | UnionizeNow.Example/Example.cs:23-25 | the incomplete switch over `ChooseSide()`, reached only at `Scab` (`ExampleSwitchesEvaluate`) |
| Example.IsUnionist | UnionizeNow.Example/Example.cs:29-32 | the switch over `ChooseSide("Eugene")` (`ExampleSwitchesEvaluate`) |
| Example.ChooseSideCases | UnionizeNow.Example/Example.cs:17-20 | `Scab` iff the name is null, empty or white space; otherwise `Unionist(name)` |
| Example.ExampleSwitchesEvaluate | UnionizeNow.Example/Example.cs:22-32 | `IsUnionist()` is true because `ChooseSide("Eugene")` is `Unionist("Eugene")`; the incomplete switch is reached only at `Scab` |
| Example.OptionFrom | UnionizeNow.Example/Example.cs:13 | the example option's conversion from `T` to `Some` |
| Example.OptionFromKeeps | UnionizeNow.Example/Example.cs:13 | the conversion from `T` always gives `Some` of its argument, so distinct values convert to distinct options |
| Example.Divide | UnionizeNow.Example/Example.cs:35-38 | `None` for a zero divisor, otherwise `Some` of the truncated quotient (`DivideQuotient`) |
| Example.CanDivide | UnionizeNow.Example/Example.cs:40-43 | whether `Divide` gives `Some` (`DivideQuotient`) |
| Example.DivideQuotient | UnionizeNow.Example/Example.cs:35-43 | `Divide` is `None` iff the divisor is 0, otherwise the truncated quotient; `CanDivide` iff the divisor is not 0 |
| Example.SideIsUnion | UnionizeNow.Example/Example.cs:3-14 | `Side` and `Option<int>` are unions, and the example switches resolve to them |
| Example.IncompleteSwitchNotSuppressed | UnionizeNow.Example/Example.cs:22-25 | the arms `{IScab}` leave `Unionist` uncovered, so the warning stays |
| Example.UnionistSwitchSuppressed | UnionizeNow.Example/Example.cs:27-32 | the arms `{IUnionist, Side.Scab}` cover `Side`, mixing a member interface with an exact type |
| Example.CanDivideSwitchSuppressed | UnionizeNow.Example/Example.cs:40-43 | the arms `{ISome<int>, Option<int>.None}` cover `Option<int>` |
| Example.GuardedSwitchCounterexample | UnionizeNow/SwitchExhaustivenessSuppressor.cs:48-71 | a switch whose only `Unionist` arm has a `when` clause is suppressed as written, yet no arm certainly catches `Unionist`, and the corrected decision does not suppress |
| Example.GuardedDiagnosticSuppressed | UnionizeNow/SwitchExhaustivenessSuppressor.cs:40 | the shipped loop suppresses CS8509 at the guarded switch, and the corrected filter does not |

## Left out

- The compiler's syntax trees, `GetRoot`, `FindNode`, `GetSemanticModel`, `GetTypeInfo` and symbol equality are not modelled. They are abstract inputs: type identities, a symbol table, and a node-to-type map per syntax tree.
- Cancellation tokens and the host's suppression context are not modelled. `ReportSuppressions` returns the suppressions instead of reporting them one at a time.
- Suppressor.ReportSuppressions: requires the cast at UnionizeNow/SwitchExhaustivenessSuppressor.cs:23 to succeed, i.e. a diagnostic with a source tree points at a switch expression of that tree. The source would throw there instead. This may happen on a real CS8509: `FindNode` returns the outermost node with the diagnostic's span, which for a switch expression passed directly as an argument, `F(x switch { ... })`, is the argument node rather than the switch. That reading rests on the compiler's `FindNode`, which is not part of this model, and was not executed.
- The union generator, `IncrementalUnionGenerator`, is not part of this model. A union's member list and each type's interfaces, including the generated member interfaces, are inputs.
- The `when` clause of an arm is carried only as a flag, because the suppressor does not look at it. Patterns other than declaration, constant and type patterns are one case, since all of them add nothing.
- Logging is left out. The services' `OnFailure` callbacks only write to an `ILogger`. The calls on the unit results of `InvalidError.If` (UnionizeNow.Rop/Application.cs:29, 36, 42, 49, 57, 64, 72, 78, 84, 86, 92) are `Extensions.OnFailureUnit`, and the one on `Result<IEnumerable<TodoItem>>` (line 67) is `Extensions.OnFailure`; both return their input.
- Extensions.OnSuccessUnit, Extensions.OnSuccess, Extensions.OnFailureUnit, Extensions.OnFailure: the action's side effects are recorded only as the calls made and their arguments.
- Repositories are interfaces without an implementation. Each is a record of functions that give the result of each operation.
- `Exception` is reduced to its message. An `IEnumerable` payload is a finite sequence.
- The `Unit` record (UnionizeNow.Rop/Unions.cs:9) is used by nothing in the core. It is not modelled.
- The `null` passed as the value of a unit success is the single value `NullObject`.
- Example.Divide, Example.CanDivide, Example.DivideQuotient: require that the arguments are not `int.MinValue` and `-1`, on which `first / second` (UnionizeNow.Example/Example.cs:37) throws an overflow exception in C#, and so does `CanDivide` (line 40), which calls `Divide`.
- String interpolation of an id is invariant-culture decimal text. Culture-specific number formatting is not modelled.

## Findings

| source | as written | input that shows it | evidently intended | confidence | as-written member | corrected member |
|---|---|---|---|---|---|---|
| UnionizeNow/SwitchExhaustivenessSuppressor.cs:45-71 | an arm counts as covering its type even when it has a `when` clause, so the suppressor can hide the warning for a switch that throws at run time | `ChooseSide("Eugene") switch { Side.Unionist u when u.Name == "" => true, Side.Scab => false }` is suppressed, yet a `Unionist` with another name matches no arm | only arms without a `when` clause count toward coverage | not executed | Example.GuardedSwitchCounterexample | Suppressor.ShouldSuppressUnguardedSound |

`Suppressor.ReportSuppressions` models the loop as shipped, filtering with
`Suppressor.ShouldSuppress`. The corrected decision is
`Suppressor.ShouldSuppressUnguarded`, and `Suppressor.QualifiesUnguarded` is
the reporting filter built on it. The corrected filter is never laxer than
the shipped one (`Suppressor.CorrectedFilterIsStricter`). The two agree on
every switch without `when` clauses (`Suppressor.UnguardedAgreesWithoutWhenClauses`,
`Suppressor.QualifiesAsShipped`), which includes every switch in the example
project. At the guarded switch they differ (`Example.GuardedDiagnosticSuppressed`).
