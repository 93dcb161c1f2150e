/** The combinators over the result and option unions: the `Select` and
    `SelectMany` overloads that C# query syntax translates to (map, bind, and
    bind followed by a projection), and the guard, side-effect and conversion
    helpers. Each overload is a two-way case split on its receiver; its name
    here says which receiver it takes and what its delegates produce. */
module Extensions {
  import opened CSharp
  import opened Unions

  // ---------------------------------------------------------------------
  // Query operators on the unit result

  /** `Result.Select(Func<object?, object?>)`: the selector is never called. */
  function SelectUnit<X>(result: Result, selector: NullObject -> X): Result {
    result
  }

  /** `Result.SelectMany(Func<object?, Result>)`. */
  function SelectManyUnit(result: Result, bind: NullObject -> Result): Result {
    match result
    case Success => bind(NullObject)
    case Failure(_) => result
  }

  /** `Result.SelectMany(Func<object?, Result>, Func<object?, object?, object?>)`:
      the projection is never called. */
  function SelectManyUnitProjecting<X>(result: Result, bind: NullObject -> Result,
                                       projection: (NullObject, NullObject) -> X): Result {
    match result
    case Success => bind(NullObject)
    case Failure(_) => result
  }

  /** `Result.Select<TOut>(Func<TOut>)`. */
  function SelectValue<TOut>(result: Result, selector: () -> TOut): ResultOf<TOut> {
    match result
    case Success => FromValue(selector())
    case Failure(e) => FromFailure(e)
  }

  /** `Result.Select<TOut>(Func<object?, TOut>)`. */
  function SelectValueOfNull<TOut>(result: Result, selector: NullObject -> TOut): ResultOf<TOut> {
    match result
    case Success => FromValue(selector(NullObject))
    case Failure(e) => FromFailure(e)
  }

  /** `Result.SelectMany<TOut>(Func<object?, Result<TOut>>)`. */
  function SelectManyValue<TOut>(result: Result, bind: NullObject -> ResultOf<TOut>): ResultOf<TOut> {
    match result
    case Success => bind(NullObject)
    case Failure(e) => FromFailure(e)
  }

  // ---------------------------------------------------------------------
  // Query operators on the value result

  /** `Result<TIn>.Select(Func<TIn, TOut>)`. */
  function Select<TIn, TOut>(result: ResultOf<TIn>, selector: TIn -> TOut): ResultOf<TOut> {
    match result
    case Success(v) => FromValue(selector(v))
    case Failure(e) => FromFailure(e)
  }

  /** `Result<TIn>.SelectMany(Func<TIn, Result<TOut>>)`. */
  function SelectMany<TIn, TOut>(result: ResultOf<TIn>, selector: TIn -> ResultOf<TOut>): ResultOf<TOut> {
    match result
    case Success(v) => selector(v)
    case Failure(e) => FromFailure(e)
  }

  /** `Result.SelectMany<TMiddle, TOut>(bind, project)`, what
      `from _ in r from m in bind(_) select project(_, m)` becomes on a unit result. */
  function SelectManyValueProjecting<TMiddle, TOut>(result: Result, bind: NullObject -> ResultOf<TMiddle>,
                                                   project: (NullObject, TMiddle) -> TOut): ResultOf<TOut> {
    match result
    case Success => Select(bind(NullObject), m => project(NullObject, m))
    case Failure(e) => FromFailure(e)
  }

  /** `Result<TIn>.SelectMany<TMiddle, TOut>(bind, project)`. */
  function SelectManyProjecting<TIn, TMiddle, TOut>(result: ResultOf<TIn>, bind: TIn -> ResultOf<TMiddle>,
                                                   project: (TIn, TMiddle) -> TOut): ResultOf<TOut> {
    match result
    case Success(v) => Select(bind(v), m => project(v, m))
    case Failure(e) => FromFailure(e)
  }

  // ---------------------------------------------------------------------
  // Guards, side effects and conversions

  /** `Result.Require(bool, Func<ResultFailure>)`. */
  function RequireUnit(result: Result, condition: bool, onError: () -> ResultFailure): Result {
    match result
    case Success => if condition then result else ResultFromFailure(onError())
    case Failure(_) => result
  }

  /** `Result.OnSuccess(Action)`: runs the action on a success and returns the
      input; `actionCalls` counts the calls of the action. */
  method OnSuccessUnit(result: Result) returns (r: Result, actionCalls: nat)
    ensures r == result
    ensures actionCalls == if result.Success? then 1 else 0
  {
    actionCalls := 0;
    if result.Success? {
      actionCalls := actionCalls + 1;
    }
    r := result;
  }

  /** `Result.OnFailure(Action<ResultFailure>)`: runs the action on the error
      of a failure and returns the input; `actionArguments` lists what the
      action was called with. */
  method OnFailureUnit(result: Result) returns (r: Result, actionArguments: seq<ResultFailure>)
    ensures r == result
    ensures actionArguments == if result.Failure? then [result.error] else []
  {
    actionArguments := [];
    if result.Failure? {
      actionArguments := actionArguments + [result.error];
    }
    r := result;
  }

  /** `Result<T>.Require(Func<T, bool>, Func<T, ResultFailure>)`. */
  function Require<T>(result: ResultOf<T>, condition: T -> bool, onError: T -> ResultFailure): ResultOf<T> {
    match result
    case Success(v) => if condition(v) then result else FromFailure(onError(v))
    case Failure(_) => result
  }

  /** `Result<T>.ToOption()`. */
  function ToOption<T>(result: ResultOf<T>): Option<T> {
    match result
    case Success(v) => OptionFromValue(v)
    case Failure(_) => None
  }

  /** `Result<T>.OnSuccess(Action<T>)`. */
  method OnSuccess<T>(result: ResultOf<T>) returns (r: ResultOf<T>, actionArguments: seq<T>)
    ensures r == result
    ensures actionArguments == if result.Success? then [result.value] else []
  {
    actionArguments := [];
    if result.Success? {
      actionArguments := actionArguments + [result.value];
    }
    r := result;
  }

  /** `Result<T>.OnFailure(Action<ResultFailure>)`. */
  method OnFailure<T>(result: ResultOf<T>) returns (r: ResultOf<T>, actionArguments: seq<ResultFailure>)
    ensures r == result
    ensures actionArguments == if result.Failure? then [result.error] else []
  {
    actionArguments := [];
    if result.Failure? {
      actionArguments := actionArguments + [result.error];
    }
    r := result;
  }

  /** `Option<T>.ToResult(Func<Result<T>>)`. */
  function OptionToResult<T>(option: Option<T>, onNone: () -> ResultOf<T>): ResultOf<T> {
    match option
    case Some(v) => FromValue(v)
    case None => onNone()
  }

  /** `Result<Option<T>>.ToResult(Func<Result<T>>)`. */
  function ToResult<T>(result: ResultOf<Option<T>>, onNone: () -> ResultOf<T>): ResultOf<T> {
    match result
    case Success(o) => OptionToResult(o, onNone)
    case Failure(e) => FromFailure(e)
  }

  // ---------------------------------------------------------------------
  // Laws of the unit-result operators

  /** The unit `Select` is the identity, whatever the selector. */
  lemma SelectUnitIdentity<X>(result: Result, selector: NullObject -> X, other: NullObject -> X)
    ensures SelectUnit(result, selector) == result
    ensures SelectUnit(result, selector) == SelectUnit(result, other)
  {
  }

  /** The unit `SelectMany` runs `bind` on a success and otherwise returns the
      same failure; the projecting overload ignores its projection. */
  lemma SelectManyUnitLaws<X>(result: Result, bind: NullObject -> Result, projection: (NullObject, NullObject) -> X)
    ensures result.Success? ==> SelectManyUnit(result, bind) == bind(NullObject)
    ensures result.Failure? ==> SelectManyUnit(result, bind) == result
    ensures SelectManyUnitProjecting(result, bind, projection) == SelectManyUnit(result, bind)
  {
  }

  /** A unit result is a left identity for the unit `SelectMany` when it
      succeeds, and a success bound with "succeed" gives back the result. */
  lemma SelectManyUnitIdentities(result: Result, bind: NullObject -> Result)
    ensures SelectManyUnit(Result.Success, bind) == bind(NullObject)
    ensures SelectManyUnit(result, _ => Result.Success) == result
  {
  }

  /** The unit `Select` into a value agrees with binding to a success, and a
      failure passes its error on. */
  lemma SelectValueLaws<TOut>(result: Result, selector: () -> TOut, bind: NullObject -> ResultOf<TOut>)
    ensures SelectValue(result, selector) == SelectManyValue(result, _ => FromValue(selector()))
    ensures SelectValueOfNull(result, _ => selector()) == SelectValue(result, selector)
    ensures result.Success? ==> SelectManyValue(result, bind) == bind(NullObject)
    ensures result.Failure? ==> SelectManyValue(result, bind) == FromFailure(result.error)
  {
  }

  /** On a unit result, bind-then-project is bind followed by a `Select` of the projection. */
  lemma SelectManyValueProjectingLaws<TMiddle, TOut>(result: Result, bind: NullObject -> ResultOf<TMiddle>,
                                                    project: (NullObject, TMiddle) -> TOut)
    ensures SelectManyValueProjecting(result, bind, project) ==
      SelectManyValue(result, n => Select(bind(n), m => project(n, m)))
    ensures result.Success? && bind(NullObject).Success? ==>
      SelectManyValueProjecting(result, bind, project) == FromValue(project(NullObject, bind(NullObject).value))
    ensures result.Success? && bind(NullObject).Failure? ==>
      SelectManyValueProjecting(result, bind, project) == FromFailure(bind(NullObject).error)
    ensures result.Failure? ==> SelectManyValueProjecting(result, bind, project) == FromFailure(result.error)
  {
  }

  // ---------------------------------------------------------------------
  // Laws of the value-result operators

  /** `Select` maps the value of a success and keeps the error of a failure. */
  lemma SelectCases<TIn, TOut>(v: TIn, e: ResultFailure, selector: TIn -> TOut)
    ensures Select(FromValue(v), selector) == FromValue(selector(v))
    ensures Select(FromFailure<TIn>(e), selector) == FromFailure(e)
  {
  }

  /** `SelectMany` hands the value of a success to the selector and keeps the error of a failure. */
  lemma SelectManyCases<TIn, TOut>(v: TIn, e: ResultFailure, selector: TIn -> ResultOf<TOut>)
    ensures SelectMany(FromValue(v), selector) == selector(v)
    ensures SelectMany(FromFailure<TIn>(e), selector) == FromFailure(e)
  {
  }

  /** `Select` is a functor map: it keeps the identity and composes. */
  lemma SelectFunctor<A, B, C>(result: ResultOf<A>, f: A -> B, g: B -> C)
    ensures Select(result, x => x) == result
    ensures Select(Select(result, f), g) == Select(result, x => g(f(x)))
  {
  }

  /** `SelectMany` is a monadic bind with the success conversion as unit, and
      `Select` is bind followed by the success conversion. */
  lemma SelectManyMonad<A, B, C>(v: A, result: ResultOf<A>, f: A -> ResultOf<B>, g: B -> ResultOf<C>, h: A -> B)
    ensures SelectMany(FromValue(v), f) == f(v)
    ensures SelectMany(result, x => FromValue(x)) == result
    ensures SelectMany(SelectMany(result, f), g) == SelectMany(result, x => SelectMany(f(x), g))
    ensures Select(result, h) == SelectMany(result, x => FromValue(h(x)))
  {
  }

  /** Bind-then-project: with `Success(v)` and `bind(v) == Success(m)` it is
      `Success(project(v, m))`, and a failure at either stage is passed on
      unchanged. */
  lemma SelectManyProjectingLaws<TIn, TMiddle, TOut>(result: ResultOf<TIn>, bind: TIn -> ResultOf<TMiddle>,
                                                    project: (TIn, TMiddle) -> TOut)
    ensures SelectManyProjecting(result, bind, project) ==
      SelectMany(result, v => Select(bind(v), m => project(v, m)))
    ensures result.Success? && bind(result.value).Success? ==>
      SelectManyProjecting(result, bind, project) == FromValue(project(result.value, bind(result.value).value))
    ensures result.Success? && bind(result.value).Failure? ==>
      SelectManyProjecting(result, bind, project) == FromFailure(bind(result.value).error)
    ensures result.Failure? ==> SelectManyProjecting(result, bind, project) == FromFailure(result.error)
  {
  }

  // ---------------------------------------------------------------------
  // Laws of the guards and conversions

  /** The unit `Require` keeps a success exactly when the predicate holds,
      replaces it by the guard's failure otherwise, and passes a failure through. */
  lemma RequireUnitLaws(result: Result, condition: bool, onError: () -> ResultFailure)
    ensures RequireUnit(result, condition, onError).Success? <==> result.Success? && condition
    ensures result.Success? && !condition ==> RequireUnit(result, condition, onError) == Result.Failure(onError())
    ensures result.Success? && condition ==> RequireUnit(result, condition, onError) == result
    ensures result.Failure? ==> RequireUnit(result, condition, onError) == result
  {
  }

  /** `Require` keeps a success exactly when the predicate holds of its value,
      yields `Failure(onError(value))` otherwise, passes a failure through, and
      asking twice is asking once. */
  lemma RequireLaws<T>(result: ResultOf<T>, condition: T -> bool, onError: T -> ResultFailure)
    ensures Require(result, condition, onError).Success? <==> result.Success? && condition(result.value)
    ensures result.Success? && condition(result.value) ==> Require(result, condition, onError) == result
    ensures result.Success? && !condition(result.value) ==>
      Require(result, condition, onError) == FromFailure(onError(result.value))
    ensures result.Failure? ==> Require(result, condition, onError) == result
    ensures Require(Require(result, condition, onError), condition, onError) == Require(result, condition, onError)
  {
  }

  /** `ToOption` keeps the value of a success and forgets the error of a failure. */
  lemma ToOptionCases<T>(v: T, e: ResultFailure)
    ensures ToOption(FromValue(v)) == Some(v)
    ensures ToOption(FromFailure<T>(e)) == None
  {
  }

  /** `ToResult` on an option and on a result of an option. */
  lemma ToResultCases<T>(v: T, e: ResultFailure, onNone: () -> ResultOf<T>)
    ensures OptionToResult(Some(v), onNone) == FromValue(v)
    ensures OptionToResult(None, onNone) == onNone()
    ensures ToResult(FromValue(Some(v)), onNone) == FromValue(v)
    ensures ToResult(FromValue(None), onNone) == onNone()
    ensures ToResult(FromFailure<Option<T>>(e), onNone) == FromFailure(e)
  {
  }

  /** Converting to an option and back: a success comes back unchanged, and
      an option that falls back to a failure comes back unchanged. */
  lemma OptionRoundTrips<T>(result: ResultOf<T>, option: Option<T>, e: ResultFailure)
    ensures result.Success? ==> OptionToResult(ToOption(result), () => FromFailure(e)) == result
    ensures ToOption(OptionToResult(option, () => FromFailure(e))) == option
  {
  }

  /** `ToResult` on a result of an option binds the option conversion. */
  lemma ToResultIsBind<T>(result: ResultOf<Option<T>>, onNone: () -> ResultOf<T>)
    ensures ToResult(result, onNone) == SelectMany(result, o => OptionToResult(o, onNone))
  {
  }
}
