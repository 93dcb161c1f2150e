/** The application layer: the validation guard, the records, and the
    repositories the two services compose. A repository is given as the
    results its operations would return, one function per operation; the
    services only ever hand it the arguments they were called with. */
module Application {
  import opened CSharp
  import opened Unions

  datatype TodoItem = TodoItem(id: int, name: string, isCompleted: bool)

  datatype Todo = Todo(id: int, title: string, items: seq<TodoItem>)

  /** `InvalidError.If`: a failure carrying an `InvalidError` when the
      predicate holds, a success otherwise. */
  function InvalidErrorIf(condition: bool, name: string, message: string): (r: Result)
    ensures r.Failure? <==> condition
    ensures r.Failure? ==> r.error == InvalidError(name, message) && r.error.Message() == NonNull(message)
  {
    if condition then ResultFromFailure(InvalidError(name, message)) else Result.Success
  }

  datatype TodoRepository = TodoRepository(
    getById: int -> ResultOf<Option<Todo>>,
    create: Nullable<string> -> ResultOf<int>,
    updateTitleById: (int, Nullable<string>) -> Result,
    deleteById: int -> Result)

  datatype ItemRepository = ItemRepository(
    getById: int -> ResultOf<Option<TodoItem>>,
    getAllByTodoId: int -> ResultOf<seq<TodoItem>>,
    create: Nullable<string> -> ResultOf<int>,
    updateCompletedById: (int, bool) -> Result,
    updateNameById: (int, Nullable<string>) -> Result,
    deleteById: int -> Result)

  const IdMessage := "Id must be greater than 0."

  /** The id guard every id-taking operation starts with. */
  function IdGuard(id: int): Result {
    InvalidErrorIf(id < 1, "id", IdMessage)
  }

  /** The failure an invalid id produces. */
  const InvalidId: ResultFailure := InvalidError("id", IdMessage)

  function TodoNotFound(id: int): ResultFailure {
    NotFoundError("Unable to find Todo " + IntToString(id) + ".")
  }

  function ItemsNotFound(id: int): ResultFailure {
    NotFoundError("Unable to find any items for todo " + IntToString(id) + ".")
  }

  /** A message made of a fixed prefix, an id's text and a full stop names one id. */
  lemma {:induction false} FramedIdInjective(prefix: string, i: int, j: int)
    requires prefix + IntToString(i) + "." == prefix + IntToString(j) + "."
    ensures i == j
  {
    var m := prefix + IntToString(i) + ".";
    assert IntToString(i) == m[|prefix|..|m| - 1];
    assert IntToString(j) == m[|prefix|..|m| - 1];
    IntToStringInjective(i, j);
  }

  /** Different ids give different not-found messages. */
  lemma NotFoundMessagesDistinct(i: int, j: int)
    ensures TodoNotFound(i) == TodoNotFound(j) ==> i == j
    ensures ItemsNotFound(i) == ItemsNotFound(j) ==> i == j
  {
    if TodoNotFound(i) == TodoNotFound(j) {
      FramedIdInjective("Unable to find Todo ", i, j);
    }
    if ItemsNotFound(i) == ItemsNotFound(j) {
      FramedIdInjective("Unable to find any items for todo ", i, j);
    }
  }
}

/** `TodoService`: each operation is the query expression of the service,
    translated the way C# translates `from ... from ... select`. The logging
    callbacks passed to `OnFailure` are left out: `OnFailure` returns its
    input unchanged. */
module TodoService {
  import opened CSharp
  import opened Unions
  import opened Extensions
  import opened Application

  function GetById(repository: TodoRepository, id: int): ResultOf<Todo> {
    SelectManyValueProjecting(
      IdGuard(id),
      _ => ToResult(repository.getById(id), () => FromFailure(TodoNotFound(id))),
      (_, todo) => todo)
  }

  function Create(repository: TodoRepository, title: Nullable<string>): ResultOf<int> {
    SelectManyValueProjecting(
      InvalidErrorIf(IsNullOrWhiteSpace(title), "title", "Must provide a title."),
      _ => repository.create(title),
      (_, id) => id)
  }

  function UpdateTitleById(repository: TodoRepository, id: int, title: Nullable<string>): Result {
    SelectManyUnitProjecting(
      SelectManyUnitProjecting(
        IdGuard(id),
        _ => InvalidErrorIf(IsNullOrWhiteSpace(title), "title", "Must provide a title."),
        (vId, vTitle) => (vId, vTitle)),
      _ => repository.updateTitleById(id, title),
      (_, result) => result)
  }

  function DeleteById(repository: TodoRepository, id: int): Result {
    SelectManyUnitProjecting(IdGuard(id), _ => repository.deleteById(id), (_, result) => result)
  }

  /** An id below 1 yields the id error, whatever the repository would return. */
  lemma GetByIdInvalid(repository: TodoRepository, id: int)
    requires id < 1
    ensures GetById(repository, id) == FromFailure(InvalidId)
  {
  }

  /** A valid id hands the lookup to the repository: its failure is passed on,
      a missing todo becomes a not-found error naming the id, and a found
      todo is the result. */
  lemma GetByIdValid(repository: TodoRepository, id: int)
    requires id >= 1
    ensures match repository.getById(id)
      case Failure(e) => GetById(repository, id) == FromFailure(e)
      case Success(None) => GetById(repository, id) == FromFailure(NotFoundError("Unable to find Todo " + NatToString(id) + "."))
      case Success(Some(todo)) => GetById(repository, id) == FromValue(todo)
  {
  }

  /** A null or blank title is rejected with an error naming the parameter;
      any other title gets the repository's result. */
  lemma CreateCases(repository: TodoRepository, title: Nullable<string>)
    ensures IsNullOrWhiteSpace(title) ==>
      Create(repository, title) == FromFailure(InvalidError("title", "Must provide a title."))
    ensures !IsNullOrWhiteSpace(title) ==> Create(repository, title) == repository.create(title)
  {
  }

  /** The id is checked before the title: an invalid id wins over a blank
      title, and the repository is consulted only when both are valid. */
  lemma UpdateTitleByIdCases(repository: TodoRepository, id: int, title: Nullable<string>)
    ensures id < 1 ==> UpdateTitleById(repository, id, title) == Result.Failure(InvalidId)
    ensures id >= 1 && IsNullOrWhiteSpace(title) ==>
      UpdateTitleById(repository, id, title) == Result.Failure(InvalidError("title", "Must provide a title."))
    ensures id >= 1 && !IsNullOrWhiteSpace(title) ==>
      UpdateTitleById(repository, id, title) == repository.updateTitleById(id, title)
  {
  }

  lemma DeleteByIdCases(repository: TodoRepository, id: int)
    ensures id < 1 ==> DeleteById(repository, id) == Result.Failure(InvalidId)
    ensures id >= 1 ==> DeleteById(repository, id) == repository.deleteById(id)
  {
  }

  /** With an invalid id no operation depends on the repository. */
  lemma InvalidIdIgnoresRepository(r1: TodoRepository, r2: TodoRepository, id: int, title: Nullable<string>)
    requires id < 1
    ensures GetById(r1, id) == GetById(r2, id)
    ensures UpdateTitleById(r1, id, title) == UpdateTitleById(r2, id, title)
    ensures DeleteById(r1, id) == DeleteById(r2, id)
  {
    GetByIdInvalid(r1, id);
    GetByIdInvalid(r2, id);
    UpdateTitleByIdCases(r1, id, title);
    UpdateTitleByIdCases(r2, id, title);
  }
}

/** `ItemService`, translated the same way. */
module ItemService {
  import opened CSharp
  import opened Unions
  import opened Extensions
  import opened Application

  function GetById(repository: ItemRepository, id: int): ResultOf<TodoItem> {
    SelectManyValueProjecting(
      IdGuard(id),
      _ => ToResult(repository.getById(id), () => FromFailure(TodoNotFound(id))),
      (_, item) => item)
  }

  function GetAllByTodoId(repository: ItemRepository, id: int): ResultOf<seq<TodoItem>> {
    SelectManyValueProjecting(
      IdGuard(id),
      _ => Require(repository.getAllByTodoId(id), (i: seq<TodoItem>) => |i| > 0, _ => ItemsNotFound(id)),
      (_, items) => items)
  }

  function Create(repository: ItemRepository, name: Nullable<string>): ResultOf<int> {
    SelectManyValueProjecting(
      InvalidErrorIf(IsNullOrWhiteSpace(name), "name", "Must provide a name."),
      _ => repository.create(name),
      (_, id) => id)
  }

  function UpdateCompletedById(repository: ItemRepository, id: int, isCompleted: bool): Result {
    SelectManyUnitProjecting(IdGuard(id), _ => repository.updateCompletedById(id, isCompleted), (_, result) => result)
  }

  function UpdateNameById(repository: ItemRepository, id: int, name: Nullable<string>): Result {
    SelectManyUnitProjecting(
      SelectManyUnitProjecting(
        IdGuard(id),
        _ => InvalidErrorIf(IsNullOrWhiteSpace(name), "name", "Must provide a name."),
        (vId, vName) => (vId, vName)),
      _ => repository.updateNameById(id, name),
      (_, result) => result)
  }

  function DeleteById(repository: ItemRepository, id: int): Result {
    SelectManyUnitProjecting(IdGuard(id), _ => repository.deleteById(id), (_, result) => result)
  }

  /** An item lookup behaves like the todo lookup, with the same not-found text. */
  lemma GetByIdCases(repository: ItemRepository, id: int)
    ensures id < 1 ==> GetById(repository, id) == FromFailure(InvalidId)
    ensures id >= 1 ==> match repository.getById(id)
      case Failure(e) => GetById(repository, id) == FromFailure(e)
      case Success(None) => GetById(repository, id) == FromFailure(NotFoundError("Unable to find Todo " + NatToString(id) + "."))
      case Success(Some(item)) => GetById(repository, id) == FromValue(item)
  {
  }

  /** A successful empty list becomes a not-found error naming the todo id,
      a non-empty list is passed through, and a repository failure propagates. */
  lemma GetAllByTodoIdCases(repository: ItemRepository, id: int)
    ensures id < 1 ==> GetAllByTodoId(repository, id) == FromFailure(InvalidId)
    ensures id >= 1 ==> match repository.getAllByTodoId(id)
      case Failure(e) => GetAllByTodoId(repository, id) == FromFailure(e)
      case Success(items) =>
        GetAllByTodoId(repository, id) ==
          if items == [] then FromFailure(NotFoundError("Unable to find any items for todo " + NatToString(id) + "."))
          else FromValue(items)
  {
  }

  lemma CreateCases(repository: ItemRepository, name: Nullable<string>)
    ensures IsNullOrWhiteSpace(name) ==>
      Create(repository, name) == FromFailure(InvalidError("name", "Must provide a name."))
    ensures !IsNullOrWhiteSpace(name) ==> Create(repository, name) == repository.create(name)
  {
  }

  /** The id is checked before the name. */
  lemma UpdateNameByIdCases(repository: ItemRepository, id: int, name: Nullable<string>)
    ensures id < 1 ==> UpdateNameById(repository, id, name) == Result.Failure(InvalidId)
    ensures id >= 1 && IsNullOrWhiteSpace(name) ==>
      UpdateNameById(repository, id, name) == Result.Failure(InvalidError("name", "Must provide a name."))
    ensures id >= 1 && !IsNullOrWhiteSpace(name) ==>
      UpdateNameById(repository, id, name) == repository.updateNameById(id, name)
  {
  }

  lemma UpdateCompletedAndDeleteCases(repository: ItemRepository, id: int, isCompleted: bool)
    ensures id < 1 ==> UpdateCompletedById(repository, id, isCompleted) == Result.Failure(InvalidId)
    ensures id >= 1 ==> UpdateCompletedById(repository, id, isCompleted) == repository.updateCompletedById(id, isCompleted)
    ensures id < 1 ==> DeleteById(repository, id) == Result.Failure(InvalidId)
    ensures id >= 1 ==> DeleteById(repository, id) == repository.deleteById(id)
  {
  }
}
