/** The `App` component: its state (the two draft inputs, the task list and the loading flag),
    the handlers that change that state, and what it renders from it. */
module TodoApp {
  import opened Tasks
  import opened FormValidation

  /** What one listed task shows: its title (struck through when done), its duration in hours
      and, through its bookmark icon, whether it is done. */
  datatype Row = Row(title: string, time: string, done: bool)

  /** What the component renders. */
  datatype Screen =
    | Loading                                    // the "Carregando..." placeholder alone
    | Crashed                                    // `todos.length` read on an undefined list
    | Page(noTasksMessage: bool, rows: seq<Row>) // the form, then the list of tasks

  /** How the initial fetch of the task list settles. */
  datatype LoadResult = Fetched(tasks: seq<Task>) | FetchFailed

  /** The rows of the list view, one per task, in list order. */
  function RowsOf(ts: seq<Task>): (rows: seq<Row>)
    reads ts
    ensures |rows| == |ts|
    ensures forall i :: 0 <= i < |ts| ==> rows[i] == Row(ts[i].title, ts[i].time, ts[i].done)
  {
    if ts == [] then [] else [Row(ts[0].title, ts[0].time, ts[0].done)] + RowsOf(ts[1..])
  }

  class App {
    /** The draft title, as typed into the title input. */
    var title: string
    /** The draft duration, as typed into the time input. */
    var time: string
    /** The local copy of the task collection. */
    var todos: seq<Task>
    /** Whether the initial fetch is outstanding. */
    var loading: bool
    /** Whether a failed initial fetch has stored `undefined` as the task list. */
    var todosUndefined: bool

    /** The initial state of the `useState` hooks. */
    constructor ()
      ensures title == "" && time == "" && todos == [] && !loading && !todosUndefined
    {
      title, time, todos, loading, todosUndefined := "", "", [], false, false;
    }

    /** The title input's change handler. */
    method ChangeTitle(value: string)
      modifies this`title
      ensures title == value
    {
      title := value;
    }

    /** The time input's change handler. */
    method ChangeTime(value: string)
      modifies this`time
      ensures time == value
    {
      time := value;
    }

    /** The part of `loadData` before the fetch is awaited. */
    method BeginLoad()
      modifies this`loading
      ensures loading
    {
      loading := true;
    }

    /** The part of `loadData` after the fetch settles: loading ends, then the fetched list
        becomes the collection; a failed fetch leaves `undefined` in its place. */
    method FinishLoad(result: LoadResult)
      modifies this`loading, this`todos, this`todosUndefined
      ensures !loading
      ensures todosUndefined <==> result.FetchFailed?
      ensures todos == if result.Fetched? then result.tasks else old(todos)
    {
      loading := false;
      match result
      case Fetched(tasks) =>
        todos, todosUndefined := tasks, false;
      case FetchFailed =>
        todosUndefined := true;
    }

    /** `loadData` as a whole, given how its fetch settles; `during` is what the component
        shows while the fetch is outstanding. */
    method LoadData(result: LoadResult) returns (during: Screen)
      modifies this`loading, this`todos, this`todosUndefined
      ensures during == Loading
      ensures !loading
      ensures todosUndefined <==> result.FetchFailed?
      ensures todos == if result.Fetched? then result.tasks else old(todos)
    {
      BeginLoad();
      during := Render();
      FinishLoad(result);
    }

    /** `handleSubmit`: the record built from the drafts (with the fresh identifier `id`) is
        appended to the collection, then both drafts are cleared. */
    method HandleSubmit(id: Id) returns (todo: Task)
      requires !todosUndefined
      modifies this`todos, this`title, this`time
      ensures fresh(todo)
      ensures todo.id == id && todo.title == old(title) && todo.time == old(time) && !todo.done
      ensures todos == Append(old(todos), todo)
      ensures title == "" && time == ""
    {
      todo := new Task(id, title, time, false);
      todos := Append(todos, todo);
      title := "";
      time := "";
    }

    /** Submitting the form: the browser runs `handleSubmit` only when both inputs pass
        constraint validation, and otherwise changes nothing. */
    method SubmitForm(id: Id) returns (submitted: bool)
      requires !todosUndefined
      modifies this`todos, this`title, this`time
      ensures submitted <==> FormValid(old(title), old(time))
      ensures !submitted ==> todos == old(todos) && title == old(title) && time == old(time)
      ensures submitted ==> |todos| == |old(todos)| + 1 && todos[..|old(todos)|] == old(todos)
      ensures submitted ==>
        var todo := todos[|old(todos)|];
        fresh(todo) && todo.id == id && todo.title == old(title) && todo.time == old(time) && !todo.done
      ensures submitted ==> title == "" && time == ""
    {
      submitted := FormValid(title, time);
      if submitted {
        var todo := HandleSubmit(id);
        assert todos[..|old(todos)|] == old(todos);
      }
    }

    /** `handleDelete`: every entry carrying `id` leaves the collection. */
    method HandleDelete(id: Id)
      requires !todosUndefined
      modifies this`todos
      ensures todos == WithoutId(old(todos), id)
      ensures |todos| <= |old(todos)| && !HasId(todos, id)
    {
      todos := WithoutId(todos, id);
    }

    /** `handleEdit`: `done` is flipped on the clicked record itself, then every entry carrying
        the response's identifier is replaced by the response. */
    method HandleEdit(todo: Task, response: Task)
      requires !todosUndefined
      modifies this`todos, todo
      ensures todo.done == !old(todo.done)
      ensures todos == ReplaceById(old(todos), response)
      ensures !HasId(old(todos), response.id) ==> todos == old(todos)
      ensures !HasId(old(todos), response.id) ==> forall i :: 0 <= i < |todos| ==>
        todos[i].done == if todos[i] == todo then !old(todos[i].done) else old(todos[i].done)
    {
      todo.done := !todo.done;
      todos := ReplaceById(todos, response);
      if !HasId(old(todos), response.id) {
        ReplaceAbsentIsIdentity(old(todos), response);
      }
    }

    /** What the component renders: the placeholder alone while loading, otherwise the form
        and the list, with the "Não há tarefas cadastradas!" message exactly when the list is
        empty. */
    function Render(): (screen: Screen)
      reads this, todos
      ensures screen == Loading <==> loading
      ensures screen == Crashed <==> !loading && todosUndefined
      ensures (screen.Page? && screen.noTasksMessage) <==> !loading && !todosUndefined && todos == []
      ensures screen.Page? ==> |screen.rows| == |todos|
      ensures screen.Page? ==> forall i :: 0 <= i < |todos| ==>
        screen.rows[i] == Row(todos[i].title, todos[i].time, todos[i].done)
    {
      if loading then Loading
      else if todosUndefined then Crashed
      else Page(|todos| == 0, RowsOf(todos))
    }
  }

  /** Clicking the toggle of the task listed at position `i`, then clicking the toggle that
      position lists after that, leaves the page as it was, when neither response carries an
      identifier of a listed task (as with the unparsed responses `handleEdit` receives). */
  method ToggleTwice(app: App, i: nat, first: Task, second: Task)
    requires !app.todosUndefined && i < |app.todos|
    requires !HasId(app.todos, first.id) && !HasId(app.todos, second.id)
    modifies app, app.todos[i]
    ensures app.Render() == old(app.Render())
  {
    app.HandleEdit(app.todos[i], first);
    app.HandleEdit(app.todos[i], second);
  }

  /** A session: the list loads empty; "Test" taking "1" hour is created; its toggle is
      clicked and the server echoes the toggled record; it is deleted. */
  method EndToEnd() returns (loaded: Screen, created: Screen, toggled: Screen, deleted: Screen)
    ensures loaded == Page(true, [])
    ensures created == Page(false, [Row("Test", "1", false)])
    ensures toggled == Page(false, [Row("Test", "1", true)])
    ensures deleted == Page(true, [])
  {
    var app := new App();
    var during := app.LoadData(Fetched([]));
    loaded := app.Render();
    app.ChangeTitle("Test");
    app.ChangeTime("1");
    TitlePatternComplete("Test", 0);
    TimePatternMeaning("1");
    var submitted := app.SubmitForm(0.5);
    var todo := app.todos[0];
    created := app.Render();
    var echo := new Task(todo.id, todo.title, todo.time, !todo.done);
    app.HandleEdit(todo, echo);
    toggled := app.Render();
    app.HandleDelete(todo.id);
    deleted := app.Render();
  }
}
