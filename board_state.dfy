/** The board's state: the shared task list, the loading flag, the error
    message and the session, changed by the fetch effect and the four
    handlers. Every server call is a parameter holding its outcome; the list
    changes only from a successful response (confirm, then commit). */
module BoardState {
  import opened Wrappers
  import opened Seqs
  import opened Tasks
  import opened Board

  /** The outcome of one request: the response data, or a failure with the
      HTTP status of the response (none when no response arrived) and the
      error's message. */
  datatype Outcome<T> = Ok(data: T) | Fail(status: Option<int>, message: string) {
    predicate Unauthorized() {
      Fail? && status == Some(401)
    }
  }

  /** The body `addNewTask` posts: a task without id or timestamps. */
  datatype NewTask = NewTask(title: string, description: string, status: string, priority: string, dueDate: Option<int>)

  datatype Request =
    | GetTasks
    | PostTask(draft: NewTask)
    | PutTask(id: string, body: Task)
    | Delete(id: string)

  /** The message of the TypeError raised by reading `_id` of a missing
      task, in V8's wording; other JavaScript engines word it differently. */
  const MissingTaskMessage: string := "Cannot read properties of undefined (reading '_id')"

  function Ids(ts: seq<Task>): (r: seq<string>)
    ensures |r| == |ts| && forall i :: 0 <= i < |ts| ==> r[i] == ts[i].id
  {
    seq(|ts|, i requires 0 <= i < |ts| => ts[i].id)
  }

  /** The `updateTask` reducer: the entry with the response's id is
      overwritten by the response, every other entry is kept in place. */
  function Replaced(ts: seq<Task>, t: Task): (r: seq<Task>)
    ensures |r| == |ts|
    ensures forall i :: 0 <= i < |ts| ==> r[i] == if ts[i].id == t.id then t else ts[i]
  {
    seq(|ts|, i requires 0 <= i < |ts| => if ts[i].id == t.id then t else ts[i])
  }

  /** Replacing keeps every id where it was. */
  lemma ReplacedKeepsIds(ts: seq<Task>, t: Task)
    ensures Ids(Replaced(ts, t)) == Ids(ts)
  {
  }

  /** Replacing a task the list does not hold changes nothing; replacing
      one it holds puts the new version in the list. */
  lemma ReplacedPresence(ts: seq<Task>, t: Task)
    ensures t.id !in Ids(ts) ==> Replaced(ts, t) == ts
    ensures t.id in Ids(ts) ==> t in Replaced(ts, t)
  {
    if t.id in Ids(ts) {
      var i :| 0 <= i < |ts| && Ids(ts)[i] == t.id;
      assert Replaced(ts, t)[i] == t;
    }
  }

  function IdIsNot(id: string): Task -> bool {
    (t: Task) => t.id != id
  }

  /** The `removeTask` reducer: drops every entry with that id. */
  function Removed(ts: seq<Task>, id: string): (r: seq<Task>)
    ensures forall t :: t in r <==> t in ts && t.id != id
  {
    Filter(IdIsNot(id), ts)
  }

  /** Removing is idempotent: removing an id that is not there is harmless. */
  lemma RemovedIdempotent(ts: seq<Task>, id: string)
    ensures Removed(Removed(ts, id), id) == Removed(ts, id)
  {
    FilterKeepsAll(IdIsNot(id), Removed(ts, id));
  }

  /** A confirmed drop shows the task in the column it was dropped on when
      the server echoes the update. */
  lemma ConfirmedDropShowsInDestination(ts: seq<Task>, result: DropResult)
    requires PlanDrag(ts, result).Send?
    requires ColumnById(ColumnsOf(ts), result.destination.value.droppableId).Some?
    ensures var body := PlanDrag(ts, result).body;
      body in ColumnById(ColumnsOf(Replaced(ts, body)), result.destination.value.droppableId).value
  {
    var body := PlanDrag(ts, result).body;
    var t :| t in ts && body == t.(status := DropStatus(result.destination.value.droppableId));
    var i :| 0 <= i < |ts| && ts[i] == t;
    assert Ids(ts)[i] == body.id;
    ReplacedPresence(ts, body);
  }

  /** What the component renders. */
  datatype Screen = Spinner | ErrorScreen(message: string) | Shown(view: View)

  class TaskBoard {
    /** The shared task list (`state.tasks.tasks`). */
    var tasks: seq<Task>
    var loading: bool
    /** `null` is `None`; the empty message is kept but, being falsy, shows no error. */
    var error: Option<string>
    /** The client's session; `logout()` clears it. */
    var signedIn: bool
    /** Whether the handler navigated to /login. */
    var atLogin: bool

    constructor (stored: seq<Task>, session: bool)
      ensures tasks == stored && loading && error == None
      ensures signedIn == session && !atLogin
    {
      tasks := stored;
      loading := true;
      error := None;
      signedIn := session;
      atLogin := false;
    }

    /** The render: spinner, then a non-empty error, then the board. */
    function Screen(term: string, sortBy: string, now: int): (s: Screen)
      reads this
      ensures loading <==> s.Spinner?
      ensures s.ErrorScreen? <==> !loading && error.Some? && error.value != ""
      ensures s.Shown? ==> (s.view.EmptyBoard? <==> tasks == [])
      ensures s.Shown? ==> s.view == Project(tasks, term, sortBy, now)
      ensures s.Shown? && tasks != [] ==> s.view.counts == CountsOf(tasks, now)
    {
      if loading then Spinner
      else if error.Some? && error.value != "" then ErrorScreen(error.value)
      else Shown(Project(tasks, term, sortBy, now))
    }

    /** The shared catch block: 401 logs out and goes to /login, any other
      failure records the message. The list is never touched. */
    method HandleFailure(status: Option<int>, message: string)
      modifies this`error, this`signedIn, this`atLogin
      ensures status == Some(401) ==> !signedIn && atLogin && error == old(error)
      ensures status != Some(401) ==>
                error == Some(message) && signedIn == old(signedIn) && atLogin == old(atLogin)
    {
      if status == Some(401) {
        signedIn := false;
        atLogin := true;
      } else {
        error := Some(message);
      }
    }

    /** The mount effect: replaces the list with the server's, or handles
      the failure; a 401 leaves the spinner on. */
    method FetchTasks(outcome: Outcome<seq<Task>>) returns (sent: Request)
      modifies this
      ensures sent == GetTasks
      ensures outcome.Ok? ==>
                tasks == outcome.data && !loading
                && error == old(error) && signedIn == old(signedIn) && atLogin == old(atLogin)
      ensures outcome.Fail? ==> tasks == old(tasks)
      ensures outcome.Unauthorized() ==> !signedIn && atLogin && loading == old(loading) && error == old(error)
      ensures outcome.Fail? && !outcome.Unauthorized() ==>
                error == Some(outcome.message) && !loading && signedIn == old(signedIn) && atLogin == old(atLogin)
    {
      sent := GetTasks;
      match outcome
      case Ok(data) =>
        tasks := data;
        loading := false;
      case Fail(status, message) =>
        HandleFailure(status, message);
        if status != Some(401) {
          loading := false;
        }
    }

    /** `onDragEnd`: looks the task up in the unfiltered columns, sends the
      update even when the column is unchanged, and commits the server's
      version only on success. */
    method OnDragEnd(result: DropResult, outcome: Outcome<Task>) returns (sent: Option<Request>)
      modifies this
      ensures loading == old(loading)
      ensures var plan := PlanDrag(old(tasks), result);
        && (plan.Send? <==> sent.Some?)
        && (plan.Send? ==> sent == Some(PutTask(plan.body.id, plan.body)))
        && (plan.NoDestination? || plan.UnknownColumn? ==>
              tasks == old(tasks) && error == old(error) && signedIn == old(signedIn) && atLogin == old(atLogin))
        && (plan.MissingTask? ==>
              tasks == old(tasks) && error == Some(MissingTaskMessage)
              && signedIn == old(signedIn) && atLogin == old(atLogin))
        && (plan.Send? && outcome.Ok? ==>
              tasks == Replaced(old(tasks), outcome.data)
              && error == old(error) && signedIn == old(signedIn) && atLogin == old(atLogin))
        && (plan.Send? && outcome.Fail? ==> tasks == old(tasks))
        && (plan.Send? && outcome.Unauthorized() ==> !signedIn && atLogin && error == old(error))
        && (plan.Send? && outcome.Fail? && !outcome.Unauthorized() ==>
              error == Some(outcome.message) && signedIn == old(signedIn) && atLogin == old(atLogin))
    {
      var plan := PlanDrag(tasks, result);
      match plan
      case NoDestination =>
        sent := None;
      case UnknownColumn =>
        sent := None;
      case MissingTask =>
        sent := None;
        HandleFailure(None, MissingTaskMessage);
      case Send(body) =>
        sent := Some(PutTask(body.id, body));
        match outcome
        case Ok(data) =>
          tasks := Replaced(tasks, data);
        case Fail(status, message) =>
          HandleFailure(status, message);
    }

    /** `addNewTask`: posts a "To Do", "Medium" task due today and appends
      the server's version on success. */
    method AddNewTask(title: string, description: string, today: int, outcome: Outcome<Task>)
      returns (sent: Request)
      modifies this
      ensures sent == PostTask(NewTask(title, description, ToDo, "Medium", Some(today)))
      ensures loading == old(loading)
      ensures outcome.Ok? ==>
                tasks == old(tasks) + [outcome.data]
                && error == old(error) && signedIn == old(signedIn) && atLogin == old(atLogin)
      ensures outcome.Fail? ==> tasks == old(tasks)
      ensures outcome.Unauthorized() ==> !signedIn && atLogin && error == old(error)
      ensures outcome.Fail? && !outcome.Unauthorized() ==>
                error == Some(outcome.message) && signedIn == old(signedIn) && atLogin == old(atLogin)
    {
      sent := PostTask(NewTask(title, description, ToDo, "Medium", Some(today)));
      match outcome
      case Ok(data) =>
        tasks := tasks + [data];
      case Fail(status, message) =>
        HandleFailure(status, message);
    }

    /** `deleteTask`: removes the id from the list once the server agrees. */
    method DeleteTask(id: string, outcome: Outcome<()>) returns (sent: Request)
      modifies this
      ensures sent == Delete(id)
      ensures loading == old(loading)
      ensures outcome.Ok? ==>
                tasks == Removed(old(tasks), id)
                && error == old(error) && signedIn == old(signedIn) && atLogin == old(atLogin)
      ensures outcome.Fail? ==> tasks == old(tasks)
      ensures outcome.Unauthorized() ==> !signedIn && atLogin && error == old(error)
      ensures outcome.Fail? && !outcome.Unauthorized() ==>
                error == Some(outcome.message) && signedIn == old(signedIn) && atLogin == old(atLogin)
    {
      sent := Delete(id);
      match outcome
      case Ok(_) =>
        tasks := Removed(tasks, id);
      case Fail(status, message) =>
        HandleFailure(status, message);
    }

    /** `handleEditTask`: sends the edited task whole and stores the
      server's version on success. */
    method HandleEditTask(updated: Task, outcome: Outcome<Task>) returns (sent: Request)
      modifies this
      ensures sent == PutTask(updated.id, updated)
      ensures loading == old(loading)
      ensures outcome.Ok? ==>
                tasks == Replaced(old(tasks), outcome.data)
                && error == old(error) && signedIn == old(signedIn) && atLogin == old(atLogin)
      ensures outcome.Fail? ==> tasks == old(tasks)
      ensures outcome.Unauthorized() ==> !signedIn && atLogin && error == old(error)
      ensures outcome.Fail? && !outcome.Unauthorized() ==>
                error == Some(outcome.message) && signedIn == old(signedIn) && atLogin == old(atLogin)
    {
      sent := PutTask(updated.id, updated);
      match outcome
      case Ok(data) =>
        tasks := Replaced(tasks, data);
      case Fail(status, message) =>
        HandleFailure(status, message);
    }
  }
}
