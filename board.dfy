/** The board as a pure view of the task list: the three status columns,
    the search, the sorted and filtered columns that are rendered, the
    dashboard counters, the empty and no-results states, and the rule that
    turns a drop into an updated task. */
module Board {
  import opened Wrappers
  import opened Strings
  import opened Seqs
  import opened Tasks
  import opened TaskSort

  /** The three columns, in the board's order: "todo", "inProgress", "done". */
  datatype Columns = Columns(todo: seq<Task>, inProgress: seq<Task>, done: seq<Task>)

  function StatusIs(status: string): Task -> bool {
    (t: Task) => t.status == status
  }

  function StatusIsNot(status: string): Task -> bool {
    (t: Task) => t.status != status
  }

  predicate AllStatusesValid(ts: seq<Task>) {
    forall t :: t in ts ==> IsValidStatus(t.status)
  }

  /** `columns`: each column holds the tasks whose status is exactly its
      status string, in list order. */
  function ColumnsOf(ts: seq<Task>): (c: Columns)
    ensures forall t :: t in c.todo <==> t in ts && t.status == ToDo
    ensures forall t :: t in c.inProgress <==> t in ts && t.status == InProgress
    ensures forall t :: t in c.done <==> t in ts && t.status == Done
  {
    Columns(Filter(StatusIs(ToDo), ts), Filter(StatusIs(InProgress), ts), Filter(StatusIs(Done), ts))
  }

  function ColumnSizes(c: Columns): nat {
    |c.todo| + |c.inProgress| + |c.done|
  }

  /** The columns never hold more tasks than the list, and hold all of them
      exactly when every status is one of the three. */
  lemma {:induction false} ColumnSizesBound(ts: seq<Task>)
    ensures ColumnSizes(ColumnsOf(ts)) <= |ts|
    ensures ColumnSizes(ColumnsOf(ts)) == |ts| <==> AllStatusesValid(ts)
  {
    if ts != [] {
      var rest := ts[1..];
      assert ts == [ts[0]] + rest;
      FilterCons(StatusIs(ToDo), ts[0], rest);
      FilterCons(StatusIs(InProgress), ts[0], rest);
      FilterCons(StatusIs(Done), ts[0], rest);
      ColumnSizesBound(rest);
      assert AllStatusesValid(ts) <==> IsValidStatus(ts[0].status) && AllStatusesValid(rest);
    }
  }

  /** The columns partition the list exactly when every status is valid:
      then every task is in exactly one column, as often as in the list. */
  lemma ColumnsPartition(ts: seq<Task>)
    ensures ColumnSizes(ColumnsOf(ts)) == |ts| <==> AllStatusesValid(ts)
    ensures AllStatusesValid(ts) ==>
      multiset(ColumnsOf(ts).todo) + multiset(ColumnsOf(ts).inProgress) + multiset(ColumnsOf(ts).done)
        == multiset(ts)
  {
    ColumnSizesBound(ts);
    var c := ColumnsOf(ts);
    FilterCount(StatusIs(ToDo), ts);
    FilterCount(StatusIs(InProgress), ts);
    FilterCount(StatusIs(Done), ts);
    if AllStatusesValid(ts) {
      forall x
        ensures (multiset(c.todo) + multiset(c.inProgress) + multiset(c.done))[x] == multiset(ts)[x]
      {
        if x in ts {
          assert IsValidStatus(x.status);
        }
      }
    }
  }

  /** The column a task with a given status is shown in. */
  function ColumnOfStatus(c: Columns, status: string): seq<Task> {
    if status == ToDo then c.todo
    else if status == InProgress then c.inProgress
    else c.done
  }

  /** A column keeps list order: the columns of a concatenation are the
      columns of the parts, one after the other. */
  lemma ColumnsConcat(a: seq<Task>, b: seq<Task>)
    ensures ColumnsOf(a + b) == Columns(
      ColumnsOf(a).todo + ColumnsOf(b).todo,
      ColumnsOf(a).inProgress + ColumnsOf(b).inProgress,
      ColumnsOf(a).done + ColumnsOf(b).done)
  {
    FilterConcat(StatusIs(ToDo), a, b);
    FilterConcat(StatusIs(InProgress), a, b);
    FilterConcat(StatusIs(Done), a, b);
  }

  /* ---------------------------- Search ---------------------------- */

  /** A task matches a lower-cased term when its lower-cased title or
      description includes it. */
  predicate MatchesSearch(t: Task, q: string)
    ensures q == "" ==> MatchesSearch(t, q)
  {
    IncludesEmpty(ToLower(t.title));
    Includes(ToLower(t.title), q) || Includes(ToLower(t.description), q)
  }

  function MatchesTerm(q: string): Task -> bool {
    (t: Task) => MatchesSearch(t, q)
  }

  /** `searched`: the term is lower-cased but not trimmed. */
  function Searched(ts: seq<Task>, term: string): (r: seq<Task>)
    ensures forall t :: t in r <==> t in ts && MatchesSearch(t, ToLower(term))
  {
    Filter(MatchesTerm(ToLower(term)), ts)
  }

  /** The empty term keeps every task, in order. */
  lemma EmptySearchKeepsAll(ts: seq<Task>)
    ensures Searched(ts, "") == ts
  {
    assert ToLower("") == "";
    FilterKeepsAll(MatchesTerm(""), ts);
  }

  /** The search does not depend on the letter case of the term. */
  lemma SearchIgnoresCase(ts: seq<Task>, term: string)
    ensures Searched(ts, ToLower(term)) == Searched(ts, term)
  {
    ToLowerIdempotent(term);
  }

  /** A longer term narrows the search: whatever matches a term also
      matches every part of it. */
  lemma SearchNarrows(ts: seq<Task>, part: string, term: string)
    requires Includes(term, part)
    ensures forall t :: t in Searched(ts, term) ==> t in Searched(ts, part)
    ensures |Searched(ts, term)| <= |Searched(ts, part)|
  {
    var q, p := ToLower(term), ToLower(part);
    IncludesToLower(term, part);
    forall t | t in ts && MatchesTerm(q)(t)
      ensures MatchesTerm(p)(t)
    {
      if Includes(ToLower(t.title), q) {
        IncludesTransitive(ToLower(t.title), q, p);
      } else {
        IncludesTransitive(ToLower(t.description), q, p);
      }
    }
    FilterMonotone(MatchesTerm(q), MatchesTerm(p), ts);
  }

  /* ------------------------ Projection ------------------------ */

  /** The sorted, searched task list that `filteredColumns` is built from. */
  function Visible(ts: seq<Task>, term: string, sortBy: string): (r: seq<Task>)
    ensures Sorted(ModeOf(sortBy), r)
    ensures multiset(r) == multiset(Searched(ts, term))
  {
    SortSorted(ModeOf(sortBy), Searched(ts, term));
    Sort(ModeOf(sortBy), Searched(ts, term))
  }

  /** `filteredColumns`: the columns actually rendered. Each holds exactly
      the tasks of the list with its status that match the search. */
  function RenderedColumns(ts: seq<Task>, term: string, sortBy: string): (c: Columns)
    ensures forall t :: t in c.todo <==> t in ts && t.status == ToDo && MatchesSearch(t, ToLower(term))
    ensures forall t :: t in c.inProgress <==> t in ts && t.status == InProgress && MatchesSearch(t, ToLower(term))
    ensures forall t :: t in c.done <==> t in ts && t.status == Done && MatchesSearch(t, ToLower(term))
  {
    var v := Visible(ts, term, sortBy);
    assert forall t :: t in v <==> t in multiset(Searched(ts, term));
    ColumnsOf(v)
  }

  /** Each rendered column holds the searched tasks of its status, sorted
      in the chosen order. */
  lemma RenderedColumnsShape(ts: seq<Task>, term: string, sortBy: string, status: string)
    ensures var col := Filter(StatusIs(status), Visible(ts, term, sortBy));
      Sorted(ModeOf(sortBy), col)
      && multiset(col) == multiset(Filter(StatusIs(status), Searched(ts, term)))
  {
    var m := ModeOf(sortBy);
    FilterKeepsSorted(m, StatusIs(status), Visible(ts, term, sortBy));
    FilterPermutation(StatusIs(status), Visible(ts, term, sortBy), Searched(ts, term));
  }

  datatype Counts = Counts(total: nat, todo: nat, inProgress: nat, done: nat, overdue: nat)

  function OverdueAt(now: int): Task -> bool {
    (t: Task) => IsOverdue(t, now)
  }

  /** The dashboard counters, always over the whole list: each status
      counter is the size of its column, and the overdue counter counts the
      overdue tasks. */
  function CountsOf(ts: seq<Task>, now: int): (c: Counts)
    ensures c.total == |ts|
    ensures c.todo == |ColumnsOf(ts).todo|
    ensures c.inProgress == |ColumnsOf(ts).inProgress|
    ensures c.done == |ColumnsOf(ts).done|
    ensures c.todo + c.inProgress + c.done == ColumnSizes(ColumnsOf(ts))
    ensures c.overdue == |Filter(OverdueAt(now), ts)|
  {
    Counts(|ts|,
      |Filter(StatusIs(ToDo), ts)|,
      |Filter(StatusIs(InProgress), ts)|,
      |Filter(StatusIs(Done), ts)|,
      |Filter(OverdueAt(now), ts)|)
  }

  /** The status counters add up to the total exactly when every status is
      valid, and only unfinished tasks can be overdue. */
  lemma CountsConsistent(ts: seq<Task>, now: int)
    ensures var c := CountsOf(ts, now);
      (c.todo + c.inProgress + c.done == c.total <==> AllStatusesValid(ts))
      && c.overdue <= c.total - c.done
  {
    ColumnSizesBound(ts);
    FilterMonotone(OverdueAt(now), StatusIsNot(Done), ts);
    FilterComplement(StatusIs(Done), StatusIsNot(Done), ts);
  }

  /** The overdue counter counts every unfinished task due before today's
      midnight, as often as the list holds it, and no other task. */
  lemma OverdueCounted(ts: seq<Task>, now: int)
    ensures forall t ::
      multiset(Filter(OverdueAt(now), ts))[t]
        == if t.dueDate.Some? && t.status != Done && t.dueDate.value < StartOfDay(now)
           then multiset(ts)[t] else 0
  {
    FilterCount(OverdueAt(now), ts);
  }

  /** What the board shows once loading is over and there is no error. */
  datatype View =
    | EmptyBoard
    | BoardView(columns: Columns, counts: Counts, noResults: bool)

  /** The empty-list test comes before the search; `hasSearch` trims the
      term although the search itself does not. */
  function Project(ts: seq<Task>, term: string, sortBy: string, now: int): (v: View)
    ensures v.EmptyBoard? <==> ts == []
    ensures v.BoardView? ==> v.columns == RenderedColumns(ts, term, sortBy)
    ensures v.BoardView? ==> v.counts == CountsOf(ts, now)
    ensures v.BoardView? ==> (v.noResults <==> !AllWhitespace(term) && Searched(ts, term) == [])
  {
    if ts == [] then EmptyBoard
    else
      var sorted := Visible(ts, term, sortBy);
      assert |sorted| == |multiset(sorted)| == |multiset(Searched(ts, term))| == |Searched(ts, term)|;
      var hasSearch := |Trim(term)| > 0;
      BoardView(ColumnsOf(sorted), CountsOf(ts, now), hasSearch && |sorted| == 0)
  }

  /** The counters do not depend on the search term or the sort order. */
  lemma CountsIgnoreSearchAndSort(ts: seq<Task>, term1: string, sortBy1: string, term2: string, sortBy2: string, now: int)
    requires ts != []
    ensures Project(ts, term1, sortBy1, now).counts == Project(ts, term2, sortBy2, now).counts
  {
  }

  /** A blank term that matches nothing never shows the no-results state:
      the board shows three empty columns instead. */
  lemma BlankTermEmptiesBoardSilently(ts: seq<Task>, term: string, sortBy: string, now: int)
    requires ts != [] && AllWhitespace(term) && Searched(ts, term) == []
    ensures var v := Project(ts, term, sortBy, now);
      v.BoardView? && !v.noResults && v.columns == Columns([], [], [])
  {
    var sorted := Visible(ts, term, sortBy);
    assert |sorted| == |multiset(sorted)| == 0;
    assert ColumnsOf([]) == Columns([], [], []);
  }

  /** Such a term exists: a single space matches nothing in a task whose
      title and description hold no space. */
  lemma SpaceMatchesNothing()
    ensures var t := Task("1", "a", "", ToDo, "Medium", None, None, None);
      AllWhitespace(" ") && Searched([t], " ") == []
  {
    var t := Task("1", "a", "", ToDo, "Medium", None, None, None);
    assert ToLower(" ") == " ";
    assert ToLower("a") == "a";
    assert ToLower("") == "";
    assert !Includes("a", " ") by {
      forall i | 0 <= i <= 0 ensures !OccursAt("a", " ", i) {
        assert "a"[0..1] == "a";
      }
    }
    assert !MatchesSearch(t, " ");
    assert IsWhitespace(' ');
  }

  /* ------------------------ Drag and drop ------------------------ */

  /** The status a drop sets: "inProgress" and "done" name their columns;
      every other destination id means "To Do". */
  function DropStatus(destinationId: string): (s: string)
    ensures IsValidStatus(s)
    ensures s == InProgress <==> destinationId == "inProgress"
    ensures s == Done <==> destinationId == "done"
  {
    if destinationId == "inProgress" then InProgress
    else if destinationId == "done" then Done
    else ToDo
  }

  /** The id of the column that shows a status. */
  function ColumnId(status: string): string {
    if status == InProgress then "inProgress"
    else if status == Done then "done"
    else "todo"
  }

  /** Column ids and statuses are inverse to each other. */
  lemma DropStatusInverse(status: string, id: string)
    ensures IsValidStatus(status) ==> DropStatus(ColumnId(status)) == status
    ensures (id == "todo" || id == "inProgress" || id == "done") ==> ColumnId(DropStatus(id)) == id
  {
  }

  /** `columns[id].tasks`; absent for an id that names no column. */
  function ColumnById(c: Columns, id: string): (r: Option<seq<Task>>)
    ensures r.Some? <==> id == "todo" || id == "inProgress" || id == "done"
    ensures r.Some? ==> r.value == ColumnOfStatus(c, DropStatus(id))
  {
    if id == "todo" then Some(c.todo)
    else if id == "inProgress" then Some(c.inProgress)
    else if id == "done" then Some(c.done)
    else None
  }

  datatype Location = Location(droppableId: string, index: int)
  datatype DropResult = DropResult(source: Location, destination: Option<Location>)

  /** What a drop leads to: nothing without a destination; an exception
      outside the handler's `try` when the source column does not exist; a
      TypeError inside the `try` when the index finds no task; otherwise the
      update to send. */
  datatype DragPlan =
    | NoDestination
    | UnknownColumn
    | MissingTask
    | Send(body: Task)

  /** Looks the dragged task up in `c` by the source location and builds
      the updated task: an update is sent exactly when the drop has a
      destination and the source index finds a task in an existing column. */
  function PlanDragIn(c: Columns, result: DropResult): (p: DragPlan)
    ensures p.NoDestination? <==> result.destination.None?
    ensures p.UnknownColumn? <==>
              result.destination.Some? && ColumnById(c, result.source.droppableId).None?
    ensures p.MissingTask? <==>
              var col := ColumnById(c, result.source.droppableId);
              result.destination.Some? && col.Some? && !(0 <= result.source.index < |col.value|)
    ensures p.Send? <==>
              var col := ColumnById(c, result.source.droppableId);
              result.destination.Some? && col.Some? && 0 <= result.source.index < |col.value|
    ensures p.Send? ==>
              var col := ColumnById(c, result.source.droppableId);
              p.body == col.value[result.source.index].(status := DropStatus(result.destination.value.droppableId))
  {
    if result.destination.None? then NoDestination
    else match ColumnById(c, result.source.droppableId)
      case None => UnknownColumn
      case Some(col) =>
        if 0 <= result.source.index < |col|
        then Send(col[result.source.index].(status := DropStatus(result.destination.value.droppableId)))
        else MissingTask
  }

  /** `onDragEnd` as written: the index is looked up in the unfiltered,
      unsorted `columns`. An update is a task of the list from the source
      column with only its status changed. */
  function PlanDrag(ts: seq<Task>, result: DropResult): (p: DragPlan)
    ensures p.NoDestination? <==> result.destination.None?
    ensures p.UnknownColumn? <==>
              && result.destination.Some?
              && ColumnById(ColumnsOf(ts), result.source.droppableId).None?
    ensures p.MissingTask? <==>
              && result.destination.Some?
              && ColumnById(ColumnsOf(ts), result.source.droppableId).Some?
              && !(0 <= result.source.index < |ColumnById(ColumnsOf(ts), result.source.droppableId).value|)
    ensures p.Send? ==>
              var col := ColumnsOf(ts);
              && 0 <= result.source.index < |ColumnById(col, result.source.droppableId).value|
              && p.body == ColumnById(col, result.source.droppableId).value[result.source.index]
                             .(status := DropStatus(result.destination.value.droppableId))
    ensures p.Send? ==>
              exists t ::
                && t in ts
                && t.status == DropStatus(result.source.droppableId)
                && p.body == t.(status := DropStatus(result.destination.value.droppableId))
  {
    var p := PlanDragIn(ColumnsOf(ts), result);
    if p.Send? then
      var col := ColumnById(ColumnsOf(ts), result.source.droppableId).value;
      assert col[result.source.index] in col;
      p
    else p
  }

  /** A drop back into the source column still sends an update, whose body
      is the dragged task unchanged. */
  lemma SameColumnDropStillSends(ts: seq<Task>, result: DropResult)
    requires result.destination.Some?
    requires result.destination.value.droppableId == result.source.droppableId
    requires ColumnById(ColumnsOf(ts), result.source.droppableId).Some?
    requires 0 <= result.source.index < |ColumnById(ColumnsOf(ts), result.source.droppableId).value|
    ensures PlanDrag(ts, result) == Send(ColumnById(ColumnsOf(ts), result.source.droppableId).value[result.source.index])
  {
    var col := ColumnById(ColumnsOf(ts), result.source.droppableId).value;
    var t := col[result.source.index];
    assert t in col;
    assert t.status == DropStatus(result.source.droppableId);
  }

  /** The as-written lookup can pick a task other than the one the user
      dragged: with the default "recent" order and no search, the newer task
      is rendered first in the column, but index 0 of `columns` is the
      older one. */
  lemma DragLookupIgnoresRenderedOrder()
    ensures var older := Task("a", "Older", "", ToDo, "Medium", None, Some(1), None);
      var newer := Task("b", "Newer", "", ToDo, "Medium", None, Some(2), None);
      var drop := DropResult(Location("todo", 0), Some(Location("done", 0)));
      RenderedColumns([older, newer], "", "recent").todo == [newer, older]
      && PlanDrag([older, newer], drop) == Send(older.(status := Done))
  {
    var older := Task("a", "Older", "", ToDo, "Medium", None, Some(1), None);
    var newer := Task("b", "Newer", "", ToDo, "Medium", None, Some(2), None);
    EmptySearchKeepsAll([older, newer]);
    assert [older, newer][1..] == [newer];
    assert Insert(Recent, newer, []) == [newer];
    assert Sort(Recent, [newer]) == [newer];
    assert Insert(Recent, older, []) == [older];
    assert Insert(Recent, older, [newer]) == [newer] + [older];
    assert Visible([older, newer], "", "recent") == [newer, older];
    FilterKeepsAll(StatusIs(ToDo), [newer, older]);
    FilterKeepsAll(StatusIs(ToDo), [older, newer]);
  }

  /** The evidently intended rule: look the index up in the rendered
      columns. A drop on a card the board shows sends that card. */
  function PlanDragRendered(ts: seq<Task>, term: string, sortBy: string, result: DropResult): (p: DragPlan)
    ensures p.NoDestination? <==> result.destination.None?
    ensures p.UnknownColumn? <==>
              result.destination.Some? && ColumnById(RenderedColumns(ts, term, sortBy), result.source.droppableId).None?
    ensures p.MissingTask? <==>
              var col := ColumnById(RenderedColumns(ts, term, sortBy), result.source.droppableId);
              result.destination.Some? && col.Some? && !(0 <= result.source.index < |col.value|)
    ensures p.Send? <==>
              var col := ColumnById(RenderedColumns(ts, term, sortBy), result.source.droppableId);
              result.destination.Some? && col.Some? && 0 <= result.source.index < |col.value|
    ensures p.Send? ==>
              var col := ColumnById(RenderedColumns(ts, term, sortBy), result.source.droppableId);
              p.body == col.value[result.source.index].(status := DropStatus(result.destination.value.droppableId))
  {
    PlanDragIn(RenderedColumns(ts, term, sortBy), result)
  }

  /** With the rendered lookup, a drop on a card of a rendered column sends
      an update, and that update is the very task shown at the dragged
      position, a task of the list that matches the search, with only its
      status changed. */
  lemma RenderedDragMovesShownTask(ts: seq<Task>, term: string, sortBy: string, result: DropResult)
    requires result.destination.Some?
    requires ColumnById(RenderedColumns(ts, term, sortBy), result.source.droppableId).Some?
    requires 0 <= result.source.index < |ColumnById(RenderedColumns(ts, term, sortBy), result.source.droppableId).value|
    ensures PlanDragRendered(ts, term, sortBy, result).Send?
    ensures var shown := ColumnById(RenderedColumns(ts, term, sortBy), result.source.droppableId).value[result.source.index];
      shown in ts && MatchesSearch(shown, ToLower(term))
      && shown.status == DropStatus(result.source.droppableId)
      && PlanDragRendered(ts, term, sortBy, result).body == shown.(status := DropStatus(result.destination.value.droppableId))
  {
    var visible := Visible(ts, term, sortBy);
    var col := ColumnById(ColumnsOf(visible), result.source.droppableId).value;
    var shown := col[result.source.index];
    assert shown in col;
    assert shown in visible;
    assert shown in multiset(Searched(ts, term));
  }
}
