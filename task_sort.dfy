/** The board's two sort orders. `Array.prototype.sort` is stable, so the
    result of sorting with a consistent comparator is fixed; it is modelled
    here as a stable insertion sort. */
module TaskSort {
  import opened Wrappers
  import opened Strings
  import opened Seqs
  import opened Tasks

  datatype SortMode = Recent | Alphabetical

  /** Only the exact string "alphabetical" selects the title order. */
  function ModeOf(sortBy: string): (m: SortMode)
    ensures m == Alphabetical <==> sortBy == "alphabetical"
  {
    if sortBy == "alphabetical" then Alphabetical else Recent
  }

  /** `createdAt || updatedAt || dueDate || 0`: the first date present. */
  function RecencyKey(t: Task): (k: int)
    ensures t.createdAt.Some? ==> k == t.createdAt.value
    ensures t.createdAt.None? && t.updatedAt.Some? ==> k == t.updatedAt.value
    ensures t.createdAt.None? && t.updatedAt.None? && t.dueDate.Some? ==> k == t.dueDate.value
    ensures t.createdAt.None? && t.updatedAt.None? && t.dueDate.None? ==> k == 0
  {
    match (t.createdAt, t.updatedAt, t.dueDate)
    case (Some(c), _, _) => c
    case (None, Some(u), _) => u
    case (None, None, Some(d)) => d
    case (None, None, None) => 0
  }

  /** The comparator's strict part: `a` must come before `b`. "Recent" puts
      the larger key first; "alphabetical" orders titles. */
  predicate Before(m: SortMode, a: Task, b: Task)
    ensures Before(m, a, b) ==> a != b
  {
    LexIrreflexive(a.title);
    match m
    case Recent => RecencyKey(a) > RecencyKey(b)
    case Alphabetical => LexLess(a.title, b.title)
  }

  lemma BeforeTransitive(m: SortMode, a: Task, b: Task, c: Task)
    requires Before(m, a, b) && Before(m, b, c)
    ensures Before(m, a, c)
  {
    if m == Alphabetical { LexTransitive(a.title, b.title, c.title); }
  }

  /** Not-before is transitive too: the comparator is a strict weak order,
      which is what makes a stable sort's result well defined. */
  lemma NotBeforeTransitive(m: SortMode, a: Task, b: Task, c: Task)
    requires !Before(m, a, b) && !Before(m, b, c)
    ensures !Before(m, a, c)
  {
    if m == Alphabetical && LexLess(a.title, c.title) {
      if a.title == b.title {
      } else {
        LexTotal(a.title, b.title);
        LexTransitive(b.title, a.title, c.title);
      }
    }
  }

  /** No element is required to come before an earlier one. */
  predicate Sorted(m: SortMode, s: seq<Task>) {
    forall i, j :: 0 <= i < j < |s| ==> !Before(m, s[j], s[i])
  }

  /** Puts `x` in front of the first element it need not follow. */
  function Insert(m: SortMode, x: Task, s: seq<Task>): (r: seq<Task>)
    ensures multiset(r) == multiset(s) + multiset{x}
  {
    if s == [] then [x]
    else if Before(m, s[0], x) then
      assert s == [s[0]] + s[1..];
      [s[0]] + Insert(m, x, s[1..])
    else [x] + s
  }

  /** The sort the board applies to the searched tasks. */
  function Sort(m: SortMode, s: seq<Task>): (r: seq<Task>)
    ensures multiset(r) == multiset(s)
  {
    if s == [] then []
    else
      assert s == [s[0]] + s[1..];
      Insert(m, s[0], Sort(m, s[1..]))
  }

  lemma SortedCons(m: SortMode, a: Task, s: seq<Task>)
    requires Sorted(m, s)
    requires forall e :: e in s ==> !Before(m, e, a)
    ensures Sorted(m, [a] + s)
  {
    forall i, j | 0 <= i < j < |[a] + s|
      ensures !Before(m, ([a] + s)[j], ([a] + s)[i])
    {
      if i > 0 {
        assert ([a] + s)[i] == s[i - 1] && ([a] + s)[j] == s[j - 1];
      } else {
        assert ([a] + s)[j] == s[j - 1];
      }
    }
  }

  lemma {:induction false} InsertSorted(m: SortMode, x: Task, s: seq<Task>)
    requires Sorted(m, s)
    ensures Sorted(m, Insert(m, x, s))
  {
    if s == [] {
    } else if Before(m, s[0], x) {
      assert Sorted(m, s[1..]);
      InsertSorted(m, x, s[1..]);
      var r := Insert(m, x, s[1..]);
      forall e | e in r
        ensures !Before(m, e, s[0])
      {
        assert e in multiset(r);
        if e == x {
          if Before(m, x, s[0]) {
            BeforeTransitive(m, x, s[0], x);
          }
        } else {
          assert e in multiset(s[1..]);
          var j :| 0 <= j < |s[1..]| && s[1..][j] == e;
          assert s[j + 1] == e;
        }
      }
      SortedCons(m, s[0], r);
    } else {
      forall e | e in s
        ensures !Before(m, e, x)
      {
        var j :| 0 <= j < |s| && s[j] == e;
        if j > 0 {
          NotBeforeTransitive(m, e, s[0], x);
        }
      }
      SortedCons(m, x, s);
    }
  }

  /** The sort's result is ordered. */
  lemma {:induction false} SortSorted(m: SortMode, s: seq<Task>)
    ensures Sorted(m, Sort(m, s))
  {
    if s != [] {
      SortSorted(m, s[1..]);
      InsertSorted(m, s[0], Sort(m, s[1..]));
    }
  }

  /** Neither task has to come before the other: the comparator returns 0. */
  predicate Tied(m: SortMode, a: Task, b: Task) {
    !Before(m, a, b) && !Before(m, b, a)
  }

  /** Tasks the comparator cannot tell apart from `y`. */
  function TiedWith(m: SortMode, y: Task): Task -> bool {
    t => Tied(m, t, y)
  }

  /** Whatever must precede a task tied with `y` is not itself tied with `y`. */
  lemma BeforeTiedIsUntied(m: SortMode, a: Task, x: Task, y: Task)
    requires Before(m, a, x) && Tied(m, x, y)
    ensures !Tied(m, a, y)
  {
    if Tied(m, a, y) {
      NotBeforeTransitive(m, a, y, x);
    }
  }

  lemma {:induction false} FilterInsertTied(m: SortMode, y: Task, x: Task, s: seq<Task>)
    requires Tied(m, x, y)
    ensures Filter(TiedWith(m, y), Insert(m, x, s)) == [x] + Filter(TiedWith(m, y), s)
  {
    var p := TiedWith(m, y);
    if s != [] && Before(m, s[0], x) {
      FilterInsertTied(m, y, x, s[1..]);
      FilterCons(p, s[0], Insert(m, x, s[1..]));
      BeforeTiedIsUntied(m, s[0], x, y);
      assert !p(s[0]);
      var r := Insert(m, x, s[1..]);
      assert Insert(m, x, s) == [s[0]] + r;
      assert Filter(p, [s[0]] + r) == Filter(p, r);
      assert Filter(p, s) == Filter(p, s[1..]);
    } else if s != [] {
      FilterCons(p, x, s);
    }
  }

  lemma {:induction false} FilterInsertUntied(m: SortMode, y: Task, x: Task, s: seq<Task>)
    requires !Tied(m, x, y)
    ensures Filter(TiedWith(m, y), Insert(m, x, s)) == Filter(TiedWith(m, y), s)
  {
    var p := TiedWith(m, y);
    if s != [] && Before(m, s[0], x) {
      FilterInsertUntied(m, y, x, s[1..]);
      FilterCons(p, s[0], Insert(m, x, s[1..]));
    } else if s != [] {
      FilterCons(p, x, s);
    }
  }

  /** Stability: among tasks the comparator ties, the sort keeps the
      original order. */
  lemma {:induction false} SortStable(m: SortMode, s: seq<Task>, y: Task)
    ensures Filter(TiedWith(m, y), Sort(m, s)) == Filter(TiedWith(m, y), s)
  {
    if s != [] {
      SortStable(m, s[1..], y);
      if Tied(m, s[0], y) {
        FilterInsertTied(m, y, s[0], Sort(m, s[1..]));
      } else {
        FilterInsertUntied(m, y, s[0], Sort(m, s[1..]));
      }
    }
  }

  /** "recent": non-increasing in the recency key. */
  lemma SortRecentOrder(s: seq<Task>)
    ensures forall i, j :: 0 <= i < j < |Sort(Recent, s)| ==>
      RecencyKey(Sort(Recent, s)[i]) >= RecencyKey(Sort(Recent, s)[j])
  {
    SortSorted(Recent, s);
  }

  /** "alphabetical": titles in non-decreasing order. */
  lemma SortAlphabeticalOrder(s: seq<Task>)
    ensures forall i, j :: 0 <= i < j < |Sort(Alphabetical, s)| ==>
      !LexLess(Sort(Alphabetical, s)[j].title, Sort(Alphabetical, s)[i].title)
  {
    SortSorted(Alphabetical, s);
  }

  /** Keeping only some tasks of a sorted list leaves it sorted. */
  lemma {:induction false} FilterKeepsSorted(m: SortMode, p: Task -> bool, s: seq<Task>)
    requires Sorted(m, s)
    ensures Sorted(m, Filter(p, s))
  {
    if s != [] {
      assert Sorted(m, s[1..]);
      FilterKeepsSorted(m, p, s[1..]);
      var rest := Filter(p, s[1..]);
      if p(s[0]) {
        forall e | e in rest
          ensures !Before(m, e, s[0])
        {
          var j :| 0 <= j < |s[1..]| && s[1..][j] == e;
          assert s[j + 1] == e;
        }
        SortedCons(m, s[0], rest);
      }
    }
  }
}
