/**
 * The pure side of the dashboard: the filtered view, the statistics, and the
 * two list patches its handlers apply (`map` replacing by id, `filter`
 * removing by id).
 */
module TaskViews {
  import opened Wrappers
  import opened Text
  import opened Tasks

  /** The filter criteria: a search term and two select values ("all" or a name). */
  datatype Criteria = Criteria(search: string, statusFilter: string, priorityFilter: string)

  /** The value the status and priority selects use for "no filter". */
  const AllValues: string := "all"

  /**
   * The lower-cased term occurs in the lower-cased title or the non-null
   * description. An empty term matches every task.
   */
  predicate MatchesSearch(t: Task, term: string)
    ensures term == "" ==> MatchesSearch(t, term)
  {
    Includes(Lower(t.title), Lower(term))
    || (t.description.Some? && Includes(Lower(t.description.value), Lower(term)))
  }

  /**
   * "all" accepts every task, a status name accepts exactly the tasks in that
   * status, and any other value accepts none.
   */
  predicate MatchesStatus(t: Task, statusFilter: string)
    ensures statusFilter == AllValues ==> MatchesStatus(t, statusFilter)
    ensures ParseStatus(statusFilter).Some? ==> (MatchesStatus(t, statusFilter) <==> t.status == ParseStatus(statusFilter).value)
    ensures statusFilter != AllValues && ParseStatus(statusFilter).None? ==> !MatchesStatus(t, statusFilter)
  {
    StatusNameRoundTrip(t.status);
    statusFilter == AllValues || StatusName(t.status) == statusFilter
  }

  /**
   * "all" accepts every task, a priority name accepts exactly the tasks with
   * that priority, and any other value accepts none.
   */
  predicate MatchesPriority(t: Task, priorityFilter: string)
    ensures priorityFilter == AllValues ==> MatchesPriority(t, priorityFilter)
    ensures ParsePriority(priorityFilter).Some? ==> (MatchesPriority(t, priorityFilter) <==> t.priority == ParsePriority(priorityFilter).value)
    ensures priorityFilter != AllValues && ParsePriority(priorityFilter).None? ==> !MatchesPriority(t, priorityFilter)
  {
    PriorityNameRoundTrip(t.priority);
    priorityFilter == AllValues || PriorityName(t.priority) == priorityFilter
  }

  /** A task is shown when all three filters accept it; the open criteria accept every task. */
  predicate Matches(t: Task, c: Criteria)
    ensures c == Criteria("", AllValues, AllValues) ==> Matches(t, c)
    ensures Matches(t, c) ==> MatchesSearch(t, c.search) && MatchesStatus(t, c.statusFilter) && MatchesPriority(t, c.priorityFilter)
  {
    MatchesSearch(t, c.search) && MatchesStatus(t, c.statusFilter) && MatchesPriority(t, c.priorityFilter)
  }

  /**
   * `tasks.filter(...)`: the tasks the criteria accept, in their order. Each
   * accepted task keeps its number of copies; each refused one has none.
   */
  function Filtered(ts: seq<Task>, c: Criteria): (r: seq<Task>)
    ensures |r| <= |ts|
    ensures forall t :: t in r <==> t in ts && Matches(t, c)
    ensures forall t :: multiset(r)[t] == (if Matches(t, c) then multiset(ts)[t] else 0)
  {
    if ts == [] then []
    else
      assert ts == [ts[0]] + ts[1..];
      if Matches(ts[0], c) then [ts[0]] + Filtered(ts[1..], c)
      else Filtered(ts[1..], c)
  }

  /** The search ignores the case of the term. */
  lemma SearchIgnoresCase(t: Task, term: string)
    ensures MatchesSearch(t, term) <==> MatchesSearch(t, Lower(term))
  {
    LowerIdempotent(term);
  }

  /** `a` is `b` with some elements dropped and the rest kept in order. */
  ghost predicate IsSubsequence<T>(a: seq<T>, b: seq<T>)
    decreases |b|
  {
    if a == [] then true
    else if b == [] then false
    else (a[0] == b[0] && IsSubsequence(a[1..], b[1..])) || IsSubsequence(a, b[1..])
  }

  /** The filtered view keeps the order of the collection. */
  lemma {:induction false} FilteredIsSubsequence(ts: seq<Task>, c: Criteria)
    ensures IsSubsequence(Filtered(ts, c), ts)
  {
    if ts != [] {
      FilteredIsSubsequence(ts[1..], c);
      var rest := Filtered(ts[1..], c);
      if Matches(ts[0], c) {
        assert ([ts[0]] + rest)[1..] == rest;
      } else if rest != [] {
        assert IsSubsequence(rest, ts[1..]);
      }
    }
  }

  /** With the status filter set to a status and the rest open, exactly the tasks in that status remain. */
  lemma {:induction false} StatusFilterSelects(ts: seq<Task>, s: Status)
    ensures forall t :: t in Filtered(ts, Criteria("", StatusName(s), AllValues)) <==> t in ts && t.status == s
  {
    forall t | t in ts
      ensures Matches(t, Criteria("", StatusName(s), AllValues)) <==> t.status == s
    {
      assert MatchesSearch(t, "");
      StatusNameRoundTrip(t.status);
      StatusNameRoundTrip(s);
    }
  }

  /** The number of tasks in status `s`. */
  function CountStatus(ts: seq<Task>, s: Status): (n: nat)
    ensures n <= |ts|
  {
    if ts == [] then 0
    else (if ts[0].status == s then 1 else 0) + CountStatus(ts[1..], s)
  }

  /** The three status counts partition the collection. */
  lemma {:induction false} StatusCountsPartition(ts: seq<Task>)
    ensures CountStatus(ts, Completed) + CountStatus(ts, InProgress) + CountStatus(ts, Pending) == |ts|
  {
    if ts != [] {
      StatusCountsPartition(ts[1..]);
    }
  }

  /** The count of a status equals the size of the view filtered to that status. */
  lemma {:induction false} CountIsFilteredSize(ts: seq<Task>, s: Status)
    ensures CountStatus(ts, s) == |Filtered(ts, Criteria("", StatusName(s), AllValues))|
  {
    if ts != [] {
      CountIsFilteredSize(ts[1..], s);
      assert MatchesSearch(ts[0], "");
      StatusNameRoundTrip(ts[0].status);
      StatusNameRoundTrip(s);
    }
  }

  datatype TaskStats = TaskStats(total: nat, completed: nat, inProgress: nat, pending: nat)

  /** `taskStats`: the size of the whole (unfiltered) collection and its count per status. */
  function Stats(ts: seq<Task>): (r: TaskStats)
    ensures r.total == |ts|
    ensures r.completed + r.inProgress + r.pending == r.total
    ensures r.completed == |Filtered(ts, Criteria("", StatusName(Completed), AllValues))|
    ensures r.inProgress == |Filtered(ts, Criteria("", StatusName(InProgress), AllValues))|
    ensures r.pending == |Filtered(ts, Criteria("", StatusName(Pending), AllValues))|
  {
    StatusCountsPartition(ts);
    CountIsFilteredSize(ts, Completed);
    CountIsFilteredSize(ts, InProgress);
    CountIsFilteredSize(ts, Pending);
    TaskStats(|ts|, CountStatus(ts, Completed), CountStatus(ts, InProgress), CountStatus(ts, Pending))
  }

  /** `prev.map(task => task.id === id ? t : task)`. */
  function ReplaceById(ts: seq<Task>, id: string, t: Task): (r: seq<Task>)
    ensures |r| == |ts|
    ensures forall i :: 0 <= i < |ts| ==> r[i] == (if ts[i].id == id then t else ts[i])
  {
    if ts == [] then []
    else [if ts[0].id == id then t else ts[0]] + ReplaceById(ts[1..], id, t)
  }

  /** Replacing the id of a held entry puts the new task into the collection. */
  lemma ReplaceByIdHolds(ts: seq<Task>, id: string, t: Task, held: Task)
    requires held in ts && held.id == id
    ensures t in ReplaceById(ts, id, t)
  {
    var j :| 0 <= j < |ts| && ts[j] == held;
    assert ReplaceById(ts, id, t)[j] == t;
  }

  /** `prev.filter(task => task.id !== id)`. */
  function RemoveById(ts: seq<Task>, id: string): (r: seq<Task>)
    ensures |r| <= |ts|
    ensures forall t :: t in r <==> t in ts && t.id != id
  {
    if ts == [] then []
    else if ts[0].id == id then RemoveById(ts[1..], id)
    else [ts[0]] + RemoveById(ts[1..], id)
  }

  /** The number of entries carrying `id`. */
  function CountId(ts: seq<Task>, id: string): (n: nat)
    ensures n <= |ts|
    ensures n == 0 <==> forall t :: t in ts ==> t.id != id
  {
    if ts == [] then 0
    else (if ts[0].id == id then 1 else 0) + CountId(ts[1..], id)
  }

  /** Removing drops exactly the entries carrying the id and keeps the others in order. */
  lemma {:induction false} RemoveByIdShape(ts: seq<Task>, id: string)
    ensures |RemoveById(ts, id)| == |ts| - CountId(ts, id)
    ensures IsSubsequence(RemoveById(ts, id), ts)
  {
    if ts != [] {
      RemoveByIdShape(ts[1..], id);
      var rest := RemoveById(ts[1..], id);
      if ts[0].id != id {
        assert ([ts[0]] + rest)[1..] == rest;
      } else if rest != [] {
        assert IsSubsequence(rest, ts[1..]);
      }
    }
  }

  /** Removing an id nobody carries leaves the collection as it was. */
  lemma {:induction false} RemoveAbsentId(ts: seq<Task>, id: string)
    requires forall t :: t in ts ==> t.id != id
    ensures RemoveById(ts, id) == ts
  {
    if ts != [] {
      RemoveAbsentId(ts[1..], id);
      assert [ts[0]] + ts[1..] == ts;
    }
  }

  /** Deleting the same id twice leaves what deleting it once left. */
  lemma RemoveIdempotent(ts: seq<Task>, id: string)
    ensures RemoveById(RemoveById(ts, id), id) == RemoveById(ts, id)
  {
    RemoveAbsentId(RemoveById(ts, id), id);
  }

  /** A sample task with the given title, status and priority. */
  function Sample(id: string, title: string, s: Status, p: Priority): Task {
    Task(id, title, None, s, p, None, "", "", "u")
  }

  /**
   * "Buy milk" (pending, low) is hidden by a search for "milk" restricted to
   * completed tasks, and shown by the same search restricted to low priority.
   */
  lemma FilterConjunctionExample()
    ensures !Matches(Sample("1", "Buy milk", Pending, Low), Criteria("milk", "completed", AllValues))
    ensures Matches(Sample("1", "Buy milk", Pending, Low), Criteria("MILK", AllValues, "low"))
  {
    var t := Sample("1", "Buy milk", Pending, Low);
    var title, term := Lower(t.title), Lower("MILK");
    assert term == "milk" by {
      assert |term| == 4 && term[0] == 'm' && term[1] == 'i' && term[2] == 'l' && term[3] == 'k';
    }
    assert title[4..8] == "milk" by {
      assert |title| == 8 && title[4] == 'm' && title[5] == 'i' && title[6] == 'l' && title[7] == 'k';
    }
    assert OccursAt(title, term, 4);
    IncludesIffOccurs(title, term);
    StatusNameRoundTrip(Pending);
  }

  /** Two pending tasks and a completed one: statistics 3 / 1 / 0 / 2, and the completed filter keeps one. */
  lemma StatsExample()
    ensures Stats([Sample("a", "A", Pending, Low), Sample("b", "B", Completed, High), Sample("c", "C", Pending, Medium)])
         == TaskStats(3, 1, 0, 2)
    ensures Filtered([Sample("a", "A", Pending, Low), Sample("b", "B", Completed, High), Sample("c", "C", Pending, Medium)],
                     Criteria("", "completed", AllValues))
         == [Sample("b", "B", Completed, High)]
  {
    var ts := [Sample("a", "A", Pending, Low), Sample("b", "B", Completed, High), Sample("c", "C", Pending, Medium)];
    assert ts[1..][1..][1..] == [];
    var c := Criteria("", "completed", AllValues);
    assert MatchesSearch(ts[0], "") && MatchesSearch(ts[1], "") && MatchesSearch(ts[2], "");
    assert !Matches(ts[0], c) && Matches(ts[1], c) && !Matches(ts[2], c);
    assert Filtered(ts[2..], c) == [];
    assert Filtered(ts[1..], c) == [ts[1]];
  }

  /** No two entries share an id (the store's key). */
  ghost predicate UniqueIds(ts: seq<Task>) {
    forall i, j :: 0 <= i < |ts| && 0 <= j < |ts| && ts[i].id == ts[j].id ==> i == j
  }

  /**
   * When ids are unique, replacing the entry at `k` moves one count from the
   * bucket of its old status to the bucket of the new task's status.
   */
  lemma {:induction false} CountAfterReplace(ts: seq<Task>, k: nat, t: Task, s: Status)
    requires UniqueIds(ts) && k < |ts|
    ensures CountStatus(ReplaceById(ts, ts[k].id, t), s)
         == CountStatus(ts, s) - (if ts[k].status == s then 1 else 0) + (if t.status == s then 1 else 0)
  {
    var id := ts[k].id;
    var r := ReplaceById(ts, id, t);
    assert r[1..] == ReplaceById(ts[1..], id, t);
    if k == 0 {
      assert forall i :: 0 <= i < |ts[1..]| ==> ts[1..][i].id != id by {
        forall i | 0 <= i < |ts[1..]| ensures ts[1..][i].id != id {
          assert ts[i + 1] == ts[1..][i];
        }
      }
      assert ReplaceById(ts[1..], id, t) == ts[1..];
    } else {
      assert ts[0].id != id;
      assert UniqueIds(ts[1..]) by {
        forall i, j | 0 <= i < |ts[1..]| && 0 <= j < |ts[1..]| && ts[1..][i].id == ts[1..][j].id
          ensures i == j
        {
          assert ts[i + 1].id == ts[j + 1].id;
        }
      }
      assert ts[1..][k - 1] == ts[k];
      CountAfterReplace(ts[1..], k - 1, t, s);
    }
  }
}
