/**
 * The read-only side of the tracker: the filter buttons' values, the filtered
 * list shown to the user (`getFilteredTasks`) and the counters of
 * `updateStats`.
 */
module Views {
  import opened Tasks

  /** The value of a filter button's `data-filter`. Anything that is not one of
      the six names is kept verbatim in `Other`. */
  datatype Filter = All | Active | Completed | OfPriority(priority: Priority) | Other(name: string)
  {
    /** The string the tracker holds in `currentFilter`. */
    function Name(): string
    {
      match this
      case All => "all"
      case Active => "active"
      case Completed => "completed"
      case OfPriority(p) => PriorityName(p)
      case Other(name) => name
    }
  }

  function PriorityName(p: Priority): string
  {
    match p
    case Low => "low"
    case Medium => "medium"
    case High => "high"
  }

  predicate IsFilterName(s: string)
  {
    s == "all" || s == "active" || s == "completed" || s == "low" || s == "medium" || s == "high"
  }

  /** Reads a button's `data-filter` string: the filter remembers the string
      exactly, and only unrecognised strings fall into `Other`. */
  function FilterOf(s: string): (f: Filter)
    ensures f.Name() == s
    ensures f.Other? <==> !IsFilterName(s)
  {
    if s == "all" then All
    else if s == "active" then Active
    else if s == "completed" then Completed
    else if s == "low" then OfPriority(Low)
    else if s == "medium" then OfPriority(Medium)
    else if s == "high" then OfPriority(High)
    else Other(s)
  }

  /** Reading back a filter's name gives the same filter, unless it is an
      `Other` that happens to carry one of the six names. */
  lemma FilterNameRoundTrip(f: Filter)
    requires f.Other? ==> !IsFilterName(f.name)
    ensures FilterOf(f.Name()) == f
  {
  }

  /** Whether task `t` is shown under filter `f`. */
  predicate Shows(f: Filter, t: Task)
  {
    match f
    case Active => !t.completed
    case Completed => t.completed
    case OfPriority(p) => t.priority == p
    case _ => true
  }

  /** `getFilteredTasks`: a filtered copy for the five named filters; the list
      itself for "all" and anything unrecognised. */
  function View(tasks: seq<Task>, f: Filter): seq<Task>
  {
    match f
    case All => tasks
    case Other(_) => tasks
    case _ => Keep(tasks, (t: Task) => Shows(f, t))
  }

  /** The view holds exactly the tasks the filter shows, each as often as in
      the list, in the list's order; "all" and unrecognised filters show the
      whole list. */
  lemma ViewSpec(tasks: seq<Task>, f: Filter)
    ensures IsSubsequence(View(tasks, f), tasks)
    ensures forall t :: multiset(View(tasks, f))[t] == if Shows(f, t) then multiset(tasks)[t] else 0
    ensures f.All? || f.Other? ==> View(tasks, f) == tasks
  {
    if !(f.All? || f.Other?) {
      KeepIsFilter(tasks, (t: Task) => Shows(f, t));
    } else {
      SubsequenceRefl(tasks);
    }
  }

  lemma {:induction false} SubsequenceRefl(s: seq<Task>)
    ensures IsSubsequence(s, s)
  {
    if s != [] {
      SubsequenceRefl(s[1..]);
    }
  }

  /** Every task is either active or completed: the two views split the list. */
  lemma ActiveCompletedPartition(tasks: seq<Task>)
    ensures |View(tasks, Active)| + |View(tasks, Completed)| == |tasks|
  {
    KeepSplit(tasks, (t: Task) => Shows(Active, t), (t: Task) => Shows(Completed, t));
  }

  /** A newly added task heads every view that shows it and is absent from the
      others; the rest of each view is unchanged. */
  lemma ViewAfterAdd(tasks: seq<Task>, t: Task, f: Filter)
    ensures View([t] + tasks, f) == (if Shows(f, t) then [t] else []) + View(tasks, f)
  {
    if !(f.All? || f.Other?) {
      var p := (x: Task) => Shows(f, x);
      KeepAppend([t], tasks, p);
      assert [t][1..] == [];
    }
  }

  // ---------------------------------------------------------------------------
  // Statistics

  datatype Stats = Stats(total: nat, active: nat, completed: nat, rate: nat)

  /** `Math.round(completed / total * 100)` in exact arithmetic, 0 for an empty
      list: the integer nearest to the percentage, halves rounded up. It is
      0 when nothing is completed and 100 when everything is. */
  function CompletionRate(completed: nat, total: nat): (r: nat)
    requires completed <= total
    ensures total == 0 ==> r == 0
    ensures total > 0 ==> 200 * completed - total < 2 * total * r <= 200 * completed + total
    ensures r <= 100
    ensures completed == 0 ==> r == 0
    ensures 0 < total == completed ==> r == 100
  {
    if total == 0 then 0
    else
      var r := (200 * completed + total) / (2 * total);
      RateBounds(completed, total, r);
      r
  }

  lemma RateBounds(completed: nat, total: nat, r: nat)
    requires 0 < total && completed <= total
    requires r == (200 * completed + total) / (2 * total)
    ensures 200 * completed - total < 2 * total * r <= 200 * completed + total
    ensures r <= 100
    ensures completed == 0 ==> r == 0
    ensures total == completed ==> r == 100
  {
    var d := 2 * total;
    var n := 200 * completed + total;
    var m := n % d;
    assert n == d * r + m && 0 <= m < d;
    if r > 100 {
      assert d * r >= d * 101 by { MulMono(d, 101, r); }
      assert false;
    }
    if completed == 0 {
      assert n == total;
      if r >= 1 {
        MulMono(d, 1, r);
        assert false;
      }
    }
    if total == completed {
      assert n == d * 100 + total;
      if r < 100 {
        MulMono(d, r + 1, 100);
        assert false;
      }
    }
  }

  lemma MulMono(d: nat, a: nat, b: nat)
    requires a <= b
    ensures d * a <= d * b
  {
  }

  /** `updateStats`: the four counters shown under the list. Active and
      completed add up to the total and are the sizes of the two views. */
  function Statistics(tasks: seq<Task>): (s: Stats)
    ensures s.total == |tasks|
    ensures s.active + s.completed == s.total
    ensures s.completed == |View(tasks, Completed)| && s.active == |View(tasks, Active)|
    ensures s.rate <= 100 && (s.total == 0 ==> s.rate == 0)
    ensures s.total > 0 && s.completed == s.total ==> s.rate == 100
    ensures s.completed == 0 ==> s.rate == 0
  {
    var total := |tasks|;
    var completed := |View(tasks, Completed)|;
    ActiveCompletedPartition(tasks);
    Stats(total, total - completed, completed, CompletionRate(completed, total))
  }

  /** Toggling a present id moves exactly one task between active and
      completed; the total is unchanged. */
  lemma ToggleStats(tasks: seq<Task>, id: int)
    requires HasId(tasks, id)
    ensures var i := FirstIndex(tasks, id).value;
      var before, after := Statistics(tasks), Statistics(Toggled(tasks, id));
      after.total == before.total
      && after.completed == (if tasks[i].completed then before.completed - 1 else before.completed + 1)
  {
    var i := FirstIndex(tasks, id).value;
    KeepCountUpdate(tasks, i, tasks[i].(completed := !tasks[i].completed), (t: Task) => Shows(Completed, t));
  }

  /** Editing a text leaves every counter as it was. */
  lemma EditStats(tasks: seq<Task>, id: int, text: string)
    ensures Statistics(Edited(tasks, id, text)) == Statistics(tasks)
  {
    if HasId(tasks, id) {
      var i := FirstIndex(tasks, id).value;
      KeepCountUpdate(tasks, i, tasks[i].(text := text), (t: Task) => Shows(Completed, t));
    }
  }
}
