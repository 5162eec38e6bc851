/**
 * Task records and the pure sequence operations the tracker is built from:
 * `Array.prototype.filter` (Keep), `Array.prototype.find` by id (FirstIndex),
 * and the effect of each mutating operation on the ordered task list.
 */
module Tasks {
  import opened Wrappers
  import opened Text

  datatype Priority = Low | Medium | High

  /** One to-do item. `id` comes from the clock, so two records may share it. */
  datatype Task = Task(id: int, text: string, priority: Priority, completed: bool, createdAt: string)

  // ---------------------------------------------------------------------------
  // Keep: order-preserving filter

  /** The elements of `s` satisfying `p`, in their order in `s`. */
  function Keep<T>(s: seq<T>, p: T -> bool): (r: seq<T>)
    ensures |r| <= |s|
    ensures forall x :: x in r ==> x in s && p(x)
  {
    if s == [] then []
    else if p(s[0]) then [s[0]] + Keep(s[1..], p)
    else Keep(s[1..], p)
  }

  /** `r` can be obtained from `s` by deleting elements; the rest keep their order. */
  ghost predicate IsSubsequence<T>(r: seq<T>, s: seq<T>)
    decreases |s|
  {
    if r == [] then true
    else if s == [] then false
    else (r[0] == s[0] && IsSubsequence(r[1..], s[1..])) || IsSubsequence(r, s[1..])
  }

  /** Filtering keeps order (the result is a subsequence), keeps every element
      that satisfies `p` with its multiplicity, and drops every other one. */
  lemma {:induction false} KeepIsFilter<T>(s: seq<T>, p: T -> bool)
    ensures IsSubsequence(Keep(s, p), s)
    ensures forall x :: multiset(Keep(s, p))[x] == if p(x) then multiset(s)[x] else 0
  {
    if s != [] {
      KeepIsFilter(s[1..], p);
      assert s == [s[0]] + s[1..];
    }
  }

  /** Filtering distributes over concatenation: the relative order of the two
      parts is kept. */
  lemma {:induction false} KeepAppend<T>(a: seq<T>, b: seq<T>, p: T -> bool)
    ensures Keep(a + b, p) == Keep(a, p) + Keep(b, p)
  {
    if a != [] {
      assert (a + b)[0] == a[0] && (a + b)[1..] == a[1..] + b;
      KeepAppend(a[1..], b, p);
      if p(a[0]) {
        assert Keep(a + b, p) == [a[0]] + (Keep(a[1..], p) + Keep(b, p));
      }
    } else {
      assert a + b == b;
    }
  }

  /** The filter drops nothing exactly when every element passes; otherwise the
      result is strictly shorter. */
  lemma {:induction false} KeepLength<T>(s: seq<T>, p: T -> bool)
    ensures |Keep(s, p)| == |s| <==> forall i :: 0 <= i < |s| ==> p(s[i])
    ensures (forall i :: 0 <= i < |s| ==> p(s[i])) ==> Keep(s, p) == s
  {
    if s != [] {
      KeepLength(s[1..], p);
      if !p(s[0]) {
        assert |Keep(s[1..], p)| <= |s[1..]|;
      }
    }
  }

  /** An element passes either `p` or its negation: the two filters split `s`. */
  lemma {:induction false} KeepSplit<T>(s: seq<T>, p: T -> bool, q: T -> bool)
    requires forall x :: q(x) == !p(x)
    ensures |Keep(s, p)| + |Keep(s, q)| == |s|
  {
    if s != [] {
      KeepSplit(s[1..], p, q);
    }
  }

  /** Filtering a filtered sequence again with the same predicate changes nothing. */
  lemma {:induction false} KeepIdempotent<T>(s: seq<T>, p: T -> bool)
    ensures Keep(Keep(s, p), p) == Keep(s, p)
  {
    var r := Keep(s, p);
    assert forall i :: 0 <= i < |r| ==> r[i] in r;
    KeepLength(r, p);
  }

  /** Replacing one element changes the filter's size only by whether the old
      and the new element pass. */
  lemma {:induction false} KeepCountUpdate<T>(s: seq<T>, i: nat, x: T, p: T -> bool)
    requires i < |s|
    ensures |Keep(s[i := x], p)| + (if p(s[i]) then 1 else 0) == |Keep(s, p)| + (if p(x) then 1 else 0)
  {
    if i == 0 {
      assert s[i := x][1..] == s[1..];
    } else {
      assert s[i := x][1..] == s[1..][i - 1 := x];
      KeepCountUpdate(s[1..], i - 1, x, p);
    }
  }

  // ---------------------------------------------------------------------------
  // find by id

  predicate HasId(tasks: seq<Task>, id: int)
  {
    exists i :: 0 <= i < |tasks| && tasks[i].id == id
  }

  /** Index of the first record whose id is `id` (`tasks.find(t => t.id === id)`). */
  function FirstIndex(tasks: seq<Task>, id: int): (r: Option<nat>)
    ensures r.None? <==> !HasId(tasks, id)
    ensures r.Some? ==> r.value < |tasks| && tasks[r.value].id == id
    ensures r.Some? ==> forall j :: 0 <= j < r.value ==> tasks[j].id != id
  {
    if tasks == [] then None
    else if tasks[0].id == id then Some(0)
    else match FirstIndex(tasks[1..], id)
      case None =>
        assert forall i :: 1 <= i < |tasks| ==> tasks[i] == tasks[1..][i - 1];
        None
      case Some(i) => Some(i + 1)
  }

  /** Records with equal ids position by position have the same first match. */
  lemma FirstIndexOnIds(a: seq<Task>, b: seq<Task>, id: int)
    requires |a| == |b| && forall k :: 0 <= k < |a| ==> a[k].id == b[k].id
    ensures FirstIndex(a, id) == FirstIndex(b, id)
  {
    if HasId(a, id) {
      var i := FirstIndex(a, id).value;
      assert b[i].id == id;
    }
  }

  // ---------------------------------------------------------------------------
  // The effect of each operation on the task list

  /** addTask: the trimmed text, if not blank, becomes a new record at the front. */
  function Added(tasks: seq<Task>, input: string, priority: Priority, now: int, createdAt: string): seq<Task>
  {
    var text := Trim(input);
    if text == [] then tasks
    else [Task(now, text, priority, false, createdAt)] + tasks
  }

  /** toggleTask: flip `completed` on the first record with the id. */
  function Toggled(tasks: seq<Task>, id: int): seq<Task>
  {
    match FirstIndex(tasks, id)
    case None => tasks
    case Some(i) => tasks[i := tasks[i].(completed := !tasks[i].completed)]
  }

  /** saveEdit: replace the text of the first record with the id. */
  function Edited(tasks: seq<Task>, id: int, text: string): seq<Task>
  {
    match FirstIndex(tasks, id)
    case None => tasks
    case Some(i) => tasks[i := tasks[i].(text := text)]
  }

  /** deleteTask: every record with the id is dropped. */
  function Removed(tasks: seq<Task>, id: int): seq<Task>
  {
    Keep(tasks, (t: Task) => t.id != id)
  }

  // ---------------------------------------------------------------------------
  // Properties of the operations

  /** Blank input adds nothing; otherwise the new record (trimmed text, given
      priority, not completed) is at index 0 and the old list follows it. */
  lemma AddedSpec(tasks: seq<Task>, input: string, priority: Priority, now: int, createdAt: string)
    ensures AllSpace(input) ==> Added(tasks, input, priority, now, createdAt) == tasks
    ensures !AllSpace(input) ==>
      var r := Added(tasks, input, priority, now, createdAt);
      |r| == |tasks| + 1 && r[1..] == tasks
      && r[0].id == now && r[0].priority == priority && !r[0].completed && r[0].createdAt == createdAt
      && r[0].text == Trim(input) && r[0].text != [] && Padded(input, r[0].text)
  {
    var r := Added(tasks, input, priority, now, createdAt);
    if !AllSpace(input) {
      assert r[1..] == tasks;
    }
  }

  /** One request to `addTask`: the input box, the priority selector and the clock. */
  datatype AddRequest = AddRequest(input: string, priority: Priority, now: int, createdAt: string)

  /** The list after handling the requests in order. */
  function AddAll(tasks: seq<Task>, reqs: seq<AddRequest>): seq<Task>
    decreases |reqs|
  {
    if reqs == [] then tasks
    else
      var q := reqs[0];
      AddAll(Added(tasks, q.input, q.priority, q.now, q.createdAt), reqs[1..])
  }

  function NonBlank(reqs: seq<AddRequest>): (n: nat)
    ensures n <= |reqs|
  {
    if reqs == [] then 0
    else (if AllSpace(reqs[0].input) then 0 else 1) + NonBlank(reqs[1..])
  }

  /** A run of adds grows the list by the number of requests with non-blank text. */
  lemma {:induction false} AddAllLength(tasks: seq<Task>, reqs: seq<AddRequest>)
    ensures |AddAll(tasks, reqs)| == |tasks| + NonBlank(reqs)
    decreases |reqs|
  {
    if reqs != [] {
      var q := reqs[0];
      var next := Added(tasks, q.input, q.priority, q.now, q.createdAt);
      AddedSpec(tasks, q.input, q.priority, q.now, q.createdAt);
      AddAllLength(next, reqs[1..]);
    }
  }

  /** Newest first: adding A then B puts B before A, ahead of the old list. */
  lemma AddTwiceOrder(tasks: seq<Task>, a: AddRequest, b: AddRequest)
    requires !AllSpace(a.input) && !AllSpace(b.input)
    ensures AddAll(tasks, [a, b])
      == [Task(b.now, Trim(b.input), b.priority, false, b.createdAt),
          Task(a.now, Trim(a.input), a.priority, false, a.createdAt)] + tasks
  {
    var m := Added(tasks, a.input, a.priority, a.now, a.createdAt);
    assert [a, b][1..] == [b] && [b][1..] == [];
    assert AddAll(tasks, [a, b]) == AddAll(m, [b]);
    assert AddAll(m, [b]) == Added(m, b.input, b.priority, b.now, b.createdAt);
  }

  /** toggleTask with an absent id changes nothing. With a present id only the
      first matching record changes, and only in its `completed` flag. */
  lemma ToggledSpec(tasks: seq<Task>, id: int)
    ensures !HasId(tasks, id) ==> Toggled(tasks, id) == tasks
    ensures |Toggled(tasks, id)| == |tasks|
    ensures forall i :: 0 <= i < |tasks| && tasks[i].id == id && (forall j :: 0 <= j < i ==> tasks[j].id != id) ==>
      Toggled(tasks, id)[i] == tasks[i].(completed := !tasks[i].completed)
      && forall k :: 0 <= k < |tasks| && k != i ==> Toggled(tasks, id)[k] == tasks[k]
  {
    forall i | 0 <= i < |tasks| && tasks[i].id == id && (forall j :: 0 <= j < i ==> tasks[j].id != id)
      ensures FirstIndex(tasks, id) == Some(i)
    {
      var f := FirstIndex(tasks, id).value;
      assert !(f < i) && !(i < f);
    }
  }

  /** Toggling the same id twice restores the list. */
  lemma ToggleTwice(tasks: seq<Task>, id: int)
    ensures Toggled(Toggled(tasks, id), id) == tasks
  {
    var once := Toggled(tasks, id);
    FirstIndexOnIds(tasks, once, id);
  }

  /** saveEdit on a present id replaces only the text of the first matching
      record; an absent id changes nothing. */
  lemma EditedSpec(tasks: seq<Task>, id: int, text: string)
    ensures !HasId(tasks, id) ==> Edited(tasks, id, text) == tasks
    ensures |Edited(tasks, id, text)| == |tasks|
    ensures forall i :: 0 <= i < |tasks| && tasks[i].id == id && (forall j :: 0 <= j < i ==> tasks[j].id != id) ==>
      Edited(tasks, id, text)[i] == tasks[i].(text := text)
      && forall k :: 0 <= k < |tasks| && k != i ==> Edited(tasks, id, text)[k] == tasks[k]
  {
    forall i | 0 <= i < |tasks| && tasks[i].id == id && (forall j :: 0 <= j < i ==> tasks[j].id != id)
      ensures FirstIndex(tasks, id) == Some(i)
    {
      var f := FirstIndex(tasks, id).value;
      assert !(f < i) && !(i < f);
    }
  }

  /** Saving the same edit twice is saving it once. */
  lemma EditIdempotent(tasks: seq<Task>, id: int, text: string)
    ensures Edited(Edited(tasks, id, text), id, text) == Edited(tasks, id, text)
  {
    FirstIndexOnIds(tasks, Edited(tasks, id, text), id);
  }

  /** deleteTask keeps exactly the records with a different id, in their
      original order, and drops something exactly when the id was present. */
  lemma RemovedSpec(tasks: seq<Task>, id: int)
    ensures IsSubsequence(Removed(tasks, id), tasks)
    ensures forall t :: multiset(Removed(tasks, id))[t] == if t.id != id then multiset(tasks)[t] else 0
    ensures |Removed(tasks, id)| < |tasks| <==> HasId(tasks, id)
    ensures !HasId(tasks, id) ==> Removed(tasks, id) == tasks
  {
    var p := (t: Task) => t.id != id;
    KeepIsFilter(tasks, p);
    KeepLength(tasks, p);
  }

  /** Deleting the same id a second time is a no-op. */
  lemma RemoveTwice(tasks: seq<Task>, id: int)
    ensures Removed(Removed(tasks, id), id) == Removed(tasks, id)
  {
    KeepIdempotent(tasks, (t: Task) => t.id != id);
  }
}
