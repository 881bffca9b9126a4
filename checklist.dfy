/** The checklist as the page shows it: the task elements in their display order, each with
    its id (`data-task`), whether it carries the `completed` class, and the text of its
    timestamp line. These functions say what toggling, restoring, reordering and resetting do
    to that list and to the store; the `Page` class performs them step by step. */
module Checklist {
  import opened Wrappers
  import opened Store
  import opened JsNumbers
  import Json

  /** One task element. `stamp` is the text of its `.task-timestamp` child ("" when empty). */
  datatype Task = Task(id: string, completed: bool, stamp: string)

  /** The text `addTimestamp` writes, given the clock's `toLocaleTimeString` reading. */
  function StampText(time: string): (r: string)
    ensures r != ""
  {
    "Completed at " + time
  }

  /** The element after `classList.add('completed')` and `addTimestamp`. */
  function Complete(t: Task, time: string): Task {
    t.(completed := true, stamp := StampText(time))
  }

  /** The element after `classList.remove('completed')` and `removeTimestamp`. */
  function Uncomplete(t: Task): Task {
    t.(completed := false, stamp := "")
  }

  function Ids(ts: seq<Task>): (r: seq<string>)
    ensures |r| == |ts| && forall i :: 0 <= i < |ts| ==> r[i] == ts[i].id
  {
    seq(|ts|, i requires 0 <= i < |ts| => ts[i].id)
  }

  /** Task ids are unique on the page. */
  predicate DistinctIds(ts: seq<Task>) {
    forall i, j :: 0 <= i < j < |ts| ==> ts[i].id != ts[j].id
  }

  /** The visible flag of every task equals what its store entry reads back as. */
  predicate Agrees(ts: seq<Task>, st: Store) {
    forall i :: 0 <= i < |ts| ==> (StoredTrue(st, ts[i].id) <==> ts[i].completed)
  }

  /** A task shows a timestamp exactly when it is completed. */
  predicate StampsMatch(ts: seq<Task>) {
    forall i :: 0 <= i < |ts| ==> (ts[i].completed <==> ts[i].stamp != "")
  }

  /** The tasks as the static page declares them: none completed, no timestamps. */
  function Fresh(ids: seq<string>): (r: seq<Task>)
    ensures |r| == |ids| && forall i :: 0 <= i < |ids| ==> r[i] == Task(ids[i], false, "")
  {
    seq(|ids|, i requires 0 <= i < |ids| => Task(ids[i], false, ""))
  }

  /** Writing keys that are not task keys does not change agreement. */
  lemma AgreesIgnoresOtherKeys(ts: seq<Task>, st: Store, st': Store)
    requires forall k :: IsTaskKey(k) ==> Get(st, k) == Get(st', k)
    ensures Agrees(ts, st) <==> Agrees(ts, st')
  {
    forall i | 0 <= i < |ts|
      ensures StoredTrue(st, ts[i].id) == StoredTrue(st', ts[i].id)
    {
      TaskKeyInjective(ts[i].id, ts[i].id);
      assert Get(st, TaskKey(ts[i].id)) == Get(st', TaskKey(ts[i].id));
    }
  }

  // ---------------------------------------------------------------- progress

  /** `document.querySelectorAll('.task.completed').length`. */
  function CompletedCount(ts: seq<Task>): (n: nat)
    ensures n <= |ts|
    decreases |ts|
  {
    if ts == [] then 0 else (if ts[0].completed then 1 else 0) + CompletedCount(ts[1..])
  }

  function Bit(b: bool): nat {
    if b then 1 else 0
  }

  /** Replacing one task changes the count by that task's own contribution only. */
  lemma {:induction false} CompletedCountUpdate(ts: seq<Task>, i: nat, t: Task)
    requires i < |ts|
    ensures CompletedCount(ts[i := t]) == CompletedCount(ts) - Bit(ts[i].completed) + Bit(t.completed)
    decreases |ts|
  {
    if i > 0 {
      CompletedCountUpdate(ts[1..], i - 1, t);
      assert ts[i := t][1..] == ts[1..][i - 1 := t];
    } else {
      assert ts[i := t][1..] == ts[1..];
    }
  }

  /** The count reaches the number of tasks exactly when every task is completed. */
  lemma {:induction false} CompletedCountAll(ts: seq<Task>)
    ensures CompletedCount(ts) == |ts| <==> forall i :: 0 <= i < |ts| ==> ts[i].completed
    decreases |ts|
  {
    if ts != [] {
      CompletedCountAll(ts[1..]);
      if forall i :: 0 <= i < |ts| ==> ts[i].completed {
        assert forall i :: 0 <= i < |ts| - 1 ==> ts[1..][i].completed by {
          forall i | 0 <= i < |ts| - 1 ensures ts[1..][i].completed { assert ts[1..][i] == ts[i + 1]; }
        }
      }
      if CompletedCount(ts) == |ts| {
        forall i | 0 <= i < |ts| ensures ts[i].completed {
          if i > 0 { assert ts[i] == ts[1..][i - 1]; }
        }
      }
    }
  }

  /** The text `updateProgress` stores under `progress`: `{"completed":<count>}`. */
  function ProgressText(count: nat): string {
    Json.ObjectText([("completed", IntToString(count))])
  }

  // ---------------------------------------------------------------- toggle

  /** The element after `toggleTask`'s branch on its `completed` class. */
  function Flip(t: Task, time: string): (r: Task)
    ensures r.id == t.id && r.completed == !t.completed
  {
    if t.completed then Uncomplete(t) else Complete(t, time)
  }

  /** The tasks after toggling the one at `i`. */
  function ToggleTasks(ts: seq<Task>, i: nat, time: string): (r: seq<Task>)
    requires i < |ts|
    ensures |r| == |ts| && Ids(r) == Ids(ts)
    ensures r[i].completed == !ts[i].completed
    ensures forall j :: 0 <= j < |ts| && j != i ==> r[j] == ts[j]
  {
    ts[i := Flip(ts[i], time)]
  }

  /** The store after `toggleTask` writes the task's new flag under `task_<id>`. */
  function ToggleStore(st: Store, ts: seq<Task>, i: nat): (r: Store)
    requires i < |ts|
    ensures StoredTrue(r, ts[i].id) == !ts[i].completed
    ensures forall k :: k != TaskKey(ts[i].id) ==> Get(r, k) == Get(st, k)
  {
    st[TaskKey(ts[i].id) := BoolString(!ts[i].completed)]
  }

  /** Toggling twice gives back the original flag (the timestamp text is that of the second
      completion, if any), and every other task is as it was. */
  lemma ToggleTwice(ts: seq<Task>, i: nat, time1: string, time2: string)
    requires i < |ts|
    ensures var r := ToggleTasks(ToggleTasks(ts, i, time1), i, time2);
      && r[i].completed == ts[i].completed && r[i].id == ts[i].id
      && (!ts[i].completed && ts[i].stamp == "" ==> r[i] == ts[i])
      && forall j :: 0 <= j < |ts| && j != i ==> r[j] == ts[j]
  {
  }

  /** A toggle keeps the visible flags and the store in agreement, and keeps timestamps on
      exactly the completed tasks. */
  lemma ToggleKeepsAgreement(ts: seq<Task>, st: Store, i: nat, time: string)
    requires i < |ts| && DistinctIds(ts)
    ensures Agrees(ts, st) ==> Agrees(ToggleTasks(ts, i, time), ToggleStore(st, ts, i))
    ensures StampsMatch(ts) ==> StampsMatch(ToggleTasks(ts, i, time))
  {
    var r, st' := ToggleTasks(ts, i, time), ToggleStore(st, ts, i);
    forall j | 0 <= j < |ts| && j != i
      ensures StoredTrue(st', ts[j].id) == StoredTrue(st, ts[j].id)
    {
      StoredTrueAfterWrite(st, ts[i].id, !ts[i].completed, ts[j].id);
    }
  }

  /** `checkAllTasksCompleted` after a toggle finds every task completed exactly when the
      toggle completed the one task that was still open. */
  lemma ToggleCompletesAll(ts: seq<Task>, i: nat, time: string)
    requires i < |ts|
    ensures var r := ToggleTasks(ts, i, time);
      (!ts[i].completed && CompletedCount(r) == |r|)
      <==> (!ts[i].completed && forall j :: 0 <= j < |ts| && j != i ==> ts[j].completed)
  {
    var r := ToggleTasks(ts, i, time);
    CompletedCountAll(r);
  }

  /** The count after a toggle moves by exactly one in the direction of the new flag. */
  lemma ToggleCount(ts: seq<Task>, i: nat, time: string)
    requires i < |ts|
    ensures CompletedCount(ToggleTasks(ts, i, time))
         == if ts[i].completed then CompletedCount(ts) - 1 else CompletedCount(ts) + 1
  {
    CompletedCountUpdate(ts, i, Flip(ts[i], time));
  }

  // ---------------------------------------------------------------- restore on load

  /** The first loop of `loadChecklistState`: a task whose entry reads exactly "true" gets
      the `completed` class and a timestamp; every other task is left alone. */
  function RestoreFlags(ts: seq<Task>, st: Store, time: string): (r: seq<Task>)
    ensures |r| == |ts| && Ids(r) == Ids(ts)
    ensures forall i :: 0 <= i < |ts| ==> r[i].completed == (ts[i].completed || StoredTrue(st, ts[i].id))
    ensures forall i :: 0 <= i < |ts| && !StoredTrue(st, ts[i].id) ==> r[i] == ts[i]
  {
    seq(|ts|, i requires 0 <= i < |ts| => if StoredTrue(st, ts[i].id) then Complete(ts[i], time) else ts[i])
  }

  /** Reload: restoring the freshly declared tasks against a store that agreed with the
      page gives back every task's flag, with timestamps on exactly the completed ones. */
  lemma ReloadRestoresFlags(ts: seq<Task>, st: Store, time: string)
    requires Agrees(ts, st)
    ensures var r := RestoreFlags(Fresh(Ids(ts)), st, time);
      && Ids(r) == Ids(ts)
      && (forall i :: 0 <= i < |ts| ==> r[i].completed == ts[i].completed)
      && StampsMatch(r) && Agrees(r, st)
  {
  }

  // ---------------------------------------------------------------- saved order

  /** `tasks.find(t => t.dataset.task === id)`: the first task with that id. */
  function Find(ts: seq<Task>, id: string): (r: Option<Task>)
    ensures r.Some? ==> r.value in ts && r.value.id == id
    ensures r.None? ==> forall i :: 0 <= i < |ts| ==> ts[i].id != id
    decreases |ts|
  {
    if ts == [] then None else if ts[0].id == id then Some(ts[0]) else Find(ts[1..], id)
  }

  /** `find` gives the first task with the id: the one at `k` when no task before it has it. */
  lemma {:induction false} FindFirst(ts: seq<Task>, id: string, k: nat)
    requires k < |ts| && ts[k].id == id && forall j :: 0 <= j < k ==> ts[j].id != id
    ensures Find(ts, id) == Some(ts[k])
    decreases k
  {
    if k > 0 {
      assert ts[0].id != id;
      forall j | 0 <= j < k - 1 ensures ts[1..][j].id != id {
        assert ts[1..][j] == ts[j + 1];
      }
      FindFirst(ts[1..], id, k - 1);
    }
  }

  /** The children without the element `t`. */
  function Detach(cs: seq<Task>, t: Task): seq<Task>
    decreases |cs|
  {
    if cs == [] then [] else (if cs[0] == t then [] else [cs[0]]) + Detach(cs[1..], t)
  }

  /** `checklist.appendChild(t)` for an element already in the list: it moves to the end. */
  function AppendChild(cs: seq<Task>, t: Task): seq<Task> {
    Detach(cs, t) + [t]
  }

  /** The second loop of `loadChecklistState`: for each saved id in turn, the task of that id
      in the list as it was before the loop (`snapshot`) is moved to the end; ids without a
      task are skipped. */
  function ApplyOrder(cs: seq<Task>, snapshot: seq<Task>, order: seq<string>): seq<Task>
    decreases |order|
  {
    if order == [] then cs
    else
      var r := ApplyOrder(cs, snapshot, order[..|order| - 1]);
      match Find(snapshot, order[|order| - 1])
      case None => r
      case Some(t) => AppendChild(r, t)
  }

  /** The tasks whose id the saved order does not name, in their original relative order. */
  function Unnamed(cs: seq<Task>, order: seq<string>): seq<Task>
    decreases |cs|
  {
    if cs == [] then [] else (if cs[0].id in order then [] else [cs[0]]) + Unnamed(cs[1..], order)
  }

  function WithId(cs: seq<Task>, id: string): seq<Task>
    decreases |cs|
  {
    if cs == [] then [] else (if cs[0].id == id then [cs[0]] else []) + WithId(cs[1..], id)
  }

  /** The tasks named by `ids`, one id after the other. */
  function Select(cs: seq<Task>, ids: seq<string>): seq<Task>
    decreases |ids|
  {
    if ids == [] then [] else WithId(cs, ids[0]) + Select(cs, ids[1..])
  }

  function RemoveId(ids: seq<string>, x: string): (r: seq<string>)
    ensures forall y :: y in r <==> y in ids && y != x
    decreases |ids|
  {
    if ids == [] then [] else (if ids[0] == x then [] else [ids[0]]) + RemoveId(ids[1..], x)
  }

  /** The ids of `order`, each once, ordered by its last occurrence. */
  function DedupLast(order: seq<string>): (r: seq<string>)
    ensures forall y :: y in r <==> y in order
    decreases |order|
  {
    if order == [] then []
    else RemoveId(DedupLast(order[..|order| - 1]), order[|order| - 1]) + [order[|order| - 1]]
  }

  lemma {:induction false} DetachAppend(a: seq<Task>, b: seq<Task>, t: Task)
    ensures Detach(a + b, t) == Detach(a, t) + Detach(b, t)
    decreases |a|
  {
    if a != [] {
      DetachAppend(a[1..], b, t);
      assert (a + b)[1..] == a[1..] + b;
    } else {
      assert a + b == b;
    }
  }

  lemma {:induction false} SelectAppend(cs: seq<Task>, a: seq<string>, b: seq<string>)
    ensures Select(cs, a + b) == Select(cs, a) + Select(cs, b)
    decreases |a|
  {
    if a == [] {
      assert a + b == b;
    } else {
      calc {
        Select(cs, a + b);
        WithId(cs, (a + b)[0]) + Select(cs, (a + b)[1..]);
        { assert (a + b)[0] == a[0] && (a + b)[1..] == a[1..] + b; }
        WithId(cs, a[0]) + Select(cs, a[1..] + b);
        { SelectAppend(cs, a[1..], b); }
        WithId(cs, a[0]) + (Select(cs, a[1..]) + Select(cs, b));
        Select(cs, a) + Select(cs, b);
      }
    }
  }

  /** In a list where `t` is the only element with id `x`, removing the element `t` from the
      unnamed part is the same as naming `x` too. */
  lemma {:induction false} DetachUnnamed(cs: seq<Task>, order: seq<string>, t: Task)
    requires forall i :: 0 <= i < |cs| ==> (cs[i] == t <==> cs[i].id == t.id)
    ensures Detach(Unnamed(cs, order), t) == Unnamed(cs, order + [t.id])
    decreases |cs|
  {
    if cs != [] {
      DetachUnnamed(cs[1..], order, t);
      var head := if cs[0].id in order then [] else [cs[0]];
      DetachAppend(head, Unnamed(cs[1..], order), t);
    }
  }

  lemma {:induction false} UnnamedIgnoresAbsent(cs: seq<Task>, order: seq<string>, x: string)
    requires forall i :: 0 <= i < |cs| ==> cs[i].id != x
    ensures Unnamed(cs, order + [x]) == Unnamed(cs, order)
    decreases |cs|
  {
    if cs != [] {
      UnnamedIgnoresAbsent(cs[1..], order, x);
    }
  }

  lemma {:induction false} WithIdAbsent(cs: seq<Task>, x: string)
    requires forall i :: 0 <= i < |cs| ==> cs[i].id != x
    ensures WithId(cs, x) == []
    decreases |cs|
  {
    if cs != [] {
      WithIdAbsent(cs[1..], x);
    }
  }

  /** With unique ids, the task found for `x` is the only one with that id. */
  lemma {:induction false} WithIdUnique(cs: seq<Task>, t: Task)
    requires DistinctIds(cs) && t in cs
    ensures WithId(cs, t.id) == [t]
    decreases |cs|
  {
    if cs[0] == t {
      forall i | 0 <= i < |cs| - 1 ensures cs[1..][i].id != t.id { assert cs[1..][i] == cs[i + 1]; }
      WithIdAbsent(cs[1..], t.id);
    } else {
      WithIdUnique(cs[1..], t);
    }
  }

  lemma {:induction false} DetachWithId(cs: seq<Task>, y: string, t: Task)
    requires forall i :: 0 <= i < |cs| ==> (cs[i] == t <==> cs[i].id == t.id)
    ensures Detach(WithId(cs, y), t) == if y == t.id then [] else WithId(cs, y)
    decreases |cs|
  {
    if cs != [] {
      DetachWithId(cs[1..], y, t);
      var head := if cs[0].id == y then [cs[0]] else [];
      DetachAppend(head, WithId(cs[1..], y), t);
    }
  }

  lemma {:induction false} DetachSelect(cs: seq<Task>, ids: seq<string>, t: Task)
    requires forall i :: 0 <= i < |cs| ==> (cs[i] == t <==> cs[i].id == t.id)
    ensures Detach(Select(cs, ids), t) == Select(cs, RemoveId(ids, t.id))
    decreases |ids|
  {
    if ids != [] {
      DetachSelect(cs, ids[1..], t);
      DetachAppend(WithId(cs, ids[0]), Select(cs, ids[1..]), t);
      DetachWithId(cs, ids[0], t);
      var head := if ids[0] == t.id then [] else [ids[0]];
      SelectAppend(cs, head, RemoveId(ids[1..], t.id));
      if ids[0] != t.id {
        assert Select(cs, head) == WithId(cs, ids[0]) + Select(cs, []);
      }
    }
  }

  lemma {:induction false} SelectRemoveAbsent(cs: seq<Task>, ids: seq<string>, x: string)
    requires forall i :: 0 <= i < |cs| ==> cs[i].id != x
    ensures Select(cs, RemoveId(ids, x)) == Select(cs, ids)
    decreases |ids|
  {
    if ids != [] {
      SelectRemoveAbsent(cs, ids[1..], x);
      var head := if ids[0] == x then [] else [ids[0]];
      SelectAppend(cs, head, RemoveId(ids[1..], x));
      if ids[0] == x {
        WithIdAbsent(cs, x);
      } else {
        assert Select(cs, head) == WithId(cs, ids[0]) + Select(cs, []);
      }
    }
  }

  lemma UniqueFromDistinct(cs: seq<Task>, t: Task)
    requires DistinctIds(cs) && t in cs
    ensures forall i :: 0 <= i < |cs| ==> (cs[i] == t <==> cs[i].id == t.id)
  {
  }

  /** What the saved-order restore produces on a page with unique ids: first the tasks the
      order does not name, in their original relative order, then the named tasks in the
      order of each id's last occurrence; ids without a task are skipped. */
  lemma {:induction false} ApplyOrderShape(cs: seq<Task>, order: seq<string>)
    requires DistinctIds(cs)
    ensures ApplyOrder(cs, cs, order) == Unnamed(cs, order) + Select(cs, DedupLast(order))
    decreases |order|
  {
    if order == [] {
      assert Unnamed(cs, []) == cs by { UnnamedNone(cs); }
    } else {
      var prefix, x := order[..|order| - 1], order[|order| - 1];
      assert order == prefix + [x];
      var d := DedupLast(prefix);
      ApplyOrderShape(cs, prefix);
      assert Select(cs, DedupLast(order)) == Select(cs, RemoveId(d, x)) + WithId(cs, x) by {
        SelectAppend(cs, RemoveId(d, x), [x]);
        assert Select(cs, [x]) == WithId(cs, x) + Select(cs, []);
      }
      match Find(cs, x)
      case None => ApplyOrderAbsentStep(cs, prefix, x);
      case Some(t) => ApplyOrderPresentStep(cs, prefix, t);
    }
  }

  /** The restore step for an id no task carries: nothing moves. */
  lemma ApplyOrderAbsentStep(cs: seq<Task>, prefix: seq<string>, x: string)
    requires Find(cs, x).None?
    requires ApplyOrder(cs, cs, prefix) == Unnamed(cs, prefix) + Select(cs, DedupLast(prefix))
    ensures ApplyOrder(cs, cs, prefix + [x]) ==
      Unnamed(cs, prefix + [x]) + (Select(cs, RemoveId(DedupLast(prefix), x)) + WithId(cs, x))
  {
    var order := prefix + [x];
    assert order[..|order| - 1] == prefix && order[|order| - 1] == x;
    UnnamedIgnoresAbsent(cs, prefix, x);
    SelectRemoveAbsent(cs, DedupLast(prefix), x);
    WithIdAbsent(cs, x);
  }

  /** The restore step for the id of task `t`: `t` is taken out and appended. */
  lemma ApplyOrderPresentStep(cs: seq<Task>, prefix: seq<string>, t: Task)
    requires DistinctIds(cs) && Find(cs, t.id) == Some(t)
    requires ApplyOrder(cs, cs, prefix) == Unnamed(cs, prefix) + Select(cs, DedupLast(prefix))
    ensures ApplyOrder(cs, cs, prefix + [t.id]) ==
      Unnamed(cs, prefix + [t.id]) + (Select(cs, RemoveId(DedupLast(prefix), t.id)) + WithId(cs, t.id))
  {
    var order := prefix + [t.id];
    assert order[..|order| - 1] == prefix && order[|order| - 1] == t.id;
    var r, d := ApplyOrder(cs, cs, prefix), DedupLast(prefix);
    UniqueFromDistinct(cs, t);
    calc {
      ApplyOrder(cs, cs, order);
      Detach(r, t) + [t];
      { DetachAppend(Unnamed(cs, prefix), Select(cs, d), t); }
      Detach(Unnamed(cs, prefix), t) + Detach(Select(cs, d), t) + [t];
      { DetachUnnamed(cs, prefix, t); DetachSelect(cs, d, t); }
      Unnamed(cs, order) + Select(cs, RemoveId(d, t.id)) + [t];
      { WithIdUnique(cs, t); }
      Unnamed(cs, order) + (Select(cs, RemoveId(d, t.id)) + WithId(cs, t.id));
    }
  }

  lemma {:induction false} UnnamedNone(cs: seq<Task>)
    ensures Unnamed(cs, []) == cs
    decreases |cs|
  {
    if cs != [] {
      UnnamedNone(cs[1..]);
      assert [cs[0]] + cs[1..] == cs;
    }
  }

  lemma {:induction false} DetachMultiset(cs: seq<Task>, t: Task)
    ensures multiset(Detach(cs, t)) == multiset(cs)[t := 0]
    decreases |cs|
  {
    if cs != [] {
      DetachMultiset(cs[1..], t);
      assert cs == [cs[0]] + cs[1..];
    }
  }

  lemma {:induction false} OccursOnce(cs: seq<Task>, t: Task)
    requires DistinctIds(cs) && t in cs
    ensures multiset(cs)[t] == 1
    decreases |cs|
  {
    assert cs == [cs[0]] + cs[1..];
    if cs[0] == t {
      assert t !in cs[1..] by {
        forall i | 0 <= i < |cs| - 1 ensures cs[1..][i] != t { assert cs[1..][i] == cs[i + 1]; }
      }
    } else {
      OccursOnce(cs[1..], t);
    }
  }

  /** A rearrangement of tasks with unique ids has unique ids. */
  lemma DistinctIdsOfPermutation(a: seq<Task>, b: seq<Task>)
    requires DistinctIds(a) && multiset(a) == multiset(b)
    ensures DistinctIds(b)
  {
    forall i, j | 0 <= i < j < |b| ensures b[i].id != b[j].id {
      assert b[i] in multiset(a) && b[j] in multiset(a);
      var k :| 0 <= k < |a| && a[k] == b[i];
      var l :| 0 <= l < |a| && a[l] == b[j];
      OccursOnce(a, b[i]);
      assert b == b[..j] + b[j..];
      assert b[i] in b[..j] && b[j] in b[j..];
      assert multiset(b)[b[i]] == multiset(b[..j])[b[i]] + multiset(b[j..])[b[i]];
    }
  }

  /** The saved-order restore only rearranges the tasks: the result is a permutation. */
  lemma {:induction false} ApplyOrderPermutes(cs: seq<Task>, order: seq<string>)
    requires DistinctIds(cs)
    ensures multiset(ApplyOrder(cs, cs, order)) == multiset(cs)
    decreases |order|
  {
    if order != [] {
      var prefix := order[..|order| - 1];
      ApplyOrderPermutes(cs, prefix);
      var r := ApplyOrder(cs, cs, prefix);
      match Find(cs, order[|order| - 1])
      case None =>
      case Some(t) =>
        OccursOnce(cs, t);
        DetachMultiset(r, t);
        assert multiset(r)[t := 0] + multiset{t} == multiset(r);
    }
  }

  lemma {:induction false} DedupLastOfDistinct(ids: seq<string>)
    requires forall i, j :: 0 <= i < j < |ids| ==> ids[i] != ids[j]
    ensures DedupLast(ids) == ids
    decreases |ids|
  {
    if ids != [] {
      var prefix, x := ids[..|ids| - 1], ids[|ids| - 1];
      assert forall i, j :: 0 <= i < j < |prefix| ==> prefix[i] != prefix[j] by {
        forall i, j | 0 <= i < j < |prefix| ensures prefix[i] != prefix[j] {
          assert prefix[i] == ids[i] && prefix[j] == ids[j];
        }
      }
      assert x !in prefix by {
        forall i | 0 <= i < |prefix| ensures prefix[i] != x {
          assert prefix[i] == ids[i];
        }
      }
      calc {
        DedupLast(ids);
        RemoveId(DedupLast(prefix), x) + [x];
        { DedupLastOfDistinct(prefix); }
        RemoveId(prefix, x) + [x];
        { RemoveIdAbsent(prefix, x); }
        prefix + [x];
        ids;
      }
    }
  }

  lemma {:induction false} RemoveIdAbsent(ids: seq<string>, x: string)
    requires x !in ids
    ensures RemoveId(ids, x) == ids
    decreases |ids|
  {
    if ids != [] {
      RemoveIdAbsent(ids[1..], x);
      assert [ids[0]] + ids[1..] == ids;
    }
  }

  lemma SelectOne(cs: seq<Task>, t: Task)
    requires DistinctIds(cs) && t in cs
    ensures Select(cs, [t.id]) == [t]
  {
    WithIdUnique(cs, t);
    assert Select(cs, [t.id]) == WithId(cs, t.id) + Select(cs, []);
  }

  lemma {:induction false} SelectOwnIds(cs: seq<Task>, k: nat)
    requires DistinctIds(cs) && k <= |cs|
    ensures Select(cs, Ids(cs)[..k]) == cs[..k]
    decreases k
  {
    if k > 0 {
      var id, ids := cs[k - 1].id, Ids(cs);
      assert ids[..k] == ids[..k - 1] + [ids[k - 1]];
      SelectOne(cs, cs[k - 1]);
      calc {
        Select(cs, Ids(cs)[..k]);
        Select(cs, Ids(cs)[..k - 1] + [id]);
        { SelectAppend(cs, Ids(cs)[..k - 1], [id]); }
        Select(cs, Ids(cs)[..k - 1]) + Select(cs, [id]);
        { SelectOwnIds(cs, k - 1); }
        cs[..k - 1] + [cs[k - 1]];
        cs[..k];
      }
    }
  }


  lemma {:induction false} UnnamedAllNamed(cs: seq<Task>, order: seq<string>)
    requires forall i :: 0 <= i < |cs| ==> cs[i].id in order
    ensures Unnamed(cs, order) == []
    decreases |cs|
  {
    if cs != [] {
      UnnamedAllNamed(cs[1..], order);
    }
  }

  /** Saving the displayed order and restoring it on a page with the same tasks leaves the
      order as it was. */
  lemma SavedOrderRoundTrip(cs: seq<Task>)
    requires DistinctIds(cs)
    ensures ApplyOrder(cs, cs, Ids(cs)) == cs
  {
    var ids := Ids(cs);
    assert Select(cs, ids) == cs by {
      SelectOwnIds(cs, |cs|);
      assert ids[..|cs|] == ids && cs[..|cs|] == cs;
    }
    calc {
      ApplyOrder(cs, cs, ids);
      { ApplyOrderShape(cs, ids); }
      Unnamed(cs, ids) + Select(cs, DedupLast(ids));
      { UnnamedAllNamed(cs, ids); DedupLastOfDistinct(ids); }
      Select(cs, ids);
    }
  }

  // ---------------------------------------------------------------- reset

  /** The tasks after `resetChecklist`: no `completed` class, no timestamp. */
  function ResetTasks(ts: seq<Task>): (r: seq<Task>)
    ensures |r| == |ts| && Ids(r) == Ids(ts)
    ensures forall i :: 0 <= i < |ts| ==> r[i] == Uncomplete(ts[i])
  {
    seq(|ts|, i requires 0 <= i < |ts| => Uncomplete(ts[i]))
  }

  /** The store after `resetChecklist` writes "false" under every task's key. */
  function ResetStore(st: Store, ts: seq<Task>): Store
    decreases |ts|
  {
    if ts == [] then st
    else ResetStore(st, ts[..|ts| - 1])[TaskKey(ts[|ts| - 1].id) := "false"]
  }

  /** After the reset's writes every task's entry reads "false", and every key that is no
      task's key keeps its entry. */
  lemma {:induction false} ResetStoreWrites(st: Store, ts: seq<Task>)
    ensures forall i :: 0 <= i < |ts| ==> Get(ResetStore(st, ts), TaskKey(ts[i].id)) == Some("false")
    ensures forall k :: (forall i :: 0 <= i < |ts| ==> k != TaskKey(ts[i].id)) ==>
      Get(ResetStore(st, ts), k) == Get(st, k)
    decreases |ts|
  {
    if ts != [] {
      var prefix, last := ts[..|ts| - 1], ts[|ts| - 1];
      ResetStoreWrites(st, prefix);
      forall i | 0 <= i < |ts| ensures Get(ResetStore(st, ts), TaskKey(ts[i].id)) == Some("false") {
        if i < |ts| - 1 {
          assert ts[i] == prefix[i];
        }
      }
      forall k | forall i :: 0 <= i < |ts| ==> k != TaskKey(ts[i].id)
        ensures Get(ResetStore(st, ts), k) == Get(st, k)
      {
        assert k != TaskKey(last.id);
        forall i | 0 <= i < |prefix| ensures k != TaskKey(prefix[i].id) {
          assert prefix[i] == ts[i];
        }
      }
    }
  }

  /** After a reset every task is open, its entry reads "false", timestamps are gone, and the
      streak, date, order and sign-in entries are untouched. */
  lemma ResetClearsEverything(ts: seq<Task>, st: Store)
    ensures var (r, st') := (ResetTasks(ts), ResetStore(st, ts));
      && Agrees(r, st') && StampsMatch(r) && CompletedCount(r) == 0
      && forall k :: !IsTaskKey(k) ==> Get(st', k) == Get(st, k)
  {
    var r, st' := ResetTasks(ts), ResetStore(st, ts);
    ResetStoreWrites(st, ts);
    forall k | !IsTaskKey(k) ensures Get(st', k) == Get(st, k) {
      forall i | 0 <= i < |ts| ensures k != TaskKey(ts[i].id) { TaskKeyInjective(ts[i].id, ts[i].id); }
    }
    NoneCompleted(r);
  }

  lemma {:induction false} NoneCompleted(ts: seq<Task>)
    requires forall i :: 0 <= i < |ts| ==> !ts[i].completed
    ensures CompletedCount(ts) == 0
    decreases |ts|
  {
    if ts != [] {
      NoneCompleted(ts[1..]);
    }
  }
}
