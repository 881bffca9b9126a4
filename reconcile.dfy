/** The guards that reconcile the visible task flags with the store: the after-scroll check
    that makes the store follow the page (`preserveTaskStates`), the class-change monitor
    that makes the page follow the store (`addTaskStateMonitoring`), and the scroll
    protection window that snapshots the flags and reverts changes
    (`addNuclearTaskProtection`). */
module Reconcile {
  import opened Store
  import opened Checklist

  // ---------------------------------------------------------------- store follows page

  /** `preserveTaskStates`: for each task in turn, when its visible flag differs from what
      its entry reads back as, the flag is written as "true"/"false". */
  function PreserveStore(st: Store, ts: seq<Task>): Store
    decreases |ts|
  {
    if ts == [] then st
    else
      var s := PreserveStore(st, ts[..|ts| - 1]);
      var t := ts[|ts| - 1];
      if t.completed != StoredTrue(s, t.id) then s[TaskKey(t.id) := BoolString(t.completed)] else s
  }

  /** With unique ids the check leaves the store agreeing with the page, and every entry it
      changes is the key of a task whose flag and entry disagreed before. */
  lemma {:induction false} PreserveMakesAgree(st: Store, ts: seq<Task>)
    requires DistinctIds(ts)
    ensures Agrees(ts, PreserveStore(st, ts))
    ensures forall k :: Get(PreserveStore(st, ts), k) != Get(st, k) ==>
      exists i :: 0 <= i < |ts| && k == TaskKey(ts[i].id) && ts[i].completed != StoredTrue(st, ts[i].id)
    decreases |ts|
  {
    if ts != [] {
      var prefix, t := ts[..|ts| - 1], ts[|ts| - 1];
      assert DistinctIds(prefix);
      PreserveMakesAgree(st, prefix);
      var s := PreserveStore(st, prefix);
      assert StoredTrue(s, t.id) == StoredTrue(st, t.id) by {
        forall i | 0 <= i < |prefix| ensures TaskKey(t.id) != TaskKey(prefix[i].id) {
          assert prefix[i] == ts[i];
          TaskKeyInjective(t.id, prefix[i].id);
        }
        PreserveTouchesOnlyTaskKeys(st, prefix, TaskKey(t.id));
      }
      var r := PreserveStore(st, ts);
      forall j | 0 <= j < |ts| ensures StoredTrue(r, ts[j].id) <==> ts[j].completed {
        if j < |ts| - 1 {
          assert ts[j] == prefix[j];
          StoredTrueAfterWrite(s, t.id, t.completed, ts[j].id);
        } else {
          StoredTrueAfterWrite(s, t.id, t.completed, t.id);
        }
      }
      forall k | Get(r, k) != Get(st, k)
        ensures exists i :: 0 <= i < |ts| && k == TaskKey(ts[i].id) && ts[i].completed != StoredTrue(st, ts[i].id)
      {
        if Get(s, k) != Get(st, k) {
          var i :| 0 <= i < |prefix| && k == TaskKey(prefix[i].id) && prefix[i].completed != StoredTrue(st, prefix[i].id);
          assert ts[i] == prefix[i];
        } else {
          assert k == TaskKey(t.id) && ts[|ts| - 1] == t;
        }
      }
    }
  }

  /** The check writes no key other than the keys of the tasks it walks. */
  lemma {:induction false} PreserveTouchesOnlyTaskKeys(st: Store, ts: seq<Task>, k: string)
    requires forall i :: 0 <= i < |ts| ==> k != TaskKey(ts[i].id)
    ensures Get(PreserveStore(st, ts), k) == Get(st, k)
    decreases |ts|
  {
    if ts != [] {
      PreserveTouchesOnlyTaskKeys(st, ts[..|ts| - 1], k);
    }
  }

  /** When the page and the store already agree, the check writes nothing. */
  lemma {:induction false} PreserveWhenAgreeing(st: Store, ts: seq<Task>)
    requires Agrees(ts, st)
    ensures PreserveStore(st, ts) == st
    decreases |ts|
  {
    if ts != [] {
      var prefix := ts[..|ts| - 1];
      assert Agrees(prefix, st) by {
        forall j | 0 <= j < |prefix| ensures StoredTrue(st, prefix[j].id) <==> prefix[j].completed {
          assert prefix[j] == ts[j];
        }
      }
      PreserveWhenAgreeing(st, prefix);
    }
  }

  /** A second check right after the first writes nothing. */
  lemma PreserveIdempotent(st: Store, ts: seq<Task>)
    requires DistinctIds(ts)
    ensures PreserveStore(PreserveStore(st, ts), ts) == PreserveStore(st, ts)
  {
    PreserveMakesAgree(st, ts);
    PreserveWhenAgreeing(PreserveStore(st, ts), ts);
  }

  // ---------------------------------------------------------------- page follows store

  /** The class-change monitor's reaction to a change on the task at `i`: when its visible
      flag differs from what its entry reads back as, the class is set to the stored value.
      The store is never written, and the timestamp line is left as it is. */
  function MonitorReact(ts: seq<Task>, st: Store, i: nat): (r: seq<Task>)
    requires i < |ts|
    ensures |r| == |ts| && Ids(r) == Ids(ts)
    ensures r[i].completed == StoredTrue(st, ts[i].id) && r[i].stamp == ts[i].stamp
    ensures forall j :: 0 <= j < |ts| && j != i ==> r[j] == ts[j]
  {
    var stored := StoredTrue(st, ts[i].id);
    if ts[i].completed != stored then ts[i := ts[i].(completed := stored)] else ts
  }

  /** The monitor restores a flag without its timestamp: a task can end up completed with
      no timestamp line, so "timestamp exactly on completed tasks" does not survive it. */
  lemma MonitorLeavesCompletedWithoutStamp()
    ensures var ts := [Task("a", false, "")];
      && StampsMatch(ts)
      && !StampsMatch(MonitorReact(ts, map[TaskKey("a") := "true"], 0))
  {
    var ts := [Task("a", false, "")];
    var r := MonitorReact(ts, map[TaskKey("a") := "true"], 0);
    assert r[0].completed && r[0].stamp == "";
  }

  // ---------------------------------------------------------------- protection window

  /** The snapshot taken on the first scroll of a window: every task's id is set to its
      visible flag, over whatever the map held from earlier windows (it is never cleared). */
  function TakeSnapshot(snap: map<string, bool>, ts: seq<Task>): map<string, bool>
    decreases |ts|
  {
    if ts == [] then snap
    else TakeSnapshot(snap, ts[..|ts| - 1])[ts[|ts| - 1].id := ts[|ts| - 1].completed]
  }

  /** The snapshot holds the earlier keys and every task's id, and an earlier entry for an
      id not on the page keeps its value. */
  lemma {:induction false} SnapshotKeys(snap: map<string, bool>, ts: seq<Task>)
    ensures TakeSnapshot(snap, ts).Keys == snap.Keys + set id | id in Ids(ts)
    ensures forall id :: id in snap && id !in Ids(ts) ==> TakeSnapshot(snap, ts)[id] == snap[id]
    decreases |ts|
  {
    if ts != [] {
      var prefix := ts[..|ts| - 1];
      SnapshotKeys(snap, prefix);
      assert Ids(ts) == Ids(prefix) + [ts[|ts| - 1].id];
    }
  }

  /** One more task in the snapshot loop. */
  lemma SnapshotStep(snap: map<string, bool>, ts: seq<Task>, i: nat)
    requires i < |ts|
    ensures TakeSnapshot(snap, ts[..i + 1]) == TakeSnapshot(snap, ts[..i])[ts[i].id := ts[i].completed]
  {
    var prefix := ts[..i + 1];
    assert prefix[..|prefix| - 1] == ts[..i] && prefix[|prefix| - 1] == ts[i];
  }

  /** With unique ids the snapshot records each task's flag. */
  lemma {:induction false} SnapshotRecordsFlags(snap: map<string, bool>, ts: seq<Task>)
    requires DistinctIds(ts)
    ensures forall i :: 0 <= i < |ts| ==>
      ts[i].id in TakeSnapshot(snap, ts) && TakeSnapshot(snap, ts)[ts[i].id] == ts[i].completed
    decreases |ts|
  {
    SnapshotKeys(snap, ts);
    if ts != [] {
      var prefix := ts[..|ts| - 1];
      assert DistinctIds(prefix);
      SnapshotRecordsFlags(snap, prefix);
      forall i | 0 <= i < |ts| - 1
        ensures ts[i].id in TakeSnapshot(snap, ts) && TakeSnapshot(snap, ts)[ts[i].id] == ts[i].completed
      {
        assert ts[i] == prefix[i];
      }
    }
  }

  /** One task put back to its snapshot value, if it has one and differs from it. */
  function Revert(t: Task, snap: map<string, bool>): (r: Task)
    ensures r.id == t.id && r.stamp == t.stamp
    ensures t.id in snap ==> r.completed == snap[t.id]
    ensures t.id !in snap ==> r == t
  {
    if t.id in snap && snap[t.id] != t.completed then t.(completed := snap[t.id]) else t
  }

  /** The window's observer reacting to a change on the task at `i` while the window is open. */
  function WindowReact(ts: seq<Task>, snap: map<string, bool>, i: nat): (r: seq<Task>)
    requires i < |ts|
    ensures |r| == |ts| && Ids(r) == Ids(ts)
    ensures ts[i].id in snap ==> r[i].completed == snap[ts[i].id]
    ensures forall j :: 0 <= j < |ts| && (j != i || ts[i].id !in snap) ==> r[j] == ts[j]
  {
    ts[i := Revert(ts[i], snap)]
  }

  /** The window's timer: every task with a snapshot entry is put back to it; the others
      are untouched. */
  function CloseWindow(ts: seq<Task>, snap: map<string, bool>): (r: seq<Task>)
    ensures |r| == |ts| && Ids(r) == Ids(ts)
    ensures forall j :: 0 <= j < |ts| ==> r[j] == Revert(ts[j], snap)
  {
    seq(|ts|, j requires 0 <= j < |ts| => Revert(ts[j], snap))
  }

  /** Whatever happened to the flags while the window was open, closing it gives every task
      back the flag it showed when the window opened. */
  lemma WindowRestoresOpeningFlags(earlier: map<string, bool>, opening: seq<Task>, ts: seq<Task>)
    requires DistinctIds(opening) && Ids(ts) == Ids(opening)
    ensures forall j :: 0 <= j < |ts| ==>
      CloseWindow(ts, TakeSnapshot(earlier, opening))[j].completed == opening[j].completed
  {
    SnapshotRecordsFlags(earlier, opening);
    forall j | 0 <= j < |ts| ensures ts[j].id == opening[j].id {
      assert Ids(ts)[j] == Ids(opening)[j];
    }
  }

  // ---------------------------------------------------------------- both observers

  /** One class change on the task at `i` as both observers see it, in the order they were
      created: the window's observer (only while the window is open), then the monitor. */
  function ObserveChange(ts: seq<Task>, st: Store, snap: map<string, bool>, windowOpen: bool, i: nat): (r: seq<Task>)
    requires i < |ts|
    ensures |r| == |ts| && Ids(r) == Ids(ts)
    ensures r[i].completed == StoredTrue(st, ts[i].id)
    ensures forall j :: 0 <= j < |ts| && j != i ==> r[j] == ts[j]
  {
    MonitorReact(if windowOpen then WindowReact(ts, snap, i) else ts, st, i)
  }

  /** While a window is open and a task's snapshot value differs from its stored value, the
      two observers undo each other: the window's observer changes the class to the
      snapshot, the monitor changes it back to the stored value, and the page ends where it
      started. Each of those two changes is itself a class change both observers are told
      about, so the reactions never come to rest. */
  lemma ObserversUndoEachOther(ts: seq<Task>, st: Store, snap: map<string, bool>, i: nat)
    requires i < |ts| && ts[i].id in snap
    requires snap[ts[i].id] != StoredTrue(st, ts[i].id) && ts[i].completed == StoredTrue(st, ts[i].id)
    ensures WindowReact(ts, snap, i)[i].completed != ts[i].completed
    ensures MonitorReact(WindowReact(ts, snap, i), st, i)[i].completed != WindowReact(ts, snap, i)[i].completed
    ensures ObserveChange(ts, st, snap, true, i) == ts
  {
    var r := ObserveChange(ts, st, snap, true, i);
    assert r[i] == ts[i];
  }
}
