/** The page as a whole: the checklist's elements, the store and the script's globals, and
    the events that act on them. Every handler is a method of `Page`; what each one leaves
    behind is stated through the functions of the other modules. Clock readings, the login
    service's answer, the dragged-over position and the touch positions come in as
    parameters; timeouts and observer callbacks are events the environment delivers. */
module App {
  import opened Wrappers
  import opened Store
  import opened JsNumbers
  import Json
  import opened Checklist
  import opened Streak
  import opened Reconcile
  import opened Session
  import opened Keyboard
  import opened Touch

  /** One clock reading: the day number, the `toLocaleTimeString` text the timestamp line
      shows, and the `toISOString` text of the user snapshot. */
  datatype Clock = Clock(day: int, time: string, iso: string)

  // ---------------------------------------------------------------- progress

  /** `updateProgress`'s writes: the completed count under `progress`, then, for a signed-in
      user, the user snapshot. */
  function ProgressStore(st: Store, ts: seq<Task>, user: Option<Profile>, iso: string): (r: Store)
    ensures Get(r, ProgressKey) == Some(ProgressText(CompletedCount(ts)))
    ensures user.Some? ==> Get(r, ProgressKeyOf(user.value)) == Some(SnapshotText(ts, GetOr(st, StreakKey, "0"), iso))
  {
    var s := st[ProgressKey := ProgressText(CompletedCount(ts))];
    if user.Some? then s[ProgressKeyOf(user.value) := SnapshotText(ts, GetOr(s, StreakKey, "0"), iso)] else s
  }

  /** The progress writes touch no key but those two. */
  lemma ProgressStoreFrame(st: Store, ts: seq<Task>, user: Option<Profile>, iso: string)
    ensures forall k :: k != ProgressKey && (user.None? || k != ProgressKeyOf(user.value)) ==>
      Get(ProgressStore(st, ts, user, iso), k) == Get(st, k)
  {
  }

  /** `checkAllTasksCompleted`'s test: as many completed tasks as tasks, and at least one. */
  predicate AllCompleted(ts: seq<Task>) {
    CompletedCount(ts) == |ts| && |ts| > 0
  }

  /** The popup condition holds exactly when the page is non-empty and every task on it is
      completed. */
  lemma AllCompletedMeans(ts: seq<Task>)
    ensures AllCompleted(ts) <==> |ts| > 0 && forall j :: 0 <= j < |ts| ==> ts[j].completed
  {
    CompletedCountAll(ts);
  }

  /** The progress writes never touch a task key, so the page and the store agree after them
      exactly when they agreed before. */
  lemma ProgressKeepsAgreement(st: Store, ts: seq<Task>, user: Option<Profile>, iso: string, shown: seq<Task>)
    ensures Agrees(shown, ProgressStore(st, ts, user, iso)) <==> Agrees(shown, st)
  {
    var name := if user.Some? && user.value.username.Some? then user.value.username.value else "undefined";
    FixedKeysAreNotTaskKeys(name);
    ProgressStoreFrame(st, ts, user, iso);
    AgreesIgnoresOtherKeys(shown, st, ProgressStore(st, ts, user, iso));
  }

  // ---------------------------------------------------------------- page load

  /** `loadChecklistState`: the flags restored, then, when a saved order is present, the tasks
      moved into it. None when the saved order is not an array of strings: `JSON.parse` or
      `forEach` throws and the rest of the load handler does not run. */
  function LoadChecklist(ts: seq<Task>, st: Store, time: string): Option<seq<Task>> {
    var cs := RestoreFlags(ts, st, time);
    if !Truthy(st, OrderKey) then Some(cs)
    else
      match Json.DecodeStrings(st[OrderKey])
      case None => None
      case Some(order) => Some(ApplyOrder(cs, cs, order))
  }

  /** The first `forEach` of `loadChecklistState`: each task whose entry reads back as true
      gets the class and a timestamp line. */
  method RestoreEach(ts0: seq<Task>, st: Store, time: string) returns (ts: seq<Task>)
    ensures ts == RestoreFlags(ts0, st, time)
  {
    ts := ts0;
    var i := 0;
    while i < |ts|
      invariant 0 <= i <= |ts| == |ts0|
      invariant forall j :: 0 <= j < i ==> ts[j] == RestoreFlags(ts0, st, time)[j]
      invariant forall j :: i <= j < |ts| ==> ts[j] == ts0[j]
    {
      if StoredTrue(st, ts[i].id) {
        ts := ts[i := Complete(ts[i], time)];
      }
      i := i + 1;
    }
  }

  /** The second loop of `loadChecklistState`: the saved ids in order, the task of each
      (looked up in the list as it was before the loop) moved to the end. */
  method ReorderEach(children: seq<Task>, order: seq<string>) returns (ts: seq<Task>)
    ensures ts == ApplyOrder(children, children, order)
  {
    ts := children;
    var k := 0;
    while k < |order|
      invariant 0 <= k <= |order|
      invariant ts == ApplyOrder(children, children, order[..k])
    {
      ApplyOrderStep(children, order, k);
      var found := Find(children, order[k]);
      if found.Some? {
        ts := AppendChild(ts, found.value);
      }
      k := k + 1;
    }
    assert order[..|order|] == order;
  }

  /** One more saved id in the reorder loop. */
  lemma ApplyOrderStep(cs: seq<Task>, order: seq<string>, k: nat)
    requires k < |order|
    ensures ApplyOrder(cs, cs, order[..k + 1]) ==
      match Find(cs, order[k])
      case None => ApplyOrder(cs, cs, order[..k])
      case Some(t) => AppendChild(ApplyOrder(cs, cs, order[..k]), t)
  {
    var p := order[..k + 1];
    assert p[..|p| - 1] == order[..k] && p[|p| - 1] == order[k];
  }

  lemma DistinctIdsOfIds(a: seq<Task>, b: seq<Task>)
    requires Ids(a) == Ids(b) && DistinctIds(a)
    ensures DistinctIds(b)
  {
    forall i, j | 0 <= i < j < |b| ensures b[i].id != b[j].id {
      assert Ids(a)[i] == b[i].id && Ids(a)[j] == b[j].id;
    }
  }

  /** Loading keeps the set of tasks: with unique ids, the loaded list holds exactly the
      tasks with their flags restored, in some order. */
  lemma LoadKeepsTasks(ts: seq<Task>, st: Store, time: string)
    requires DistinctIds(ts)
    ensures var r := LoadChecklist(ts, st, time);
      r.Some? ==> multiset(r.value) == multiset(RestoreFlags(ts, st, time))
  {
    var cs := RestoreFlags(ts, st, time);
    DistinctIdsOfIds(ts, cs);
    if Truthy(st, OrderKey) {
      match Json.DecodeStrings(st[OrderKey])
      case None =>
      case Some(order) => ApplyOrderPermutes(cs, order);
    }
  }

  /** The tasks of `cs` picked by `ids`, one per id, when each id names a task. */
  lemma {:induction false} SelectNamed(cs: seq<Task>, ids: seq<string>)
    requires DistinctIds(cs) && forall k :: 0 <= k < |ids| ==> ids[k] in Ids(cs)
    ensures var r := Select(cs, ids);
      |r| == |ids| && forall k :: 0 <= k < |ids| ==> r[k].id == ids[k] && r[k] in cs
    decreases |ids|
  {
    if ids != [] {
      assert ids[0] in Ids(cs);
      var j :| 0 <= j < |cs| && Ids(cs)[j] == ids[0];
      var rest := Select(cs, ids[1..]);
      SelectNamed(cs, ids[1..]);
      calc {
        Select(cs, ids);
        WithId(cs, ids[0]) + rest;
        { WithIdUnique(cs, cs[j]); }
        [cs[j]] + rest;
      }
      forall k | 0 <= k < |ids| ensures ([cs[j]] + rest)[k].id == ids[k] && ([cs[j]] + rest)[k] in cs {
        if k > 0 {
          assert ([cs[j]] + rest)[k] == rest[k - 1];
        }
      }
    }
  }

  /** With unique ids, an order naming exactly the tasks' ids puts the tasks in that order. */
  lemma ApplyExactOrder(cs: seq<Task>, order: seq<string>)
    requires DistinctIds(cs) && forall i, j :: 0 <= i < j < |order| ==> order[i] != order[j]
    requires forall i :: 0 <= i < |cs| ==> cs[i].id in order
    requires forall k :: 0 <= k < |order| ==> order[k] in Ids(cs)
    ensures var r := ApplyOrder(cs, cs, order);
      |r| == |order| && forall k :: 0 <= k < |order| ==> r[k].id == order[k] && r[k] in cs
  {
    assert ApplyOrder(cs, cs, order) == Select(cs, order) by {
      ApplyOrderShape(cs, order);
      DedupLastOfDistinct(order);
      UnnamedAllNamed(cs, order);
      assert [] + Select(cs, order) == Select(cs, order);
    }
    SelectNamed(cs, order);
  }

  /** The static page with the stored flags restored keeps its declared, unique ids. */
  lemma RestoredDeclared(declared: seq<string>, st: Store, time: string)
    requires forall i, j :: 0 <= i < j < |declared| ==> declared[i] != declared[j]
    ensures var cs := RestoreFlags(Fresh(declared), st, time);
      && Ids(cs) == declared && DistinctIds(cs)
      && forall j :: 0 <= j < |cs| ==> cs[j].completed == StoredTrue(st, declared[j])
  {
    var cs := RestoreFlags(Fresh(declared), st, time);
    assert Ids(Fresh(declared)) == declared;
    assert DistinctIds(Fresh(declared));
    DistinctIdsOfIds(Fresh(declared), cs);
  }

  /** Reload reproduces the page: after the order was saved and the flags agree with the
      store, loading the static page (the same tasks in their declared order, none
      completed) gives back the same tasks in the saved order with the same flags. */
  lemma ReloadReproducesPage(ts: seq<Task>, st: Store, declared: seq<string>, time: string)
    requires DistinctIds(ts) && Agrees(ts, st)
    requires OrderKey in st && st[OrderKey] == Json.EncodeStrings(Ids(ts))
    requires forall i, j :: 0 <= i < j < |declared| ==> declared[i] != declared[j]
    requires multiset(declared) == multiset(Ids(ts))
    ensures var r := LoadChecklist(Fresh(declared), st, time);
      && r.Some? && Ids(r.value) == Ids(ts)
      && forall i :: 0 <= i < |ts| ==> r.value[i].completed == ts[i].completed
  {
    var cs := RestoreFlags(Fresh(declared), st, time);
    RestoredDeclared(declared, st, time);
    var order := Ids(ts);
    LoadAppliesSavedOrder(Fresh(declared), st, time, order);
    SameIdsBothWays(cs, declared, order);
    ApplyExactOrder(cs, order);
    OrderedFlagsAgree(cs, ApplyOrder(cs, cs, order), ts, st);
  }

  /** With a saved order in canonical form, the load restores the flags and then applies it. */
  lemma LoadAppliesSavedOrder(ts: seq<Task>, st: Store, time: string, order: seq<string>)
    requires OrderKey in st && st[OrderKey] == Json.EncodeStrings(order)
    ensures var cs := RestoreFlags(ts, st, time);
      LoadChecklist(ts, st, time) == Some(ApplyOrder(cs, cs, order))
  {
    Json.DecodeEncodeStrings(order);
    assert st[OrderKey] != "" by { assert st[OrderKey][0] == '['; }
  }

  /** Ids that are a rearrangement of each other name the same tasks. */
  lemma SameIdsBothWays(cs: seq<Task>, declared: seq<string>, order: seq<string>)
    requires Ids(cs) == declared && multiset(declared) == multiset(order)
    ensures forall i :: 0 <= i < |cs| ==> cs[i].id in order
    ensures forall k :: 0 <= k < |order| ==> order[k] in Ids(cs)
  {
    forall i | 0 <= i < |cs| ensures cs[i].id in order {
      assert cs[i].id == declared[i] && declared[i] in multiset(declared);
    }
    forall k | 0 <= k < |order| ensures order[k] in Ids(cs) {
      assert order[k] in multiset(order);
    }
  }

  /** Tasks taken from a restored page, in the order of a page that agrees with the store,
      carry that page's flags. */
  lemma OrderedFlagsAgree(cs: seq<Task>, r: seq<Task>, ts: seq<Task>, st: Store)
    requires Agrees(ts, st)
    requires forall j :: 0 <= j < |cs| ==> cs[j].completed == StoredTrue(st, cs[j].id)
    requires |r| == |ts| && forall k :: 0 <= k < |ts| ==> r[k].id == ts[k].id && r[k] in cs
    ensures Ids(r) == Ids(ts)
    ensures forall i :: 0 <= i < |ts| ==> r[i].completed == ts[i].completed
  {
    forall i | 0 <= i < |ts| ensures r[i].completed == ts[i].completed {
      var j :| 0 <= j < |cs| && cs[j] == r[i];
    }
  }

  // ---------------------------------------------------------------- toggle and reset, whole steps

  /** The store and the streak after an unblocked `toggleTask` of task `i`: the flag write,
      `updateStreak` when the task becomes completed, and `updateProgress`'s writes. (The
      second flag write in the source stores the same text again; see
      `ForceSaveChangesNothing`.) */
  function ToggleWrites(st: Store, ts: seq<Task>, i: nat, current: Num, clock: Clock, user: Option<Profile>): (Store, Num)
    requires i < |ts|
  {
    var st1 := ToggleStore(st, ts, i);
    var r := if ts[i].completed then (st1, current) else OnComplete(st1, current, clock.day);
    (ProgressStore(r.0, ToggleTasks(ts, i, clock.time), user, clock.iso), r.1)
  }

  /** A whole toggle keeps the page and the store in agreement: the flag write, the streak
      update on completion and the progress writes together leave every task's entry
      reading back as its flag. */
  lemma ToggleStepKeepsAgreement(ts: seq<Task>, st: Store, i: nat, current: Num, clock: Clock, user: Option<Profile>)
    requires i < |ts| && DistinctIds(ts) && Agrees(ts, st)
    ensures Agrees(ToggleTasks(ts, i, clock.time), ToggleWrites(st, ts, i, current, clock, user).0)
  {
    var ts' := ToggleTasks(ts, i, clock.time);
    var st1 := ToggleStore(st, ts, i);
    ToggleKeepsAgreement(ts, st, i, clock.time);
    FixedKeysAreNotTaskKeys("");
    var st2 := if ts[i].completed then st1 else OnComplete(st1, current, clock.day).0;
    AgreesIgnoresOtherKeys(ts', st1, st2);
    ProgressKeepsAgreement(st2, ts', user, clock.iso, ts');
  }

  /** The boot's writes (progress, then the streak check) leave the saved login alone. */
  lemma BootKeepsLogin(st: Store, ts: seq<Task>, current: Num, clock: Clock)
    ensures var st' := OnLoad(ProgressStore(st, ts, None, clock.iso), current, clock.day).0;
      Get(st', UsernameKey) == Get(st, UsernameKey) && Get(st', UserDataKey) == Get(st, UserDataKey)
  {
    ProgressStoreFrame(st, ts, None, clock.iso);
  }

  /** The progress writes leave the streak and its date alone. */
  lemma ProgressKeepsStreak(st: Store, ts: seq<Task>, user: Option<Profile>, iso: string)
    ensures var st' := ProgressStore(st, ts, user, iso);
      Get(st', StreakKey) == Get(st, StreakKey) && Get(st', LastDateKey) == Get(st, LastDateKey)
  {
    ProgressStoreFrame(st, ts, user, iso);
    if user.Some? {
      assert ProgressKeyOf(user.value)[0] == 'i';
    }
  }

  /** The reset's flag writes leave the streak and its date alone. */
  lemma ResetKeepsStreak(st: Store, ts: seq<Task>)
    ensures Get(ResetStore(st, ts), StreakKey) == Get(st, StreakKey)
    ensures Get(ResetStore(st, ts), LastDateKey) == Get(st, LastDateKey)
  {
    FixedKeysAreNotTaskKeys("");
    ResetStoreWrites(st, ts);
    forall i | 0 <= i < |ts| ensures StreakKey != TaskKey(ts[i].id) && LastDateKey != TaskKey(ts[i].id) {
      TaskKeyInjective(ts[i].id, ts[i].id);
    }
  }

  /** A whole reset leaves every task open with no timestamp, the page and store in
      agreement, and the streak and its date as they were. */
  lemma ResetStepKeepsStreak(ts: seq<Task>, st: Store, user: Option<Profile>, iso: string)
    ensures var ts' := ResetTasks(ts);
      var st' := ProgressStore(ResetStore(st, ts), ts', user, iso);
      && Agrees(ts', st') && StampsMatch(ts') && CompletedCount(ts') == 0
      && Get(st', StreakKey) == Get(st, StreakKey) && Get(st', LastDateKey) == Get(st, LastDateKey)
  {
    var ts' := ResetTasks(ts);
    ResetClearsEverything(ts, st);
    ProgressKeepsAgreement(ResetStore(st, ts), ts', user, iso, ts');
    ResetKeepsStreak(st, ts);
    ProgressKeepsStreak(ResetStore(st, ts), ts', user, iso);
  }

  /** The toggle's second write of the task's flag ("force save") changes nothing: the key
      already holds that text, and the streak update in between writes no task key. */
  lemma ForceSaveChangesNothing(st1: Store, ts: seq<Task>, i: nat, current: Num, today: int)
    requires i < |ts| && Get(st1, TaskKey(ts[i].id)) == Some(BoolString(!ts[i].completed))
    ensures var st2 := if ts[i].completed then st1 else OnComplete(st1, current, today).0;
      st2[TaskKey(ts[i].id) := BoolString(!ts[i].completed)] == st2
  {
    FixedKeysAreNotTaskKeys("");
    TaskKeyInjective(ts[i].id, ts[i].id);
  }

  /** One more round of the reset loop. */
  lemma ResetStep(st: Store, ts: seq<Task>, i: nat)
    requires i < |ts|
    ensures ResetStore(st, ts[..i + 1]) == ResetStore(st, ts[..i])[TaskKey(ts[i].id) := "false"]
  {
    var prefix := ts[..i + 1];
    assert prefix[..|prefix| - 1] == ts[..i] && prefix[|prefix| - 1] == ts[i];
  }

  lemma RecordStep(q: seq<string>, observing: bool, ts: seq<Task>, i: nat)
    requires i < |ts|
    ensures Recorded(q, observing, Ids(ts)[..i + 1]) == Recorded(Recorded(q, observing, Ids(ts)[..i]), observing, [ts[i].id])
  {
    var ids := Ids(ts);
    assert ids[..i + 1] == ids[..i] + [ids[i]];
    if observing {
      assert q + ids[..i + 1] == (q + ids[..i]) + [ts[i].id];
    }
  }


  /** The `forEach` of `resetChecklist`: each task cleared, its key set to "false", and one
      class change recorded for it, in page order. */
  method ClearTasks(ts0: seq<Task>, st0: Store, q0: seq<string>, observing: bool)
    returns (ts: seq<Task>, st: Store, q: seq<string>)
    ensures ts == ResetTasks(ts0) && st == ResetStore(st0, ts0) && q == Recorded(q0, observing, Ids(ts0))
  {
    ts, st, q := ts0, st0, q0;
    var i := 0;
    while i < |ts|
      invariant 0 <= i <= |ts| == |ts0|
      invariant forall j :: 0 <= j < i ==> ts[j] == Uncomplete(ts0[j])
      invariant forall j :: i <= j < |ts| ==> ts[j] == ts0[j]
      invariant st == ResetStore(st0, ts0[..i])
      invariant q == Recorded(q0, observing, Ids(ts0)[..i])
    {
      ResetStep(st0, ts0, i);
      RecordStep(q0, observing, ts0, i);
      st := st[TaskKey(ts[i].id) := "false"];
      q := Recorded(q, observing, [ts[i].id]);
      ts := ts[i := Uncomplete(ts[i])];
      i := i + 1;
    }
    assert ts == ResetTasks(ts0);
    assert st == ResetStore(st0, ts0) by { assert ts0[..|ts|] == ts0; }
    assert q == Recorded(q0, observing, Ids(ts0)) by { assert Ids(ts0)[..|ts|] == Ids(ts0); }
  }

  // ---------------------------------------------------------------- drag and drop

  /** `insertBefore(t, b)` on the list without `t`: `t` placed right before `b`. */
  function Insert(cs: seq<Task>, t: Task, b: Task): (r: seq<Task>)
    ensures multiset(r) == multiset(cs) + multiset{t}
    decreases |cs|
  {
    if cs == [] then [t]
    else if cs[0] == b then [t] + cs
    else
      assert cs == [cs[0]] + cs[1..];
      [cs[0]] + Insert(cs[1..], t, b)
  }

  /** Where `Insert` puts `t`: right before the first `b`, when there is one. */
  lemma {:induction false} InsertPlacesBefore(cs: seq<Task>, t: Task, b: Task)
    requires b in cs
    ensures exists k :: 0 <= k < |Insert(cs, t, b)| - 1 && Insert(cs, t, b)[k] == t && Insert(cs, t, b)[k + 1] == b
    decreases |cs|
  {
    if cs[0] != b {
      InsertPlacesBefore(cs[1..], t, b);
      var k :| 0 <= k < |Insert(cs[1..], t, b)| - 1 && Insert(cs[1..], t, b)[k] == t && Insert(cs[1..], t, b)[k + 1] == b;
      assert Insert(cs, t, b)[k + 1] == t && Insert(cs, t, b)[k + 2] == b;
    } else {
      assert Insert(cs, t, b)[0] == t && Insert(cs, t, b)[1] == b;
    }
  }

  /** `checklist.insertBefore(dragging, after)`: the dragged task taken out and put right
      before the task the pointer is above. */
  function InsertBefore(cs: seq<Task>, t: Task, b: Task): seq<Task> {
    Insert(Detach(cs, t), t, b)
  }

  /** A drag step keeps the tasks: the list after it holds the same tasks, and the dragged
      one sits right before the one it was dropped on (or at the end). */
  lemma DragKeepsTasks(cs: seq<Task>, i: nat, after: Option<nat>)
    requires DistinctIds(cs) && i < |cs|
    requires after.Some? ==> after.value < |cs| && after.value != i
    ensures var r := if after.None? then AppendChild(cs, cs[i]) else InsertBefore(cs, cs[i], cs[after.value]);
      && multiset(r) == multiset(cs)
      && (after.None? ==> r[|r| - 1] == cs[i])
      && (after.Some? ==> exists k :: 0 <= k < |r| - 1 && r[k] == cs[i] && r[k + 1] == cs[after.value])
  {
    OccursOnce(cs, cs[i]);
    DetachMultiset(cs, cs[i]);
    if after.Some? {
      var b := cs[after.value];
      assert b != cs[i];
      assert b in multiset(Detach(cs, cs[i]));
      InsertPlacesBefore(Detach(cs, cs[i]), cs[i], b);
    }
  }

  // ---------------------------------------------------------------- observers

  /** The first task whose id is `id`: the element a class-change record targets. */
  function IndexOf(ts: seq<Task>, id: string): (r: Option<nat>)
    ensures r.Some? ==> r.value < |ts| && ts[r.value].id == id && forall j :: 0 <= j < r.value ==> ts[j].id != id
    ensures r.None? ==> forall j :: 0 <= j < |ts| ==> ts[j].id != id
    decreases |ts|
  {
    if ts == [] then None
    else if ts[0].id == id then Some(0)
    else match IndexOf(ts[1..], id)
      case None => None
      case Some(k) => Some(k + 1)
  }

  /** The class-change records the two observers' reactions to one record on task `i` add:
      one per class change either of them makes. */
  function ReactionRecords(ts: seq<Task>, st: Store, snap: map<string, bool>, windowOpen: bool, i: nat): seq<string>
    requires i < |ts|
  {
    var a := if windowOpen then WindowReact(ts, snap, i) else ts;
    (if a[i] != ts[i] then [ts[i].id] else []) + (if MonitorReact(a, st, i)[i] != a[i] then [ts[i].id] else [])
  }

  /** While the window is open and a task's snapshot value differs from its stored value,
      every record on it makes the observers add at least one more record on it: the
      records never run out. */
  lemma ObserversNeverSettle(ts: seq<Task>, st: Store, snap: map<string, bool>, i: nat)
    requires i < |ts| && ts[i].id in snap && snap[ts[i].id] != StoredTrue(st, ts[i].id)
    ensures var recs := ReactionRecords(ts, st, snap, true, i);
      |recs| >= 1 && forall k :: 0 <= k < |recs| ==> recs[k] == ts[i].id
  {
    var a := WindowReact(ts, snap, i);
    if a[i] == ts[i] {
      assert MonitorReact(a, st, i)[i].completed != a[i].completed;
    }
  }

  /** The records the window's timer adds: one per task it puts back. */
  function RevertedIds(ts: seq<Task>, snap: map<string, bool>): seq<string>
    decreases |ts|
  {
    if ts == [] then []
    else
      var t := ts[|ts| - 1];
      RevertedIds(ts[..|ts| - 1], snap) + (if t.id in snap && snap[t.id] != t.completed then [t.id] else [])
  }

  /** Every record the timer adds is on a task it put back. */
  lemma {:induction false} RevertedIdsAreReverted(ts: seq<Task>, snap: map<string, bool>)
    ensures forall x :: x in RevertedIds(ts, snap) ==>
      exists i :: 0 <= i < |ts| && ts[i].id == x && Revert(ts[i], snap) != ts[i]
    decreases |ts|
  {
    if ts != [] {
      var prefix := ts[..|ts| - 1];
      RevertedIdsAreReverted(prefix, snap);
      forall x | x in RevertedIds(prefix, snap)
        ensures exists i :: 0 <= i < |ts| && ts[i].id == x && Revert(ts[i], snap) != ts[i]
      {
        var i :| 0 <= i < |prefix| && prefix[i].id == x && Revert(prefix[i], snap) != prefix[i];
        assert ts[i] == prefix[i];
      }
    }
  }

  /** One more task in the timer's loop. */
  lemma RevertStep(ts: seq<Task>, snap: map<string, bool>, i: nat)
    requires i < |ts|
    ensures RevertedIds(ts[..i + 1], snap) ==
      RevertedIds(ts[..i], snap) + (if ts[i].id in snap && snap[ts[i].id] != ts[i].completed then [ts[i].id] else [])
  {
    var prefix := ts[..i + 1];
    assert prefix[..|prefix| - 1] == ts[..i] && prefix[|prefix| - 1] == ts[i];
  }

  /** The window's timer going through the tasks in page order: each task whose snapshot
      value differs from its flag is put back, and each such change adds a class-change
      record. */
  method RevertAll(ts0: seq<Task>, q0: seq<string>, snap: map<string, bool>) returns (ts: seq<Task>, q: seq<string>)
    ensures ts == CloseWindow(ts0, snap) && q == q0 + RevertedIds(ts0, snap)
  {
    ts, q := ts0, q0;
    var i := 0;
    while i < |ts|
      invariant 0 <= i <= |ts| == |ts0|
      invariant forall j :: 0 <= j < i ==> ts[j] == Revert(ts0[j], snap)
      invariant forall j :: i <= j < |ts| ==> ts[j] == ts0[j]
      invariant q == q0 + RevertedIds(ts0[..i], snap)
    {
      RevertStep(ts0, snap, i);
      var id := ts[i].id;
      if id in snap && snap[id] != ts[i].completed {
        ts := ts[i := ts[i].(completed := snap[id])];
        q := q + [id];
      }
      i := i + 1;
    }
    assert ts0[..|ts|] == ts0;
  }

  /** One class-change record on the task at `i` delivered to both observers in turn: the
      window's observer (when `windowOpen`) puts back the snapshot value, then the monitor
      puts back the stored one; each change they make adds a record on the task. */
  method React(ts0: seq<Task>, q0: seq<string>, st: Store, snap: map<string, bool>, windowOpen: bool, i: nat)
    returns (ts: seq<Task>, q: seq<string>)
    requires i < |ts0|
    ensures ts == ObserveChange(ts0, st, snap, windowOpen, i)
    ensures q == q0 + ReactionRecords(ts0, st, snap, windowOpen, i)
  {
    ts, q := ts0, q0;
    var id := ts[i].id;
    if windowOpen && id in snap && snap[id] != ts[i].completed {
      ts := ts[i := ts[i].(completed := snap[id])];
      q := q + [id];
    }
    var stored := StoredTrue(st, id);
    if ts[i].completed != stored {
      ts := ts[i := ts[i].(completed := stored)];
      q := q + [id];
    }
  }

  /** The snapshot loop of the first scroll in a window: each task's id set to its flag, in
      page order. */
  method SnapshotFlags(snap0: map<string, bool>, ts: seq<Task>) returns (snap: map<string, bool>)
    ensures snap == TakeSnapshot(snap0, ts)
  {
    snap := snap0;
    var i := 0;
    while i < |ts|
      invariant 0 <= i <= |ts|
      invariant snap == TakeSnapshot(snap0, ts[..i])
    {
      SnapshotStep(snap0, ts, i);
      snap := snap[ts[i].id := ts[i].completed];
      i := i + 1;
    }
    assert ts[..|ts|] == ts;
  }

  /** The first task not completed: `querySelector('.task:not(.completed)')`. */
  function FirstIncomplete(ts: seq<Task>): (r: Option<nat>)
    ensures r.Some? ==> r.value < |ts| && !ts[r.value].completed && forall j :: 0 <= j < r.value ==> ts[j].completed
    ensures r.None? ==> forall j :: 0 <= j < |ts| ==> ts[j].completed
    decreases |ts|
  {
    if ts == [] then None
    else if !ts[0].completed then Some(0)
    else match FirstIncomplete(ts[1..])
      case None => None
      case Some(k) => Some(k + 1)
  }

  /** The task a key press toggles through a click, if any. Synthetic clicks reach a task
      only on desktop, where the click listeners are. */
  function KeyTarget(ts: seq<Task>, cmd: Command, mobile: bool): (r: Option<nat>)
    ensures r.Some? ==> r.value < |ts| && !mobile
    ensures cmd.CompleteFirst? && !mobile ==> r == FirstIncomplete(ts)
    ensures cmd.ClickTask? && !mobile ==>
      r == (if cmd.index.Int? && 0 <= cmd.index.value < |ts| then Some(cmd.index.value) else None)
    ensures !cmd.CompleteFirst? && !cmd.ClickTask? ==> r.None?
  {
    if mobile then None
    else match cmd
      case CompleteFirst => FirstIncomplete(ts)
      case ClickTask(n) => if n.Int? && 0 <= n.value < |ts| then Some(n.value) else None
      case _ => None
  }

  /** On desktop, keys 1 to 5 click the task at index key - 1 when the page has that many
      tasks, and nothing otherwise. */
  lemma DigitKeyTargetsTask(ts: seq<Task>, d: nat)
    requires 1 <= d <= 5
    ensures KeyTarget(ts, KeyCommand([DigitChar(d)], false), false) == (if d <= |ts| then Some(d - 1) else None)
  {
    DigitKeySelectsTask(d);
  }

  /** Class-change records are kept only once the observers exist. */
  function Recorded(q: seq<string>, observing: bool, ids: seq<string>): seq<string> {
    if observing then q + ids else q
  }

  // ---------------------------------------------------------------- the page

  /** The script's state: the checklist's task elements in document order, `localStorage`,
      the globals `currentStreak` and `currentISRUUser`, and the closure state of the scroll
      listeners and observers. */
  class Page {
    /** Whether the user agent test found a touch device. */
    const mobile: bool
    var tasks: seq<Task>
    var store: Store
    var streak: Num
    var user: Option<Profile>
    /** Whether the load handler ran to its end and attached its listeners and observers. */
    var booted: bool
    /** `isCurrentlyScrolling` of the scroll guard; its 300 ms timeout is pending while set. */
    var guardOn: bool
    /** `isScrolling` of the protection window; its 200 ms timeout is pending while set. */
    var windowOpen: bool
    /** `taskStatesBeforeScroll`, never cleared. */
    var snapshot: map<string, bool>
    /** Pending 100 ms timeouts of the scroll listener that runs `preserveTaskStates`. */
    var pendingPreserves: nat
    /** Class-change records not yet delivered to the observers, by task id. Observer
        callbacks run as microtasks, which the browser runs to the end before any timer or
        input event: those events are only possible while this is empty. */
    var queued: seq<string>

    ghost predicate Valid()
      reads this
    {
      && (!mobile ==> !guardOn && !windowOpen)
      && (!booted ==> !guardOn && !windowOpen && queued == [] && user == None)
      && DistinctIds(tasks)
    }

    /** The scroll guard, the protection window and the pending preserve timeouts are as
        they were. */
    twostate predicate ScrollKept()
      reads this
    {
      && guardOn == old(guardOn) && windowOpen == old(windowOpen)
      && snapshot == old(snapshot) && pendingPreserves == old(pendingPreserves)
    }

    /** Nothing changed. */
    twostate predicate Unchanged()
      reads this
    {
      && tasks == old(tasks) && store == old(store) && streak == old(streak) && user == old(user)
      && booted == old(booted) && queued == old(queued) && ScrollKept()
    }

    /** The effect of `toggleTask` on task `i`: the task flips, one class change is recorded,
        the store and streak take the toggle's writes, and `popup` says whether this was a
        completion that left every task completed. */
    twostate predicate Toggled(i: nat, clock: Clock, popup: bool)
      reads this
    {
      && i < |old(tasks)|
      && tasks == ToggleTasks(old(tasks), i, clock.time)
      && queued == Recorded(old(queued), booted, [old(tasks)[i].id])
      && (store, streak) == ToggleWrites(old(store), old(tasks), i, old(streak), clock, user)
      && popup == (!old(tasks)[i].completed && AllCompleted(tasks))
      && user == old(user) && booted == old(booted) && ScrollKept()
    }

    /** The effect of `resetChecklist`: every task cleared, one class change per task, and
        the store with every task key "false" and the progress written. */
    twostate predicate Cleared(iso: string)
      reads this
    {
      && tasks == ResetTasks(old(tasks))
      && store == ProgressStore(ResetStore(old(store), old(tasks)), tasks, user, iso)
      && queued == Recorded(old(queued), booted, Ids(old(tasks)))
      && streak == old(streak) && user == old(user) && booted == old(booted) && ScrollKept()
    }

    /** The static page: the declared tasks, none completed, and the store as the browser
        kept it. The page's markup gives every task its own `data-task` id. */
    constructor (declared: seq<string>, mobile: bool, st: Store)
      requires forall i, j :: 0 <= i < j < |declared| ==> declared[i] != declared[j]
      ensures Valid() && this.mobile == mobile
      ensures tasks == Fresh(declared) && store == st && streak == Int(0) && user == None
      ensures !booted && !guardOn && !windowOpen && snapshot == map[] && pendingPreserves == 0 && queued == []
    {
      this.mobile := mobile;
      var declaredTasks := Fresh(declared);
      assert forall i :: 0 <= i < |declared| ==> declaredTasks[i].id == declared[i];
      tasks, store, streak, user := declaredTasks, st, Int(0), None;
      booted, guardOn, windowOpen := false, false, false;
      snapshot, pendingPreserves, queued := map[], 0, [];
    }

    /** `loadChecklistState`. It runs before the observers exist, so it records nothing. */
    method LoadChecklistState(time: string) returns (ok: bool)
      requires Valid() && !booted
      modifies this
      ensures Valid()
      ensures var r := LoadChecklist(old(tasks), old(store), time);
        && ok == r.Some?
        && tasks == (if ok then r.value else RestoreFlags(old(tasks), old(store), time))
      ensures store == old(store) && streak == old(streak) && user == old(user) && !booted
      ensures guardOn == old(guardOn) && windowOpen == old(windowOpen) && snapshot == old(snapshot)
      ensures pendingPreserves == old(pendingPreserves) && queued == old(queued)
    {
      var ts := RestoreEach(tasks, store, time);
      DistinctIdsOfIds(tasks, ts);
      LoadKeepsTasks(tasks, store, time);
      tasks := ts;
      ok := true;
      if Truthy(store, OrderKey) {
        var decoded := Json.DecodeStrings(store[OrderKey]);
        if decoded.None? {
          ok := false;
          return;
        }
        tasks := ReorderEach(ts, decoded.value);
        DistinctIdsOfPermutation(ts, tasks);
      }
    }

    /** `updateProgress`: the count and, when signed in, the user snapshot are written; the
        result says whether every task is completed (the cue for the celebration music). */
    method UpdateProgress(iso: string) returns (allDone: bool)
      requires Valid()
      modifies this
      ensures Valid()
      ensures store == ProgressStore(old(store), tasks, user, iso)
      ensures allDone <==> forall j :: 0 <= j < |tasks| ==> tasks[j].completed
      ensures tasks == old(tasks) && streak == old(streak) && user == old(user) && booted == old(booted)
      ensures guardOn == old(guardOn) && windowOpen == old(windowOpen) && snapshot == old(snapshot)
      ensures pendingPreserves == old(pendingPreserves) && queued == old(queued)
    {
      store := ProgressStore(store, tasks, user, iso);
      CompletedCountAll(tasks);
      allDone := CompletedCount(tasks) == |tasks|;
    }

    /** `loadStreak`. */
    method LoadStreak(today: int)
      requires Valid()
      modifies this
      ensures Valid()
      ensures (store, streak) == OnLoad(old(store), old(streak), today)
      ensures tasks == old(tasks) && user == old(user) && booted == old(booted)
      ensures guardOn == old(guardOn) && windowOpen == old(windowOpen) && snapshot == old(snapshot)
      ensures pendingPreserves == old(pendingPreserves) && queued == old(queued)
    {
      var r := OnLoad(store, streak, today);
      store, streak := r.0, r.1;
    }

    /** `updateStreak`. */
    method UpdateStreak(today: int)
      requires Valid()
      modifies this
      ensures Valid()
      ensures (store, streak) == OnComplete(old(store), old(streak), today)
      ensures tasks == old(tasks) && user == old(user) && booted == old(booted)
      ensures guardOn == old(guardOn) && windowOpen == old(windowOpen) && snapshot == old(snapshot)
      ensures pendingPreserves == old(pendingPreserves) && queued == old(queued)
    {
      var r := OnComplete(store, streak, today);
      store, streak := r.0, r.1;
    }

    /** `toggleTask`: the task flips, its key is written, a completion updates the streak and
        may start the celebration popup, and the progress is written. */
    method ToggleTask(i: nat, clock: Clock) returns (popup: bool)
      requires Valid() && i < |tasks|
      modifies this
      ensures Valid() && Toggled(i, clock, popup)
    {
      popup := false;
      var before := tasks;
      var id := before[i].id;
      var ts := ToggleTasks(before, i, clock.time);
      DistinctIdsOfIds(before, ts);
      // checkAllTasksCompleted, on completion only
      popup := !before[i].completed && AllCompleted(ts);
      var r := ToggleWrites(store, before, i, streak, clock, user);
      tasks, queued, store, streak := ts, Recorded(queued, booted, [id]), r.0, r.1;
    }

    /** `window.toggleTask`, which on a touch device the scroll guard replaces by a wrapper
        that does nothing while the guard is on. */
    method Toggle(i: nat, clock: Clock) returns (popup: bool)
      requires Valid() && i < |tasks|
      modifies this
      ensures Valid()
      ensures mobile && old(guardOn) ==> Unchanged() && !popup
      ensures !(mobile && old(guardOn)) ==> Toggled(i, clock, popup)
    {
      popup := false;
      if mobile && guardOn {
        return;
      }
      popup := ToggleTask(i, clock);
    }

    /** `resetChecklist`: every task cleared and its key set to "false", one class change
        per task, then the progress written. */
    method Reset(iso: string)
      requires Valid()
      modifies this
      ensures Valid() && Cleared(iso)
    {
      tasks, store, queued := ClearTasks(tasks, store, queued, booted);
      var _ := UpdateProgress(iso);
    }

    /** `saveTaskOrder`: the ids in page order, as a JSON array under `task_order`. */
    method SaveTaskOrder()
      requires Valid()
      modifies this
      ensures Valid()
      ensures store == old(store)[OrderKey := Json.EncodeStrings(Ids(tasks))]
      ensures tasks == old(tasks) && streak == old(streak) && user == old(user) && booted == old(booted)
      ensures guardOn == old(guardOn) && windowOpen == old(windowOpen) && snapshot == old(snapshot)
      ensures pendingPreserves == old(pendingPreserves) && queued == old(queued)
    {
      store := store[OrderKey := Json.EncodeStrings(Ids(tasks))];
    }

    /** `preserveTaskStates`: every entry that disagrees with its task's flag is rewritten. */
    method PreserveTaskStates()
      requires Valid()
      modifies this
      ensures Valid()
      ensures store == PreserveStore(old(store), tasks)
      ensures tasks == old(tasks) && streak == old(streak) && user == old(user) && booted == old(booted)
      ensures guardOn == old(guardOn) && windowOpen == old(windowOpen) && snapshot == old(snapshot)
      ensures pendingPreserves == old(pendingPreserves) && queued == old(queued)
    {
      var st := store;
      var i := 0;
      while i < |tasks|
        modifies {}
        invariant 0 <= i <= |tasks|
        invariant st == PreserveStore(old(store), tasks[..i])
      {
        assert tasks[..i + 1][..i] == tasks[..i];
        var visual := tasks[i].completed;
        if visual != StoredTrue(st, tasks[i].id) {
          st := st[TaskKey(tasks[i].id) := BoolString(visual)];
        }
        i := i + 1;
      }
      assert tasks[..|tasks|] == tasks;
      store := st;
    }

    /** A `scroll` event: the preserve listener queues a check; on a touch device after
        load, the guard turns on and, on the first scroll of a window, the window opens
        with a snapshot of every flag. */
    method Scroll()
      requires Valid() && queued == []
      modifies this
      ensures Valid()
      ensures pendingPreserves == old(pendingPreserves) + 1
      ensures booted && mobile ==>
        guardOn && windowOpen && snapshot == (if old(windowOpen) then old(snapshot) else TakeSnapshot(old(snapshot), tasks))
      ensures !(booted && mobile) ==> guardOn == old(guardOn) && windowOpen == old(windowOpen) && snapshot == old(snapshot)
      ensures tasks == old(tasks) && store == old(store) && streak == old(streak) && user == old(user)
      ensures booted == old(booted) && queued == old(queued)
    {
      pendingPreserves := pendingPreserves + 1;
      if booted && mobile {
        guardOn := true;
        if !windowOpen {
          windowOpen := true;
          snapshot := SnapshotFlags(snapshot, tasks);
        }
      }
    }

    /** One of the preserve listener's timeouts firing. */
    method PreserveTimerFires()
      requires Valid() && queued == []
      modifies this
      ensures Valid()
      ensures old(pendingPreserves) > 0 ==>
        pendingPreserves == old(pendingPreserves) - 1 && store == PreserveStore(old(store), tasks)
      ensures old(pendingPreserves) == 0 ==> pendingPreserves == 0 && store == old(store)
      ensures tasks == old(tasks) && streak == old(streak) && user == old(user) && booted == old(booted)
      ensures guardOn == old(guardOn) && windowOpen == old(windowOpen) && snapshot == old(snapshot)
      ensures queued == old(queued)
    {
      if pendingPreserves > 0 {
        pendingPreserves := pendingPreserves - 1;
        PreserveTaskStates();
      }
    }

    /** The scroll guard's timeout: toggles are allowed again. */
    method GuardTimerFires()
      requires Valid() && queued == []
      modifies this
      ensures Valid() && !guardOn
      ensures tasks == old(tasks) && store == old(store) && streak == old(streak) && user == old(user)
      ensures booted == old(booted) && windowOpen == old(windowOpen) && snapshot == old(snapshot)
      ensures pendingPreserves == old(pendingPreserves) && queued == old(queued)
    {
      guardOn := false;
    }

    /** The window's timeout: the window closes and every task with a snapshot entry is put
        back to it, each change a class change. */
    method WindowTimerFires()
      requires Valid() && queued == []
      modifies this
      ensures Valid() && !windowOpen
      ensures old(windowOpen) ==>
        tasks == CloseWindow(old(tasks), snapshot) && queued == old(queued) + RevertedIds(old(tasks), snapshot)
      ensures !old(windowOpen) ==> tasks == old(tasks) && queued == old(queued)
      ensures store == old(store) && streak == old(streak) && user == old(user) && booted == old(booted)
      ensures guardOn == old(guardOn) && snapshot == old(snapshot) && pendingPreserves == old(pendingPreserves)
    {
      if !windowOpen {
        return;
      }
      windowOpen := false;
      var ts, q := RevertAll(tasks, queued, snapshot);
      tasks, queued := ts, q;
    }

    /** The oldest class-change record delivered: first to the window's observer (on a touch
        device, acting only while the window is open), then to the monitor. Each change
        they make is itself recorded. */
    method DeliverClassChange()
      requires Valid() && booted && queued != []
      modifies this
      ensures Valid()
      ensures var id := old(queued)[0];
        match IndexOf(old(tasks), id)
        case None => tasks == old(tasks) && queued == old(queued)[1..]
        case Some(i) =>
          && tasks == ObserveChange(old(tasks), store, snapshot, mobile && windowOpen, i)
          && queued == old(queued)[1..] + ReactionRecords(old(tasks), store, snapshot, mobile && windowOpen, i)
      ensures var id := old(queued)[0];
        mobile && windowOpen && id in snapshot && snapshot[id] != StoredTrue(store, id) && id in Ids(old(tasks)) ==>
          |queued| >= |old(queued)| && queued[|queued| - 1] == id
      ensures store == old(store) && streak == old(streak) && user == old(user) && booted == old(booted)
      ensures guardOn == old(guardOn) && windowOpen == old(windowOpen) && snapshot == old(snapshot)
      ensures pendingPreserves == old(pendingPreserves)
    {
      var id := queued[0];
      queued := queued[1..];
      var found := IndexOf(tasks, id);
      if found.None? {
        return;
      }
      var i := found.value;
      var before := tasks;
      tasks, queued := React(before, queued, store, snapshot, mobile && windowOpen, i);
      if mobile && windowOpen && id in snapshot && snapshot[id] != StoredTrue(store, id) {
        ObserversNeverSettle(before, store, snapshot, i);
      }
    }

    /** A click on a task: only desktop pages have click listeners. */
    method Click(i: nat, clock: Clock) returns (popup: bool)
      requires Valid() && queued == [] && i < |tasks|
      modifies this
      ensures Valid()
      ensures booted && !mobile ==> Toggled(i, clock, popup)
      ensures !(booted && !mobile) ==> Unchanged() && !popup
    {
      popup := false;
      if booted && !mobile {
        popup := Toggle(i, clock);
      }
    }

    /** A `touchend` on a task on a touch device: a tap toggles it. */
    method TouchEnd(tracker: TouchTracker, i: nat, t: int, y: int, clock: Clock) returns (popup: bool)
      requires Valid() && queued == [] && i < |tasks| && tracker.Valid() && t >= tracker.now
      modifies this
      ensures Valid()
      ensures var tap := IsTap(tracker.scrolling, t - tracker.startTime, Abs(y - tracker.startY));
        && (booted && mobile && tap && !old(guardOn) ==> Toggled(i, clock, popup))
        && (!(booted && mobile && tap && !old(guardOn)) ==> Unchanged() && !popup)
      ensures tracker.movedFar ==> Unchanged() && !popup
    {
      popup := false;
      var tap := tracker.TouchEnd(t, y);
      if booted && mobile && tap {
        popup := Toggle(i, clock);
      }
    }

    /** The document's `touchend` swipe test: a finger lifted more than 50 px above where it
        went down, on a narrow screen, resets the checklist. */
    method Swipe(startY: int, endY: int, narrow: bool, iso: string)
      requires Valid() && queued == []
      modifies this
      ensures Valid()
      ensures endY - startY < -50 && narrow ==> Cleared(iso)
      ensures !(endY - startY < -50 && narrow) ==> Unchanged()
    {
      if endY - startY < -50 && narrow {
        Reset(iso);
      }
    }

    /** A `keydown` on the document. */
    method KeyDown(key: string, inField: bool, clock: Clock) returns (popup: bool)
      requires Valid() && queued == []
      modifies this
      ensures Valid()
      ensures var cmd := KeyCommand(key, inField);
        var target := KeyTarget(old(tasks), cmd, mobile);
        && (booted && cmd.ResetAll? ==> Cleared(clock.iso) && !popup)
        && (booted && !cmd.ResetAll? && target.Some? && !(mobile && old(guardOn)) ==> Toggled(target.value, clock, popup))
        && (!booted || (!cmd.ResetAll? && (target.None? || (mobile && old(guardOn)))) ==> Unchanged() && !popup)
    {
      popup := false;
      if !booted {
        return;
      }
      var cmd := KeyCommand(key, inField);
      if cmd.ResetAll? {
        Reset(clock.iso);
      } else {
        var target := KeyTarget(tasks, cmd, mobile);
        if target.Some? {
          popup := Toggle(target.value, clock);
        }
      }
    }

    /** A drag starting on a task: the `dragging` class is added. */
    method DragStart(i: nat)
      requires Valid() && queued == [] && i < |tasks|
      modifies this
      ensures Valid() && queued == Recorded(old(queued), booted, [old(tasks)[i].id])
      ensures tasks == old(tasks) && store == old(store) && streak == old(streak) && user == old(user)
      ensures booted == old(booted) && ScrollKept()
    {
      queued := Recorded(queued, booted, [tasks[i].id]);
    }

    /** `dragover` with the dragged task `i` above task `after` (None: below every task). */
    method DragOver(i: nat, after: Option<nat>)
      requires Valid() && queued == [] && i < |tasks|
      requires after.Some? ==> after.value < |tasks| && after.value != i
      modifies this
      ensures Valid()
      ensures booted ==> tasks == (if after.None? then AppendChild(old(tasks), old(tasks)[i])
                                   else InsertBefore(old(tasks), old(tasks)[i], old(tasks)[after.value]))
      ensures !booted ==> tasks == old(tasks)
      ensures store == old(store) && streak == old(streak) && user == old(user) && booted == old(booted)
      ensures queued == old(queued) && ScrollKept()
    {
      if booted {
        DragKeepsTasks(tasks, i, after);
        if after.None? {
          tasks := AppendChild(tasks, tasks[i]);
        } else {
          tasks := InsertBefore(tasks, tasks[i], tasks[after.value]);
        }
        DistinctIdsOfPermutation(old(tasks), tasks);
      }
    }

    /** A drag ending: the `dragging` class is removed and the order saved. */
    method DragEnd(i: nat)
      requires Valid() && queued == [] && i < |tasks|
      modifies this
      ensures Valid() && tasks == old(tasks)
      ensures booted ==> queued == old(queued) + [tasks[i].id] && store == old(store)[OrderKey := Json.EncodeStrings(Ids(tasks))]
      ensures !booted ==> queued == old(queued) && store == old(store)
      ensures streak == old(streak) && user == old(user) && booted == old(booted) && ScrollKept()
    {
      if booted {
        queued := queued + [tasks[i].id];
        SaveTaskOrder();
      }
    }

    /** The login button, with the service's answer for the trimmed name (None when the user
        was not found or the request failed). An empty name is refused before asking. */
    method Login(input: string, fetched: Option<Profile>)
      requires Valid() && queued == []
      modifies this
      ensures Valid()
      ensures booted && Trim(input) != "" && fetched.Some? ==>
        user == fetched && store == LoginStore(old(store), Trim(input), fetched.value)
      ensures !(booted && Trim(input) != "" && fetched.Some?) ==> user == old(user) && store == old(store)
      ensures tasks == old(tasks) && streak == old(streak) && queued == old(queued) && booted == old(booted)
      ensures ScrollKept()
    {
      if !booted {
        return;
      }
      var name := Trim(input);
      if name == "" {
        return;
      }
      if fetched.Some? {
        user := fetched;
        store := LoginStore(store, name, fetched.value);
      }
    }

    /** The logout button. */
    method Logout()
      requires Valid() && queued == []
      modifies this
      ensures Valid()
      ensures booted ==> user == None && store == LogoutStore(old(store))
      ensures !booted ==> user == old(user) && store == old(store)
      ensures tasks == old(tasks) && streak == old(streak) && queued == old(queued) && booted == old(booted)
      ensures ScrollKept()
    {
      if booted {
        user := None;
        store := LogoutStore(store);
      }
    }

    /** The saved-login check at the end of the load handler, with `JSON.parse`'s reading of
        the saved profile (None when it throws). */
    method RestoreSession(parsed: Option<Profile>)
      requires Valid() && booted
      requires parsed.Some? && SavedLogin(store) ==> parsed.value.text == store[UserDataKey]
      modifies this
      ensures Valid()
      ensures user == (if SavedLogin(store) && parsed.Some? then parsed else old(user))
      ensures tasks == old(tasks) && store == old(store) && streak == old(streak) && queued == old(queued)
      ensures booted == old(booted) && guardOn == old(guardOn) && windowOpen == old(windowOpen)
      ensures snapshot == old(snapshot) && pendingPreserves == old(pendingPreserves)
    {
      if SavedLogin(store) && parsed.Some? {
        user := parsed;
      }
    }

    /** The `DOMContentLoaded` handler. A saved order that does not parse stops it right
        after the flags are restored: nothing after that line runs. */
    method Boot(clock: Clock, parsed: Option<Profile>) returns (ok: bool)
      requires Valid() && !booted
      requires parsed.Some? && SavedLogin(store) ==> parsed.value.text == store[UserDataKey]
      modifies this
      ensures Valid()
      ensures var r := LoadChecklist(old(tasks), old(store), clock.time);
        && ok == r.Some?
        && (!ok ==> tasks == RestoreFlags(old(tasks), old(store), clock.time) && store == old(store) && !booted)
        && (ok ==>
              && tasks == r.value && booted
              && (store, streak) == OnLoad(ProgressStore(old(store), r.value, None, clock.iso), old(streak), clock.day)
              && user == (if SavedLogin(old(store)) then parsed else None))
    {
      ok := LoadChecklistState(clock.time);
      if !ok {
        return;
      }
      var _ := UpdateProgress(clock.iso);
      LoadStreak(clock.day);
      booted := true;
      BootKeepsLogin(old(store), tasks, old(streak), clock);
      RestoreSession(parsed);
    }
  }
}
