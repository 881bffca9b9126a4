/** The browser's `localStorage` as the script uses it: a map from string keys to string
    values, and the keys the script reads and writes. */
module Store {
  import opened Wrappers

  type Store = map<string, string>

  /** `localStorage.getItem(k)`: the stored text, or None for null. */
  function Get(st: Store, k: string): (r: Option<string>)
    ensures r.Some? <==> k in st
    ensures r.Some? ==> r.value == st[k]
  {
    if k in st then Some(st[k]) else None
  }

  /** `localStorage.getItem(k) || fallback`: null and the empty text both give the fallback. */
  function GetOr(st: Store, k: string, fallback: string): (r: string)
    ensures k in st && st[k] != "" ==> r == st[k]
    ensures k !in st || st[k] == "" ==> r == fallback
  {
    if k in st && st[k] != "" then st[k] else fallback
  }

  /** Whether `getItem(k)` returns a truthy value (neither null nor ""). */
  predicate Truthy(st: Store, k: string) {
    k in st && st[k] != ""
  }

  const TaskPrefix: string := "task_"
  const OrderKey: string := "task_order"
  const StreakKey: string := "currentStreak"
  const LastDateKey: string := "lastCompletedDate"
  const ProgressKey: string := "progress"
  const UsernameKey: string := "isru_username"
  const UserDataKey: string := "isru_user_data"
  const UserProgressPrefix: string := "isru_progress_"

  /** The key `task_<id>` under which a task's completion is kept. */
  function TaskKey(id: string): string {
    TaskPrefix + id
  }

  /** The key `isru_progress_<name>` of a user's progress snapshot. */
  function UserProgressKey(name: string): string {
    UserProgressPrefix + name
  }

  predicate IsTaskKey(k: string) {
    |k| >= |TaskPrefix| && k[..|TaskPrefix|] == TaskPrefix
  }

  /** `String(b)`: the text a task's flag is stored as. */
  function BoolString(b: bool): string {
    if b then "true" else "false"
  }

  /** `localStorage.getItem('task_' + id) === 'true'`. */
  predicate StoredTrue(st: Store, id: string) {
    TaskKey(id) in st && st[TaskKey(id)] == "true"
  }

  /** Different tasks have different keys, and `task_<id>` is a task key. */
  lemma TaskKeyInjective(a: string, b: string)
    ensures TaskKey(a) == TaskKey(b) <==> a == b
    ensures IsTaskKey(TaskKey(a))
  {
    if TaskKey(a) == TaskKey(b) {
      assert a == TaskKey(a)[|TaskPrefix|..] && b == TaskKey(b)[|TaskPrefix|..];
    }
  }

  /** None of the streak, progress and sign-in keys is a task key, so writing them never
      changes what any task reads back. The saved order's key is the key of a task named
      "order". */
  lemma FixedKeysAreNotTaskKeys(name: string)
    ensures !IsTaskKey(StreakKey) && !IsTaskKey(LastDateKey) && !IsTaskKey(ProgressKey)
    ensures !IsTaskKey(UsernameKey) && !IsTaskKey(UserDataKey) && !IsTaskKey(UserProgressKey(name))
    ensures OrderKey == TaskKey("order")
  {
    assert StreakKey[0] == 'c' && LastDateKey[0] == 'l' && ProgressKey[0] == 'p';
    assert UsernameKey[0] == 'i' && UserDataKey[0] == 'i' && UserProgressKey(name)[0] == 'i';
  }

  /** Reading back the flag just written as `String(b)`. */
  lemma StoredTrueAfterWrite(st: Store, id: string, b: bool, other: string)
    ensures StoredTrue(st[TaskKey(id) := BoolString(b)], id) == b
    ensures other != id ==> StoredTrue(st[TaskKey(id) := BoolString(b)], other) == StoredTrue(st, other)
  {
    TaskKeyInjective(id, other);
  }
}
