/** Signing in to and out of the ISRU leaderboard: the keys the login box keeps in the
    store, and the progress snapshot saved for a signed-in user. The profile itself comes
    from the leaderboard service; the model keeps only its `username` field and the JSON
    text it is stored as. */
module Session {
  import opened Wrappers
  import opened Store
  import opened JsNumbers
  import Json
  import opened Checklist

  /** A user profile as returned by the service: its `username` field, if any, and its
      `JSON.stringify` text (an object, so never empty). */
  datatype Profile = Profile(username: Option<string>, text: string)

  /** How many white-space characters `s` ends with. */
  function TrailingSpaces(s: string): (n: nat)
    ensures n <= |s|
    ensures forall i :: |s| - n <= i < |s| ==> IsJsSpace(s[i])
    ensures n < |s| ==> !IsJsSpace(s[|s| - 1 - n])
    decreases |s|
  {
    if s != [] && IsJsSpace(s[|s| - 1]) then 1 + TrailingSpaces(s[..|s| - 1]) else 0
  }

  /** `s` without its trailing white space. */
  function TrimEnd(s: string): string {
    s[..|s| - TrailingSpaces(s)]
  }

  /** `String.prototype.trim`: white space removed from both ends. */
  function Trim(s: string): string {
    TrimEnd(TrimStart(s))
  }

  /** The trimmed text has no white space at either end. */
  lemma TrimEnds(s: string)
    ensures var r := Trim(s); r == [] || (!IsJsSpace(r[0]) && !IsJsSpace(r[|r| - 1]))
  {
    var t := TrimStart(s);
    var r := TrimEnd(t);
    if r != [] {
      assert r[0] == t[0];
    }
  }

  /** The trimmed text is the slice of the input between its leading and its trailing white
      space. */
  lemma TrimSlice(s: string)
    ensures var lead := LeadingSpaces(s);
      var r := Trim(s);
      lead + |r| <= |s| && r == s[lead..lead + |r|]
  {
    var lead := LeadingSpaces(s);
    var r := Trim(s);
    assert s[lead..][..|r|] == s[lead..lead + |r|];
  }

  /** The trimmed text is empty exactly when the input is all white space: the login box's
      empty-name check. */
  lemma TrimEmpty(s: string)
    ensures Trim(s) == [] <==> forall i :: 0 <= i < |s| ==> IsJsSpace(s[i])
  {
    var t := TrimStart(s);
    var r := TrimEnd(t);
    assert r != [] ==> r[0] == t[0] && t[0] == s[|s| - |t|];
  }

  /** The store after a successful login: the trimmed name and the profile's text. */
  function LoginStore(st: Store, name: string, p: Profile): (r: Store)
    ensures Get(r, UsernameKey) == Some(name) && Get(r, UserDataKey) == Some(p.text)
    ensures forall k :: k != UsernameKey && k != UserDataKey ==> Get(r, k) == Get(st, k)
  {
    st[UsernameKey := name][UserDataKey := p.text]
  }

  /** The store after logout: both login keys removed. */
  function LogoutStore(st: Store): (r: Store)
    ensures Get(r, UsernameKey) == None && Get(r, UserDataKey) == None
    ensures forall k :: k != UsernameKey && k != UserDataKey ==> Get(r, k) == Get(st, k)
  {
    st - {UsernameKey, UserDataKey}
  }

  /** The check on page load: both login keys hold a non-empty text. */
  predicate SavedLogin(st: Store) {
    Truthy(st, UsernameKey) && Truthy(st, UserDataKey)
  }

  /** A login that got past the empty-name check is found again on the next page load, with
      the profile text it stored. */
  lemma LoginIsRemembered(st: Store, input: string, p: Profile)
    requires Trim(input) != "" && p.text != ""
    ensures var r := LoginStore(st, Trim(input), p);
      SavedLogin(r) && r[UserDataKey] == p.text && r[UsernameKey] == Trim(input)
  {
  }

  /** Logout undoes login: afterwards no login is found, and the store is what logging out
      without the login would have left. */
  lemma LogoutUndoesLogin(st: Store, name: string, p: Profile)
    ensures !SavedLogin(LogoutStore(LoginStore(st, name, p)))
    ensures LogoutStore(LoginStore(st, name, p)) == LogoutStore(st)
  {
    var a, b := LogoutStore(LoginStore(st, name, p)), LogoutStore(st);
    assert forall k :: k in a <==> k in b;
  }

  /** The key under which a signed-in user's snapshot is kept; a profile without a
      `username` field gives `isru_progress_undefined`. */
  function ProgressKeyOf(p: Profile): string {
    UserProgressKey(if p.username.Some? then p.username.value else "undefined")
  }

  /** Logout keeps every user's saved snapshot and every task flag. */
  lemma LogoutKeepsProgress(st: Store, name: string, id: string)
    ensures Get(LogoutStore(st), UserProgressKey(name)) == Get(st, UserProgressKey(name))
    ensures Get(LogoutStore(st), TaskKey(id)) == Get(st, TaskKey(id))
  {
    assert UserProgressKey(name)[5] == 'p' && UsernameKey[5] == 'u' && UserDataKey[5] == 'u';
    assert TaskKey(id)[0] == 't';
  }

  /** One task in the snapshot: `{"id":…,"completed":…,"timestamp":…}`. */
  function TaskEntryText(t: Task): string {
    Json.ObjectText([("id", Json.Quote(t.id)), ("completed", Json.BoolText(t.completed)), ("timestamp", Json.Quote(t.stamp))])
  }

  function TaskEntryTexts(ts: seq<Task>): (r: seq<string>)
    ensures |r| == |ts| && forall i :: 0 <= i < |ts| ==> r[i] == TaskEntryText(ts[i])
  {
    seq(|ts|, i requires 0 <= i < |ts| => TaskEntryText(ts[i]))
  }

  /** `saveUserProgress`'s JSON: the tasks with their flags and timestamp lines, the streak
      text read from the store, and the clock's ISO time. */
  function SnapshotText(ts: seq<Task>, streak: string, iso: string): string {
    Json.ObjectText([
      ("completed", Json.ArrayText(TaskEntryTexts(ts))),
      ("streak", Json.Quote(streak)),
      ("lastUpdated", Json.Quote(iso))])
  }

  /** The member-name prefixes of a task entry, as literal texts. */
  lemma EntryKeys()
    ensures "{\"" + "id" + "\":" == "{\"id\":"
    ensures ",\"" + "completed" + "\":" == ",\"completed\":"
    ensures ",\"" + "timestamp" + "\":" == ",\"timestamp\":"
  {
  }

  /** The member-name prefixes of a snapshot, as literal texts. */
  lemma SnapshotKeys()
    ensures "{\"" + "completed" + "\":" == "{\"completed\":"
    ensures ",\"" + "streak" + "\":" == ",\"streak\":"
    ensures ",\"" + "lastUpdated" + "\":" == ",\"lastUpdated\":"
  {
  }

  /** A task entry written out, followed by the text after it. */
  lemma EntryTextForm(t: Task, rest: string)
    ensures TaskEntryText(t) + rest == "{\"id\":" + (Json.Quote(t.id) + (",\"completed\":" +
      (Json.BoolText(t.completed) + (",\"timestamp\":" + (Json.Quote(t.stamp) + ("}" + rest))))))
  {
    Json.ObjectText3("id", Json.Quote(t.id), "completed", Json.BoolText(t.completed), "timestamp", Json.Quote(t.stamp), rest);
    EntryKeys();
  }

  /** The snapshot written out, its task array still whole. */
  lemma SnapshotTextMembers(ts: seq<Task>, streak: string, iso: string)
    ensures SnapshotText(ts, streak, iso) == "{\"completed\":" + (Json.ArrayText(TaskEntryTexts(ts)) +
      (",\"streak\":" + (Json.Quote(streak) + (",\"lastUpdated\":" + (Json.Quote(iso) + "}")))))
  {
    var q1, q2 := Json.Quote(streak), Json.Quote(iso);
    Json.ObjectText3("completed", Json.ArrayText(TaskEntryTexts(ts)), "streak", q1, "lastUpdated", q2, "");
    SnapshotKeys();
    assert "}" + "" == "}" && SnapshotText(ts, streak, iso) + "" == SnapshotText(ts, streak, iso);
  }

  /** The snapshot written out, with its task entries joined. */
  lemma SnapshotTextForm(ts: seq<Task>, streak: string, iso: string)
    ensures SnapshotText(ts, streak, iso) == "{\"completed\":[" + (Json.Join(TaskEntryTexts(ts)) +
      ("]" + (",\"streak\":" + (Json.Quote(streak) + (",\"lastUpdated\":" + (Json.Quote(iso) + "}"))))))
  {
    var j := Json.Join(TaskEntryTexts(ts));
    var tail := ",\"streak\":" + (Json.Quote(streak) + (",\"lastUpdated\":" + (Json.Quote(iso) + "}")));
    SnapshotTextMembers(ts, streak, iso);
    Json.Regroup("[", j, "]", tail);
    assert "{\"completed\":" + ("[" + (j + ("]" + tail))) == "{\"completed\":[" + (j + ("]" + tail));
  }

  /** A task entry at the front of the text, members in the order `saveUserProgress`
      writes them: the task and the text after its closing brace. */
  function ParseEntry(s: string): (r: Option<(Task, string)>)
    ensures r.Some? ==> |r.value.1| < |s|
  {
    match Json.Expect("{\"id\":", s)
    case None => None
    case Some(s1) =>
      match Json.ParseString(s1)
      case None => None
      case Some((id, s2)) =>
        match Json.Expect(",\"completed\":", s2)
        case None => None
        case Some(s3) =>
          match Json.ParseBool(s3)
          case None => None
          case Some((done, s4)) =>
            match Json.Expect(",\"timestamp\":", s4)
            case None => None
            case Some(s5) =>
              match Json.ParseString(s5)
              case None => None
              case Some((stamp, s6)) =>
                match Json.Expect("}", s6)
                case None => None
                case Some(s7) => Some((Task(id, done, stamp), s7))
  }

  /** One or more task entries separated by commas, up to the closing bracket: the tasks
      and the text after the bracket. */
  function ParseEntries(s: string): (r: Option<(seq<Task>, string)>)
    decreases |s|
  {
    match ParseEntry(s)
    case None => None
    case Some((t, s1)) =>
      if s1 != [] && s1[0] == ']' then Some(([t], s1[1..]))
      else if s1 != [] && s1[0] == ',' then
        match ParseEntries(s1[1..])
        case None => None
        case Some((ts, s2)) => Some(([t] + ts, s2))
      else None
  }

  /** The snapshot's members after its task list, up to the closing brace that must end
      the text: the streak text and the time. */
  function ParseSnapshotTail(s: string): Option<(string, string)> {
    match Json.Expect(",\"streak\":", s)
    case None => None
    case Some(s1) =>
      match Json.ParseString(s1)
      case None => None
      case Some((streak, s2)) =>
        match Json.Expect(",\"lastUpdated\":", s2)
        case None => None
        case Some(s3) =>
          match Json.ParseString(s3)
          case None => None
          case Some((iso, s4)) => if s4 == "}" then Some((streak, iso)) else None
  }

  /** Reads back a saved snapshot: its tasks, its streak text and its time. */
  function DecodeSnapshot(s: string): Option<(seq<Task>, string, string)> {
    match Json.Expect("{\"completed\":[", s)
    case None => None
    case Some(s1) =>
      var entries: Option<(seq<Task>, string)> := if "]" <= s1 then Some(([], s1[1..])) else ParseEntries(s1);
      match entries
      case None => None
      case Some((ts, s2)) =>
        match ParseSnapshotTail(s2)
        case None => None
        case Some((streak, iso)) => Some((ts, streak, iso))
  }

  lemma ParseSnapshotTailOf(streak: string, iso: string)
    ensures ParseSnapshotTail(",\"streak\":" + (Json.Quote(streak) + (",\"lastUpdated\":" + (Json.Quote(iso) + "}"))))
      == Some((streak, iso))
  {
    var q2 := Json.Quote(iso) + "}";
    var q1 := Json.Quote(streak) + (",\"lastUpdated\":" + q2);
    Json.ExpectOf(",\"streak\":", q1);
    Json.ParseStringOfQuote(streak, ",\"lastUpdated\":" + q2);
    Json.ExpectOf(",\"lastUpdated\":", q2);
    Json.ParseStringOfQuote(iso, "}");
  }

  lemma ParseEntryOf(t: Task, rest: string)
    ensures ParseEntry(TaskEntryText(t) + rest) == Some((t, rest))
  {
    EntryTextForm(t, rest);
    var q2 := Json.Quote(t.stamp) + ("}" + rest);
    var b := Json.BoolText(t.completed) + (",\"timestamp\":" + q2);
    var q1 := Json.Quote(t.id) + (",\"completed\":" + b);
    Json.ExpectOf("{\"id\":", q1);
    Json.ParseStringOfQuote(t.id, ",\"completed\":" + b);
    Json.ExpectOf(",\"completed\":", b);
    Json.ParseBoolOfText(t.completed, ",\"timestamp\":" + q2);
    Json.ExpectOf(",\"timestamp\":", q2);
    Json.ParseStringOfQuote(t.stamp, "}" + rest);
    Json.ExpectOf("}", rest);
  }

  /** The last entry of the list: the one followed by the closing bracket. */
  lemma ParseEntriesLast(s: string, ts: seq<Task>, rest: string)
    requires |ts| == 1 && ParseEntry(s) == Some((ts[0], "]" + rest))
    ensures ParseEntries(s) == Some((ts, rest))
  {
    assert ("]" + rest)[1..] == rest;
    assert [ts[0]] == ts;
  }

  /** An entry followed by a comma and the entries after it. */
  lemma ParseEntriesNext(s: string, ts: seq<Task>, more: string, rest: string)
    requires ts != [] && ParseEntry(s) == Some((ts[0], "," + more))
    requires ParseEntries(more) == Some((ts[1..], rest))
    ensures ParseEntries(s) == Some((ts, rest))
  {
    assert ("," + more)[1..] == more;
    assert [ts[0]] + ts[1..] == ts;
  }

  /** The joined entries of a list of two or more: the first, a comma, and the rest joined. */
  lemma JoinedEntriesSplit(ts: seq<Task>, rest: string)
    requires |ts| > 1
    ensures Json.Join(TaskEntryTexts(ts)) + rest ==
      TaskEntryText(ts[0]) + ("," + (Json.Join(TaskEntryTexts(ts[1..])) + rest))
  {
    var es := TaskEntryTexts(ts);
    assert es[1..] == TaskEntryTexts(ts[1..]);
    Json.Regroup(es[0], ",", Json.Join(es[1..]), rest);
  }

  /** The entries of a non-empty task list, joined, read back up to the bracket after them. */
  lemma {:induction false} ParseEntriesOf(ts: seq<Task>, rest: string)
    requires ts != []
    ensures ParseEntries(Json.Join(TaskEntryTexts(ts)) + ("]" + rest)) == Some((ts, rest))
    decreases |ts|
  {
    var s := Json.Join(TaskEntryTexts(ts)) + ("]" + rest);
    if |ts| == 1 {
      assert s == TaskEntryText(ts[0]) + ("]" + rest);
      ParseEntryOf(ts[0], "]" + rest);
      ParseEntriesLast(s, ts, rest);
    } else {
      var more := Json.Join(TaskEntryTexts(ts[1..])) + ("]" + rest);
      JoinedEntriesSplit(ts, "]" + rest);
      ParseEntryOf(ts[0], "," + more);
      ParseEntriesOf(ts[1..], rest);
      ParseEntriesNext(s, ts, more, rest);
    }
  }

  /** The joined entries of a non-empty list start with the first entry's brace. */
  lemma JoinedEntriesStart(ts: seq<Task>, rest: string)
    requires ts != []
    ensures var s := Json.Join(TaskEntryTexts(ts)) + rest; s != [] && s[0] == '{'
  {
    var es := TaskEntryTexts(ts);
    EntryTextForm(ts[0], "");
    assert es[0][0] == '{';
    if |ts| > 1 {
      assert Json.Join(es) == es[0] + "," + Json.Join(es[1..]);
    }
  }

  /** A saved snapshot reads back as the tasks, flags, timestamp lines, streak and time that
      were written: the JSON text loses nothing. */
  lemma SnapshotRoundTrip(ts: seq<Task>, streak: string, iso: string)
    ensures DecodeSnapshot(SnapshotText(ts, streak, iso)) == Some((ts, streak, iso))
  {
    SnapshotTextForm(ts, streak, iso);
    var tail := ",\"streak\":" + (Json.Quote(streak) + (",\"lastUpdated\":" + (Json.Quote(iso) + "}")));
    var s1 := Json.Join(TaskEntryTexts(ts)) + ("]" + tail);
    Json.ExpectOf("{\"completed\":[", s1);
    if ts == [] {
      assert s1 == "]" + tail && ("]" + tail)[1..] == tail;
    } else {
      JoinedEntriesStart(ts, "]" + tail);
      assert !("]" <= s1);
      ParseEntriesOf(ts, tail);
    }
    ParseSnapshotTailOf(streak, iso);
    DecodeSnapshotSteps(SnapshotText(ts, streak, iso), s1, ts, tail, streak, iso);
  }

  lemma DecodeSnapshotSteps(s: string, s1: string, ts: seq<Task>, tail: string, streak: string, iso: string)
    requires Json.Expect("{\"completed\":[", s) == Some(s1)
    requires "]" <= s1 ==> ts == [] && s1[1..] == tail
    requires !("]" <= s1) ==> ParseEntries(s1) == Some((ts, tail))
    requires ParseSnapshotTail(tail) == Some((streak, iso))
    ensures DecodeSnapshot(s) == Some((ts, streak, iso))
  {
  }

  /** Two snapshots with the same text hold the same tasks, streak and time. */
  lemma SnapshotTextInjective(a: seq<Task>, s: string, i: string, b: seq<Task>, t: string, j: string)
    requires SnapshotText(a, s, i) == SnapshotText(b, t, j)
    ensures a == b && s == t && i == j
  {
    SnapshotRoundTrip(a, s, i);
    SnapshotRoundTrip(b, t, j);
  }
}
