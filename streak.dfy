/** The day streak: the `currentStreak` global and the `currentStreak` and
    `lastCompletedDate` store entries, as `updateStreak` (on completing a task) and
    `loadStreak` (on page load) change them. A calendar day is an integer day number; the
    text `toDateString` would give for it is stood for by the number's decimal text. */
module Streak {
  import opened Wrappers
  import opened Store
  import opened JsNumbers

  /** The stored text for a day (in place of `Date.prototype.toDateString`). */
  function DayText(day: int): string {
    IntToString(day)
  }

  /** `parseInt(localStorage.getItem('currentStreak') || '0')`. */
  function StoredCount(st: Store): Num {
    ParseInt(GetOr(st, StreakKey, "0"))
  }

  /** `Math.floor((new Date() - new Date(last)) / 86400000)` when `last` names a day, None
      (NaN) when it names none. The clock reads some time during day `today`, and the parsed
      date is the start of its day, so the floor is the difference of the day numbers. */
  function DayGap(last: string, today: int): Option<int> {
    match ParseDay(last)
    case None => None
    case Some(d) => Some(today - d)
  }

  /** `updateStreak()` on day `today`, given the store and the `currentStreak` global;
      gives the new store and the new global. */
  function OnComplete(st: Store, current: Num, today: int): (r: (Store, Num))
    ensures Get(r.0, LastDateKey) == Some(DayText(today))
    ensures Get(st, LastDateKey) != Some(DayText(today)) ==>
      r.1 == Add1(StoredCount(st)) && Get(r.0, StreakKey) == Some(ToString(r.1))
    ensures Get(st, LastDateKey) == Some(DayText(today)) ==> r == (st, current)
    ensures forall k :: k != StreakKey && k != LastDateKey ==> Get(r.0, k) == Get(st, k)
  {
    var todayText := DayText(today);
    if Get(st, LastDateKey) != Some(todayText) then
      var n := Add1(StoredCount(st));
      (st[StreakKey := ToString(n)][LastDateKey := todayText], n)
    else
      assert st[LastDateKey := todayText] == st;
      (st[LastDateKey := todayText], current)
  }

  /** `loadStreak()` on day `today`: nothing when the stored date is today's; otherwise the
      global becomes stored + 1 after a gap of exactly one day, 0 after a longer gap, and
      stays as it is when there is no date, the date does not parse, or the gap is not
      positive; in all these cases the global is written to the store. The date entry is
      never written. */
  function OnLoad(st: Store, current: Num, today: int): (r: (Store, Num))
    ensures Get(st, LastDateKey) == Some(DayText(today)) ==> r == (st, current)
    ensures Get(st, LastDateKey) != Some(DayText(today)) ==>
      && r.0 == st[StreakKey := ToString(r.1)]
      && r.1 == (if !Truthy(st, LastDateKey) then current
                 else match DayGap(st[LastDateKey], today)
                   case None => current
                   case Some(g) => if g == 1 then Add1(StoredCount(st)) else if g > 1 then Int(0) else current)
    ensures Get(r.0, LastDateKey) == Get(st, LastDateKey)
  {
    if Get(st, LastDateKey) == Some(DayText(today)) then (st, current)
    else
      var n :=
        if Truthy(st, LastDateKey) then
          match DayGap(st[LastDateKey], today)
          case None => current
          case Some(g) => if g == 1 then Add1(StoredCount(st)) else if g > 1 then Int(0) else current
        else current;
      (st[StreakKey := ToString(n)], n)
  }

  /** A store whose streak entry holds `count` as the script writes it. */
  predicate HoldsCount(st: Store, count: int) {
    Get(st, StreakKey) == Some(ToString(Int(count)))
  }

  lemma StoredCountOfHolds(st: Store, count: int)
    requires HoldsCount(st, count)
    ensures StoredCount(st) == Int(count)
  {
    assert ToString(Int(count)) != "" by {
      if count < 0 { assert ToString(Int(count))[0] == '-'; }
    }
    ParseIntOfToString(Int(count));
  }

  /** Completing on a day other than the stored one counts stored + 1, whatever the gap:
      this path never resets. With no count stored, the first completion counts 1. */
  lemma CompleteCountsOnePastStored(st: Store, current: Num, today: int, count: int)
    requires Get(st, LastDateKey) != Some(DayText(today))
    ensures HoldsCount(st, count) ==> OnComplete(st, current, today).1 == Int(count + 1)
    ensures StreakKey !in st ==> OnComplete(st, current, today).1 == Int(1)
  {
    if HoldsCount(st, count) {
      StoredCountOfHolds(st, count);
    }
    if StreakKey !in st {
      assert ParseInt("0") == Int(0) by { ParseIntOfToString(Int(0)); }
    }
  }

  /** Completing again on the same day changes nothing: the streak is credited once a day. */
  lemma CompleteIdempotentWithinDay(st: Store, current: Num, today: int)
    ensures var (st1, c1) := OnComplete(st, current, today);
      OnComplete(st1, c1, today) == (st1, c1)
  {
  }

  /** The store written by a completion reads back, on the next day, as a count one higher. */
  lemma CompleteOnConsecutiveDays(st: Store, current: Num, today: int, count: int)
    requires HoldsCount(st, count) && Get(st, LastDateKey) == Some(DayText(today - 1))
    ensures var (st1, c1) := OnComplete(st, current, today);
      && c1 == Int(count + 1) && HoldsCount(st1, count + 1)
      && OnComplete(st1, c1, today) == (st1, c1)
      && OnComplete(st1, c1, today + 1).1 == Int(count + 2)
  {
    IntToStringInjective(today - 1, today);
    CompleteCountsOnePastStored(st, current, today, count);
    var (st1, c1) := OnComplete(st, current, today);
    IntToStringInjective(today, today + 1);
    CompleteCountsOnePastStored(st1, c1, today + 1, count + 1);
  }

  /** After a gap of more than one day the load resets the streak to 0. */
  lemma LoadAfterGapResets(st: Store, current: Num, today: int, last: int)
    requires Get(st, LastDateKey) == Some(DayText(last)) && last < today - 1
    ensures OnLoad(st, current, today) == (st[StreakKey := "0"], Int(0))
  {
    IntToStringInjective(last, today);
    ParseDayOfIntToString(last);
    assert DayText(last) != "" by { assert |NatToString(if last < 0 then -last else last)| > 0; }
  }

  /** On the first load of a page (the global still 0) with no stored date, the load
      stores "0". */
  lemma FirstLoadWithoutDateStoresZero(st: Store, today: int)
    requires LastDateKey !in st
    ensures OnLoad(st, Int(0), today) == (st[StreakKey := "0"], Int(0))
  {
  }

  /** The load credits the previous day but does not record today, so a second load on the
      same day credits it again: two loads count two more. */
  lemma ReloadCreditsAgain(st: Store, today: int, count: int)
    requires HoldsCount(st, count) && Get(st, LastDateKey) == Some(DayText(today - 1))
    ensures var (st1, c1) := OnLoad(st, Int(0), today);
      && c1 == Int(count + 1)
      && OnLoad(st1, Int(0), today).1 == Int(count + 2)
  {
    IntToStringInjective(today - 1, today);
    ParseDayOfIntToString(today - 1);
    assert DayText(today - 1) != "" by { assert |NatToString(if today - 1 < 0 then -(today - 1) else today - 1)| > 0; }
    StoredCountOfHolds(st, count);
    var (st1, c1) := OnLoad(st, Int(0), today);
    assert HoldsCount(st1, count + 1);
    StoredCountOfHolds(st1, count + 1);
  }

  /** A load on the day after a completion, followed by a completion that day, counts two
      more: the load credits the carried-over day and the completion credits it again. */
  lemma LoadThenCompleteCountsTwice(st: Store, today: int, count: int)
    requires HoldsCount(st, count) && Get(st, LastDateKey) == Some(DayText(today - 1))
    ensures var (st1, c1) := OnLoad(st, Int(0), today);
      OnComplete(st1, c1, today).1 == Int(count + 2)
  {
    ReloadCreditsAgain(st, today, count);
    var (st1, c1) := OnLoad(st, Int(0), today);
    assert HoldsCount(st1, count + 1);
    IntToStringInjective(today - 1, today);
    CompleteCountsOnePastStored(st1, c1, today, count + 1);
  }
}
