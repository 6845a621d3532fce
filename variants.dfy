/**
 * How the two clients' streak rules relate. src/App.jsx compares the
 * rounded day distance to the last-seen day; app.js compares the last-seen
 * key with the keys of today and yesterday. On the keys either client
 * writes, the two rules agree on every new day and on the records they
 * write themselves.
 */
module Variants {
  import opened Wrappers
  import opened Js
  import opened Calendar
  import opened Storage
  import ReactStores
  import StaticStores

  /**
   * Last seen on an earlier or later day than today: both clients compute
   * the same new streak, one more the day after and 1 otherwise.
   */
  lemma NewDayStreaksAgree(s: map<string, Value>, today: Date, last: Date)
    requires IsValid(today) && HasFourDigitYear(today) && HasFourDigitYear(Previous(today))
    requires IsValid(last) && HasFourDigitYear(last)
    requires Get(s, "lastSeen") == Some(Str(Key(last))) && last != today
    ensures ReactStores.NextStreak(s, today) == StaticStores.NextStreak(s, today)
  {
    ReactStores.StreakRule(s, today, last);
    PreviousIsDayBefore(today);
    var yesterday := Previous(today);
    if DayNumber(today) - DayNumber(last) == 0 {
      DayNumberInjective(today, last);
    }
    if DayNumber(today) - DayNumber(last) == 1 {
      DayNumberInjective(last, yesterday);
    }
    if Key(last) == Key(yesterday) {
      KeyInjective(last, yesterday);
    }
  }

  /**
   * A record written today by either client (`{lastSeen: today, streak: k}`
   * with `k >= 1`): a further same-day call leaves storage unchanged in
   * both, although only src/App.jsx writes it back.
   */
  lemma SameDayRecordKept(items: map<string, Value>, today: Date, k: int)
    requires IsValid(today) && HasFourDigitYear(today)
    requires STREAK_KEY in items && items[STREAK_KEY] == Obj(map["lastSeen" := Str(Key(today)), "streak" := Num(k)])
    requires k >= 1
    ensures ReactStores.AfterBumpStreak(items, today) == items
    ensures StaticStores.AfterBumpStreak(items, today) == items
  {
    var s := Dict(items, STREAK_KEY);
    ReactStores.StreakRule(s, today, today);
    assert s["lastSeen"] == Str(Key(today));
    assert items[STREAK_KEY := items[STREAK_KEY]] == items;
  }
}
