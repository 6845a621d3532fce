/**
 * The localStorage helpers of the React client (src/App.jsx): minutes per
 * day, the daily streak and per-topic mastery. `today` is the local
 * calendar date that `todayKey()` reads from `new Date()`.
 *
 * Readers are functions of the storage content `items`; writers are
 * methods that read a dictionary, change one entry and store it back.
 */
module ReactStores {
  import opened Wrappers
  import opened Js
  import opened Calendar
  import opened Storage
  import opened Feed
  import opened Ledger

  const MS_PER_DAY := 86400000
  /** The largest time value a JavaScript `Date` holds. */
  const MAX_TIME := 8640000000000000
  /** The mastery topic of a story without one. */
  const GENERAL := "General"

  // ---- minutes per day ----

  /** `minutesToday()`: today's entry when it is a number, otherwise 0. */
  function MinutesToday(items: map<string, Value>, today: Date): (r: int)
    requires HoldsObject(items, MINUTES_KEY)
    ensures r == CountAt(Dict(items, MINUTES_KEY), Key(today))
  {
    var mins := Or(Get(Dict(items, MINUTES_KEY), Key(today)), Num(0));
    if mins.Num? then mins.n else 0
  }

  /** `addMinutes(n = 1)` */
  method AddMinutes(ls: LocalStorage, today: Date, n: int := 1)
    requires HoldsObject(ls.items, MINUTES_KEY)
    modifies ls
    ensures ls.items == AfterAddMinutes(old(ls.items), today, n)
  {
    var dict := ls.GetDict(MINUTES_KEY);
    var key := Key(today);
    dict := dict[key := Stored(MathMax(0, Plus(Or(Get(dict, key), Num(0)), n)))];
    ls.SetItem(MINUTES_KEY, Obj(dict));
  }

  /**
   * After `addMinutes(n)`, `minutesToday()` reads `max(0, old + n)`; the
   * entries of other days and the other stores are as they were.
   */
  lemma MinutesAfterAdd(items: map<string, Value>, today: Date, n: int, other: Date)
    requires HoldsObject(items, MINUTES_KEY)
    requires IsCount(Dict(items, MINUTES_KEY), Key(today))
    requires Key(other) != Key(today)
    ensures var after := AfterAddMinutes(items, today, n);
      && HoldsObject(after, MINUTES_KEY)
      && MinutesToday(after, today) == Max(0, MinutesToday(items, today) + n)
      && MinutesToday(after, other) == MinutesToday(items, other)
      && (forall k :: k in items && k != MINUTES_KEY ==> k in after && after[k] == items[k])
  {
    CreditEffect(Dict(items, MINUTES_KEY), Key(today), n);
  }

  // ---- streak ----

  /**
   * `new Date(v)` as milliseconds since the epoch, `None` for an invalid
   * date. A string is read as a date-only `YYYY-MM-DD` at UTC midnight.
   */
  function TimeValue(v: Value): Option<int> {
    match v
    case Str(s) => (match ParseKey(s)
      case Some(d) => Some(DayNumber(d) * MS_PER_DAY)
      case None => None)
    case Num(n) => if -MAX_TIME <= n <= MAX_TIME then Some(n) else None
    case Bool(b) => Some(if b then 1 else 0)
    case Null => Some(0)
    case Obj(_) => None
  }

  /** `Math.round((new Date(today) - new Date(last)) / 86400000)` */
  function DayDiff(last: Value, today: Date): Number {
    RoundedDays(TimeValue(Str(Key(today))), TimeValue(last))
  }

  /** `Math.round((t - y) / 86400000)`, `NaN` when either date is invalid. */
  function RoundedDays(t: Option<int>, y: Option<int>): Number {
    if t.Some? && y.Some? then Finite((t.value - y.value + MS_PER_DAY / 2) / MS_PER_DAY) else NaN
  }

  /** Between two keys the rounded difference is the calendar distance in days. */
  lemma DayDiffOfKeys(d: Date, today: Date)
    requires IsValid(d) && HasFourDigitYear(d)
    requires IsValid(today) && HasFourDigitYear(today)
    ensures DayDiff(Str(Key(d)), today) == Finite(DayNumber(today) - DayNumber(d))
  {
    TimeValueOfKey(d);
    TimeValueOfKey(today);
    RoundWholeDays(DayNumber(today), DayNumber(d));
  }

  /** `new Date(key)` is the key's date at UTC midnight. */
  lemma TimeValueOfKey(d: Date)
    requires IsValid(d) && HasFourDigitYear(d)
    ensures TimeValue(Str(Key(d))) == Some(DayNumber(d) * MS_PER_DAY)
  {
    KeyRoundTrip(d);
  }

  /** Two midnights `a - b` days apart round to exactly `a - b` days. */
  lemma RoundWholeDays(a: int, b: int)
    ensures RoundedDays(Some(a * MS_PER_DAY), Some(b * MS_PER_DAY)) == Finite(a - b)
  {
    assert a * MS_PER_DAY - b * MS_PER_DAY + MS_PER_DAY / 2 == (a - b) * MS_PER_DAY + 43200000;
  }

  /** The streak `bumpStreakIfNewDay()` computes from the stored record `s`. */
  function NextStreak(s: map<string, Value>, today: Date): Value {
    var last := Get(s, "lastSeen");
    if !Truthy(last) then Num(1)
    else
      var diff := DayDiff(last.value, today);
      if diff == Finite(0) then Or(Get(s, "streak"), Num(1))
      else if diff == Finite(1) then Plus(Or(Get(s, "streak"), Num(0)), 1)
      else Num(1)
  }

  function StreakRecord(today: Date, streak: Value): Value {
    Obj(map["lastSeen" := Str(Key(today)), "streak" := streak])
  }

  /** The storage content after `bumpStreakIfNewDay()`. */
  function AfterBumpStreak(items: map<string, Value>, today: Date): map<string, Value>
    requires HoldsObject(items, STREAK_KEY)
  {
    items[STREAK_KEY := StreakRecord(today, NextStreak(Dict(items, STREAK_KEY), today))]
  }

  /** `bumpStreakIfNewDay()`: always writes `{lastSeen: today, streak: next}` and returns `next`. */
  method BumpStreakIfNewDay(ls: LocalStorage, today: Date) returns (next: Value)
    requires HoldsObject(ls.items, STREAK_KEY)
    modifies ls
    ensures next == NextStreak(Dict(old(ls.items), STREAK_KEY), today)
    ensures ls.items == AfterBumpStreak(old(ls.items), today)
  {
    var s := ls.GetDict(STREAK_KEY);
    var last := Get(s, "lastSeen");
    next := Num(1);
    if Truthy(last) {
      var diff := DayDiff(last.value, today);
      if diff == Finite(0) {
        next := Or(Get(s, "streak"), Num(1));
      } else if diff == Finite(1) {
        next := Plus(Or(Get(s, "streak"), Num(0)), 1);
      } else {
        next := Num(1);
      }
    }
    ls.SetItem(STREAK_KEY, StreakRecord(today, next));
  }

  /** Without a last-seen day the streak starts at 1. */
  lemma StreakWithoutRecord(s: map<string, Value>, today: Date)
    requires !Truthy(Get(s, "lastSeen"))
    ensures NextStreak(s, today) == Num(1)
  {
  }

  /**
   * With a last-seen key the streak follows the calendar distance: kept
   * (1 if missing) on the same day, one more (a missing streak counting
   * as 0) the day after, and 1 after a gap or for a last-seen day in the future.
   */
  lemma StreakRule(s: map<string, Value>, today: Date, last: Date)
    requires IsValid(last) && HasFourDigitYear(last)
    requires IsValid(today) && HasFourDigitYear(today)
    requires Get(s, "lastSeen") == Some(Str(Key(last)))
    ensures var distance := DayNumber(today) - DayNumber(last);
      NextStreak(s, today) ==
        if distance == 0 then Or(Get(s, "streak"), Num(1))
        else if distance == 1 then Plus(Or(Get(s, "streak"), Num(0)), 1)
        else Num(1)
  {
    KeyShape(last);
    DayDiffOfKeys(last, today);
  }

  /** Seen yesterday: a stored streak of `k` (or none, counting as 0) becomes `k + 1`. */
  lemma StreakAfterYesterday(s: map<string, Value>, today: Date)
    requires IsValid(today) && HasFourDigitYear(today) && HasFourDigitYear(Previous(today))
    requires Get(s, "lastSeen") == Some(Str(Key(Previous(today))))
    requires IsCount(s, "streak")
    ensures NextStreak(s, today) == Num(CountAt(s, "streak") + 1)
  {
    PreviousIsDayBefore(today);
    StreakRule(s, today, Previous(today));
    assert DayNumber(today) - DayNumber(Previous(today)) == 1;
    NextCount(s, "streak");
  }

  /** `(s[key] || 0) + 1` on a count entry is one more than the count. */
  lemma NextCount(s: map<string, Value>, key: string)
    requires IsCount(s, key)
    ensures Plus(Or(Get(s, key), Num(0)), 1) == Num(CountAt(s, key) + 1)
  {
  }

  /** A record the client wrote itself (streak absent or a non-negative number) yields a streak of at least 1. */
  lemma StreakPositive(s: map<string, Value>, today: Date)
    requires IsCount(s, "streak") && CountAt(s, "streak") >= 0
    ensures NextStreak(s, today).Num? && NextStreak(s, today).n >= 1
  {
  }

  /**
   * Calling `bumpStreakIfNewDay()` a second time on the same day returns
   * the same streak and writes the same record: no double increment.
   */
  lemma StreakIdempotent(items: map<string, Value>, today: Date)
    requires IsValid(today) && HasFourDigitYear(today)
    requires HoldsObject(items, STREAK_KEY)
    requires Truthy(Some(NextStreak(Dict(items, STREAK_KEY), today)))
    ensures var once := AfterBumpStreak(items, today);
      && HoldsObject(once, STREAK_KEY)
      && NextStreak(Dict(once, STREAK_KEY), today) == NextStreak(Dict(items, STREAK_KEY), today)
      && AfterBumpStreak(once, today) == once
  {
    var once := AfterBumpStreak(items, today);
    StreakRule(Dict(once, STREAK_KEY), today, today);
  }

  /** `streakCount()`: the stored streak, or 1. */
  function StreakCount(items: map<string, Value>): (r: Value)
    requires HoldsObject(items, STREAK_KEY)
    ensures Truthy(Some(r))
    ensures Truthy(Get(Dict(items, STREAK_KEY), "streak")) ==> Some(r) == Get(Dict(items, STREAK_KEY), "streak")
    ensures !Truthy(Get(Dict(items, STREAK_KEY), "streak")) ==> r == Num(1)
  {
    Or(Get(Dict(items, STREAK_KEY), "streak"), Num(1))
  }

  /** Right after a bump, `streakCount()` shows the streak the bump returned. */
  lemma StreakCountAfterBump(items: map<string, Value>, today: Date)
    requires HoldsObject(items, STREAK_KEY)
    requires IsCount(Dict(items, STREAK_KEY), "streak") && CountAt(Dict(items, STREAK_KEY), "streak") >= 0
    ensures StreakCount(AfterBumpStreak(items, today)) == NextStreak(Dict(items, STREAK_KEY), today)
  {
    StreakPositive(Dict(items, STREAK_KEY), today);
  }

  // ---- mastery ----

  /** `story.topic || 'General'` */
  function TopicOf(story: Story): (t: string)
    ensures story.topic.Some? && story.topic.value != "" ==> t == story.topic.value
    ensures story.topic.None? || story.topic.value == "" ==> t == GENERAL
  {
    if story.topic.Some? && story.topic.value != "" then story.topic.value else GENERAL
  }

  function AfterMasteryIncrement(items: map<string, Value>, story: Story): map<string, Value>
    requires HoldsObject(items, MASTERY_KEY)
  {
    items[MASTERY_KEY := Obj(Bump(Dict(items, MASTERY_KEY), TopicOf(story)))]
  }

  /** `masteryIncrement(story)` */
  method MasteryIncrement(ls: LocalStorage, story: Story)
    requires HoldsObject(ls.items, MASTERY_KEY)
    modifies ls
    ensures ls.items == AfterMasteryIncrement(old(ls.items), story)
  {
    var dict := ls.GetDict(MASTERY_KEY);
    var t := if story.topic.Some? && story.topic.value != "" then story.topic.value else GENERAL;
    dict := dict[t := Plus(Or(Get(dict, t), Num(0)), 1)];
    ls.SetItem(MASTERY_KEY, Obj(dict));
  }

  /** `masteryLevel(topic)`; a pure read of the mastery store. */
  function MasteryLevel(items: map<string, Value>, topic: string): (r: Number)
    requires HoldsObject(items, MASTERY_KEY)
    ensures IsCount(Dict(items, MASTERY_KEY), topic) ==>
      r == Finite(LevelOfCount(CountAt(Dict(items, MASTERY_KEY), topic)))
  {
    Level(Dict(items, MASTERY_KEY), topic)
  }

  /**
   * `masteryIncrement` adds exactly one to the story's topic ('General'
   * when empty or absent); every other topic keeps its count and its level.
   */
  lemma MasteryIncrementEffect(items: map<string, Value>, story: Story, other: string)
    requires HoldsObject(items, MASTERY_KEY)
    requires IsCount(Dict(items, MASTERY_KEY), TopicOf(story))
    requires other != TopicOf(story)
    ensures var after := AfterMasteryIncrement(items, story);
      && HoldsObject(after, MASTERY_KEY)
      && IsCount(Dict(after, MASTERY_KEY), TopicOf(story))
      && CountAt(Dict(after, MASTERY_KEY), TopicOf(story)) == CountAt(Dict(items, MASTERY_KEY), TopicOf(story)) + 1
      && Get(Dict(after, MASTERY_KEY), other) == Get(Dict(items, MASTERY_KEY), other)
      && MasteryLevel(after, other) == MasteryLevel(items, other)
  {
    BumpEffect(Dict(items, MASTERY_KEY), TopicOf(story));
  }
}
