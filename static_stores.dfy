/**
 * The localStorage stores of the static client (app.js): `ProgressStore`
 * (minutes per day and the daily streak) and `MasteryStore` (completions
 * per topic). Each store is an object over the shared `localStorage`; its
 * getter parses an item, its setter stores a dictionary back. `today` is
 * the UTC calendar date that `dateKey()` reads from `new Date()`.
 */
module StaticStores {
  import opened Wrappers
  import opened Js
  import opened Calendar
  import opened Storage
  import opened Feed
  import opened Ledger

  // ---- minutes per day ----

  /** `today()`: today's entry, or 0 when it is missing or falsy. */
  function TodayMinutes(items: map<string, Value>, today: Date): (r: Value)
    requires HoldsObject(items, MINUTES_KEY)
    ensures IsCount(Dict(items, MINUTES_KEY), Key(today)) ==> r == Num(CountAt(Dict(items, MINUTES_KEY), Key(today)))
    ensures Key(today) !in Dict(items, MINUTES_KEY) ==> r == Num(0)
  {
    Or(Get(Dict(items, MINUTES_KEY), Key(today)), Num(0))
  }

  /**
   * After `add(mins)`, `today()` reads `max(0, old + mins)`; the entries of
   * other days and the other stores are as they were.
   */
  lemma TodayAfterAdd(items: map<string, Value>, today: Date, mins: int, other: Date)
    requires HoldsObject(items, MINUTES_KEY)
    requires IsCount(Dict(items, MINUTES_KEY), Key(today))
    requires Key(other) != Key(today)
    ensures var after := AfterAddMinutes(items, today, mins);
      && HoldsObject(after, MINUTES_KEY)
      && TodayMinutes(after, today) == Num(Max(0, CountAt(Dict(items, MINUTES_KEY), Key(today)) + mins))
      && TodayMinutes(after, other) == TodayMinutes(items, other)
      && (forall k :: k in items && k != MINUTES_KEY ==> k in after && after[k] == items[k])
  {
    CreditEffect(Dict(items, MINUTES_KEY), Key(today), mins);
  }

  /** `add` called once per credit, all on the same day. */
  function AfterAddAll(items: map<string, Value>, today: Date, credits: seq<int>): (r: map<string, Value>)
    requires HoldsObject(items, MINUTES_KEY)
    ensures HoldsObject(r, MINUTES_KEY)
    ensures forall k :: k in items && k != MINUTES_KEY ==> k in r && r[k] == items[k]
    decreases |credits|
  {
    if credits == [] then items
    else AfterAddAll(AfterAddMinutes(items, today, credits[0]), today, credits[1..])
  }

  /** The minutes dictionary after a run of `add` calls is the dictionary with all credits applied in turn. */
  lemma {:induction false} AddAllIsCreditAll(items: map<string, Value>, today: Date, credits: seq<int>)
    requires HoldsObject(items, MINUTES_KEY)
    ensures Dict(AfterAddAll(items, today, credits), MINUTES_KEY) == CreditAll(Dict(items, MINUTES_KEY), Key(today), credits)
    decreases |credits|
  {
    if credits != [] {
      AddAllIsCreditAll(AfterAddMinutes(items, today, credits[0]), today, credits[1..]);
    }
  }

  /**
   * With non-negative credits, today's entry never decreases and ends up
   * as the old count plus the sum of the credits; other days keep their entries.
   */
  lemma AddAllSum(items: map<string, Value>, today: Date, credits: seq<int>)
    requires HoldsObject(items, MINUTES_KEY)
    requires IsCount(Dict(items, MINUTES_KEY), Key(today)) && CountAt(Dict(items, MINUTES_KEY), Key(today)) >= 0
    requires forall i :: 0 <= i < |credits| ==> credits[i] >= 0
    ensures var after := Dict(AfterAddAll(items, today, credits), MINUTES_KEY);
      && CountAt(after, Key(today)) == CountAt(Dict(items, MINUTES_KEY), Key(today)) + Sum(credits)
      && CountAt(after, Key(today)) >= CountAt(Dict(items, MINUTES_KEY), Key(today))
      && TodayMinutes(AfterAddAll(items, today, credits), today) == Num(CountAt(after, Key(today)))
      && forall k :: k in Dict(items, MINUTES_KEY) && k != Key(today) ==> k in after && after[k] == Dict(items, MINUTES_KEY)[k]
  {
    AddAllIsCreditAll(items, today, credits);
    CreditAllSum(Dict(items, MINUTES_KEY), Key(today), credits);
  }

  // ---- streak ----

  /** `streakCount()`: the stored streak, or 0 when there is none. */
  function StreakCount(items: map<string, Value>): (r: Value)
    requires HoldsObject(items, STREAK_KEY)
    ensures IsCount(Dict(items, STREAK_KEY), "streak") ==> r == Num(CountAt(Dict(items, STREAK_KEY), "streak"))
  {
    Or(Get(Dict(items, STREAK_KEY), "streak"), Num(0))
  }

  /** The record was last seen on `today`: `lastSeen === dateKey()`. */
  predicate SeenToday(s: map<string, Value>, today: Date) {
    Get(s, "lastSeen") == Some(Str(Key(today)))
  }

  /**
   * The streak `bumpStreakIfNewDay()` writes on a new day: one more than the
   * stored streak (missing counting as 0) when `lastSeen` is yesterday's
   * key, and 1 in every other case.
   */
  function NextStreak(s: map<string, Value>, today: Date): (r: Value)
    requires IsValid(today)
    ensures IsCount(s, "streak") && CountAt(s, "streak") >= 0 ==> r.Num? && r.n >= 1
  {
    if Get(s, "lastSeen") == Some(Str(Key(Previous(today)))) then Plus(Or(Get(s, "streak"), Num(0)), 1)
    else Num(1)
  }

  /** The streak item after `bumpStreakIfNewDay()`: kept as it was when seen today, else the new record. */
  function BumpedRecord(s: map<string, Value>, today: Date): Value
    requires IsValid(today)
  {
    if SeenToday(s, today) then Obj(s)
    else Obj(map["lastSeen" := Str(Key(today)), "streak" := NextStreak(s, today)])
  }

  /** The storage content after `bumpStreakIfNewDay()`. */
  function AfterBumpStreak(items: map<string, Value>, today: Date): (r: map<string, Value>)
    requires IsValid(today) && HoldsObject(items, STREAK_KEY)
    ensures HoldsObject(r, STREAK_KEY) && r.Keys == items.Keys + {STREAK_KEY}
  {
    items[STREAK_KEY := BumpedRecord(Dict(items, STREAK_KEY), today)]
  }

  /** The bump leaves every other item exactly as it was. */
  lemma BumpTouchesOnlyStreak(items: map<string, Value>, today: Date)
    requires IsValid(today) && HoldsObject(items, STREAK_KEY)
    ensures var r := AfterBumpStreak(items, today);
      forall k :: k in items && k != STREAK_KEY ==> k in r && r[k] == items[k]
  {
  }

  /** Seen today already: the store is left exactly as it was. */
  lemma SameDayNoWrite(items: map<string, Value>, today: Date)
    requires IsValid(today) && HoldsObject(items, STREAK_KEY)
    requires SeenToday(Dict(items, STREAK_KEY), today)
    ensures AfterBumpStreak(items, today) == items
  {
    assert STREAK_KEY in items && items[STREAK_KEY] == Obj(Dict(items, STREAK_KEY));
  }

  /** On a new day the record becomes `{lastSeen: today, streak}` with the streak of `NextStreak`. */
  lemma NewDayRecord(items: map<string, Value>, today: Date)
    requires IsValid(today) && HoldsObject(items, STREAK_KEY)
    requires !SeenToday(Dict(items, STREAK_KEY), today)
    ensures var after := Dict(AfterBumpStreak(items, today), STREAK_KEY);
      && SeenToday(after, today)
      && Get(after, "streak") == Some(NextStreak(Dict(items, STREAK_KEY), today))
      && after.Keys == {"lastSeen", "streak"}
  {
  }

  /** Any number of calls on the same day leave what the first call left. */
  lemma StreakIdempotent(items: map<string, Value>, today: Date)
    requires IsValid(today) && HoldsObject(items, STREAK_KEY)
    ensures AfterBumpStreak(AfterBumpStreak(items, today), today) == AfterBumpStreak(items, today)
  {
    var once := AfterBumpStreak(items, today);
    if !SeenToday(Dict(items, STREAK_KEY), today) {
      NewDayRecord(items, today);
    }
    SameDayNoWrite(once, today);
  }

  /** Seen yesterday: a stored streak of `k` (or none, counting as 0) becomes `k + 1`. */
  lemma StreakAfterYesterday(items: map<string, Value>, today: Date)
    requires IsValid(today) && HoldsObject(items, STREAK_KEY)
    requires Get(Dict(items, STREAK_KEY), "lastSeen") == Some(Str(Key(Previous(today))))
    requires IsCount(Dict(items, STREAK_KEY), "streak")
    ensures StreakCount(AfterBumpStreak(items, today)) == Num(CountAt(Dict(items, STREAK_KEY), "streak") + 1)
  {
    PreviousDistinctKey(today);
  }

  /** The day before has a different key, whatever the year's width: its day of the month differs. */
  lemma PreviousDistinctKey(today: Date)
    requires IsValid(today)
    ensures Key(Previous(today)) != Key(today)
  {
    var p := Previous(today);
    PreviousIsDayBefore(today);
    assert p.day != today.day;
    KeyEndsWithDay(p);
    KeyEndsWithDay(today);
    TwoDigits(p.day);
    TwoDigits(today.day);
    assert p.day == 10 * (p.day / 10) + p.day % 10;
    assert today.day == 10 * (today.day / 10) + today.day % 10;
    assert Pad2(p.day) != Pad2(today.day);
  }

  /** A streak record the client wrote itself yields a streak of at least 1 after a bump. */
  lemma StreakPositive(items: map<string, Value>, today: Date)
    requires IsValid(today) && HoldsObject(items, STREAK_KEY)
    requires IsCount(Dict(items, STREAK_KEY), "streak") && CountAt(Dict(items, STREAK_KEY), "streak") >= 1
    ensures var after := AfterBumpStreak(items, today);
      IsCount(Dict(after, STREAK_KEY), "streak") && CountAt(Dict(after, STREAK_KEY), "streak") >= 1
  {
  }

  // ---- mastery ----

  /**
   * `m[story.topic]`: the property name a story's topic becomes. An absent
   * topic is coerced to the name "undefined"; there is no default topic.
   */
  function TopicKey(story: Story): (t: string)
    ensures story.topic.Some? ==> t == story.topic.value
  {
    if story.topic.Some? then story.topic.value else "undefined"
  }

  function AfterIncrement(items: map<string, Value>, story: Story): map<string, Value>
    requires HoldsObject(items, MASTERY_KEY)
  {
    items[MASTERY_KEY := Obj(Bump(Dict(items, MASTERY_KEY), TopicKey(story)))]
  }

  /** `MasteryStore.level(topic)` on the storage content. */
  function LevelIn(items: map<string, Value>, topic: string): (r: Number)
    requires HoldsObject(items, MASTERY_KEY)
    ensures IsCount(Dict(items, MASTERY_KEY), topic) ==>
      r == Finite(LevelOfCount(CountAt(Dict(items, MASTERY_KEY), topic)))
    ensures topic !in Dict(items, MASTERY_KEY) ==> r == Finite(1)
  {
    Level(Dict(items, MASTERY_KEY), topic)
  }

  /**
   * `increment(story)` adds exactly one to the count under the story's
   * topic and changes no other topic and no other store.
   */
  lemma IncrementEffect(items: map<string, Value>, story: Story)
    requires HoldsObject(items, MASTERY_KEY)
    requires IsCount(Dict(items, MASTERY_KEY), TopicKey(story))
    ensures var after := AfterIncrement(items, story);
      && HoldsObject(after, MASTERY_KEY)
      && Dict(after, MASTERY_KEY).Keys == Dict(items, MASTERY_KEY).Keys + {TopicKey(story)}
      && CountAt(Dict(after, MASTERY_KEY), TopicKey(story)) == CountAt(Dict(items, MASTERY_KEY), TopicKey(story)) + 1
      && (forall t :: t in Dict(items, MASTERY_KEY) && t != TopicKey(story) ==>
            Dict(after, MASTERY_KEY)[t] == Dict(items, MASTERY_KEY)[t])
      && (forall k :: k in items && k != MASTERY_KEY ==> k in after && after[k] == items[k])
  {
    BumpEffect(Dict(items, MASTERY_KEY), TopicKey(story));
  }

  // ---- the store objects ----

  /** `ProgressStore` */
  class ProgressStore {
    const storage: LocalStorage

    constructor (storage: LocalStorage)
      ensures this.storage == storage
    {
      this.storage := storage;
    }

    /** `add(mins)` */
    method Add(today: Date, mins: int)
      requires HoldsObject(storage.items, MINUTES_KEY)
      modifies storage
      ensures storage.items == AfterAddMinutes(old(storage.items), today, mins)
    {
      var key := Key(today);
      var dict := storage.GetDict(MINUTES_KEY);
      dict := dict[key := Stored(MathMax(0, Plus(Or(Get(dict, key), Num(0)), mins)))];
      storage.SetItem(MINUTES_KEY, Obj(dict));
    }

    /** `today()` */
    method Today(today: Date) returns (r: Value)
      requires HoldsObject(storage.items, MINUTES_KEY)
      ensures r == TodayMinutes(storage.items, today)
    {
      var dict := storage.GetDict(MINUTES_KEY);
      r := Or(Get(dict, Key(today)), Num(0));
    }

    /** `streakCount()` */
    method GetStreakCount() returns (r: Value)
      requires HoldsObject(storage.items, STREAK_KEY)
      ensures r == StreakCount(storage.items)
    {
      var s := storage.GetDict(STREAK_KEY);
      r := Or(Get(s, "streak"), Num(0));
    }

    /** `bumpStreakIfNewDay()` */
    method BumpStreakIfNewDay(today: Date)
      requires IsValid(today) && HoldsObject(storage.items, STREAK_KEY)
      modifies storage
      ensures storage.items == AfterBumpStreak(old(storage.items), today)
    {
      var s := storage.GetDict(STREAK_KEY);
      var todayKey := Key(today);
      var yesterday := Key(Previous(today));
      var lastSeen := Get(s, "lastSeen");
      if lastSeen == Some(Str(todayKey)) {
        SameDayNoWrite(storage.items, today);
        return;
      }
      var streak := if lastSeen == Some(Str(yesterday)) then Plus(Or(Get(s, "streak"), Num(0)), 1) else Num(1);
      storage.SetItem(STREAK_KEY, Obj(map["lastSeen" := Str(todayKey), "streak" := streak]));
    }
  }

  /** `MasteryStore` */
  class MasteryStore {
    const storage: LocalStorage

    constructor (storage: LocalStorage)
      ensures this.storage == storage
    {
      this.storage := storage;
    }

    /** `level(topic)`: a read that changes nothing. */
    method GetLevel(topic: string) returns (r: Number)
      requires HoldsObject(storage.items, MASTERY_KEY)
      ensures r == LevelIn(storage.items, topic)
      ensures r.Finite? ==> r.n >= 1
    {
      var m := storage.GetDict(MASTERY_KEY);
      var c := Or(Get(m, topic), Num(0));
      r := match ToNumber(c)
        case Finite(n) => Finite(Max(1, 1 + n / 5))
        case NaN => NaN;
    }

    /** `increment(story)` */
    method Increment(story: Story)
      requires HoldsObject(storage.items, MASTERY_KEY)
      modifies storage
      ensures storage.items == AfterIncrement(old(storage.items), story)
    {
      var m := storage.GetDict(MASTERY_KEY);
      var t := if story.topic.Some? then story.topic.value else "undefined";
      m := m[t := Plus(Or(Get(m, t), Num(0)), 1)];
      storage.SetItem(MASTERY_KEY, Obj(m));
    }
  }

  // ---- the progress ring ----

  /** `100 * Math.min(1, todayMinutes / goal)` */
  function MinutesToPercent(todayMinutes: real, goal: real): (r: real)
    requires goal != 0.0
    ensures r <= 100.0
    ensures todayMinutes / goal >= 1.0 ==> r == 100.0
    ensures todayMinutes / goal < 1.0 ==> r == 100.0 * todayMinutes / goal
    ensures todayMinutes >= 0.0 && goal > 0.0 ==> r >= 0.0
  {
    100.0 * (if todayMinutes / goal < 1.0 then todayMinutes / goal else 1.0)
  }

  /** More minutes never shrink the ring. */
  lemma PercentMonotone(m1: real, m2: real, goal: real)
    requires goal > 0.0 && m1 <= m2
    ensures MinutesToPercent(m1, goal) <= MinutesToPercent(m2, goal)
  {
    assert m1 / goal <= m2 / goal;
  }
}
