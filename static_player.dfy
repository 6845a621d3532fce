/**
 * The playback state of the static client (app.js): the module variables
 * `index`, `secondsLeft` and `timer`, the loaded stories, the auto-advance
 * checkbox, and the functions `select`, `startTimer` and `completeCurrent`
 * that update them. Each page event (a tick of the live interval, a click
 * on a row, the Next button, a change of the checkbox) is one method.
 */
module StaticPlayer {
  import opened Wrappers
  import opened Js
  import opened Calendar
  import opened Storage
  import opened Timers
  import opened Feed
  import opened Ledger
  import opened StaticStores

  /** The duration this client assumes for a story without one. */
  const DEFAULT_SECONDS := 20

  /**
   * The storage content after one `completeCurrent()`: the topic counted,
   * the minutes credited, the streak bumped, in that order.
   */
  function AfterCompletion(items: map<string, Value>, story: Story, today: Date): (r: map<string, Value>)
    requires IsValid(today) && WellShaped(items)
    ensures WellShaped(r)
  {
    var counted := AfterIncrement(items, story);
    assert HoldsObject(counted, MINUTES_KEY);
    var credited := AfterAddMinutes(counted, today, CreditedMinutes(story, DEFAULT_SECONDS));
    assert HoldsObject(credited, STREAK_KEY);
    AfterBumpStreak(credited, today)
  }

  /**
   * One completion counts the story's topic once, credits its minutes
   * once and bumps the streak exactly as a lone `bumpStreakIfNewDay()` would.
   */
  lemma CompletionEffect(items: map<string, Value>, story: Story, today: Date)
    requires IsValid(today) && WellShaped(items)
    requires IsCount(Dict(items, MASTERY_KEY), TopicKey(story))
    requires IsCount(Dict(items, MINUTES_KEY), Key(today))
    ensures var after := AfterCompletion(items, story, today);
      && CountAt(Dict(after, MASTERY_KEY), TopicKey(story)) == CountAt(Dict(items, MASTERY_KEY), TopicKey(story)) + 1
      && TodayMinutes(after, today)
           == Num(Max(0, CountAt(Dict(items, MINUTES_KEY), Key(today)) + CreditedMinutes(story, DEFAULT_SECONDS)))
      && Get(after, STREAK_KEY) == Get(AfterBumpStreak(items, today), STREAK_KEY)
  {
    var counted := AfterIncrement(items, story);
    IncrementEffect(items, story);
    assert Dict(counted, MINUTES_KEY) == Dict(items, MINUTES_KEY);
    var credited := AfterAddMinutes(counted, today, CreditedMinutes(story, DEFAULT_SECONDS));
    CreditEffect(Dict(counted, MINUTES_KEY), Key(today), CreditedMinutes(story, DEFAULT_SECONDS));
    assert Dict(credited, STREAK_KEY) == Dict(items, STREAK_KEY);
  }

  /** A completed story of 20 seconds or no duration credits one minute. */
  lemma DefaultStoryCreditsOneMinute(story: Story)
    requires story.durationSec.None? || story.durationSec == Some(0) || story.durationSec == Some(20)
    ensures CreditedMinutes(story, DEFAULT_SECONDS) == 1
  {
    ShortStoryCreditsOneMinute(story, DEFAULT_SECONDS);
  }

  /** `(index + 1) % feed.stories.length`: the next story, wrapping from the last to the first. */
  function NextIndex(i: int, length: int): (r: int)
    requires 0 <= i < length
    ensures 0 <= r < length
    ensures r == if i == length - 1 then 0 else i + 1
  {
    (i + 1) % length
  }

  class Page {
    const storage: LocalStorage
    const progress: ProgressStore
    const mastery: MasteryStore
    const intervals: Intervals
    /** `feed.stories`, set once by `loadFeed()` before anything is selected. */
    const stories: seq<Story>
    var index: int
    var secondsLeft: int
    var timer: Option<nat>
    /** The `#autoAdvance` checkbox. */
    var autoAdvance: bool

    /** What holds at every point of an event, the countdown and the timer aside. */
    ghost predicate Consistent()
      reads this, storage, intervals
    {
      && progress.storage == storage && mastery.storage == storage
      && intervals.Valid()
      && WellShaped(storage.items)
      && |stories| >= 1
      && 0 <= index < |stories|
    }

    /**
     * Between events: the countdown is positive, and exactly one interval
     * is live (the one in `timer`) when auto-advance is on, none when it is off.
     */
    ghost predicate Valid()
      reads this, storage, intervals
    {
      && Consistent()
      && secondsLeft >= 1
      && (autoAdvance ==> timer.Some? && intervals.live == {timer.value})
      && (!autoAdvance ==> intervals.live == {})
    }

    /** The timer was just armed (when auto-advance is on) with a handle issued after the first `issuedBefore`. */
    ghost predicate Armed(issuedBefore: nat)
      reads this, intervals
    {
      autoAdvance ==> timer.Some? && timer.value >= issuedBefore
    }

    /**
     * `main()` once the feed has loaded: the list is rendered, the ring
     * read, and the first story selected. Nothing is written to storage.
     */
    constructor (storage: LocalStorage, stories: seq<Story>, autoAdvance: bool)
      requires WellShaped(storage.items) && |stories| >= 1
      ensures Valid() && fresh(intervals)
      ensures this.storage == storage && this.stories == stories && this.autoAdvance == autoAdvance
      ensures index == 0 && secondsLeft == InitialSeconds(stories[0], DEFAULT_SECONDS)
      ensures storage.items == old(storage.items)
    {
      this.storage := storage;
      progress := new ProgressStore(storage);
      mastery := new MasteryStore(storage);
      intervals := new Intervals();
      this.stories := stories;
      index, secondsLeft, timer := 0, 0, None;
      this.autoAdvance := autoAdvance;
      new;
      Select(0);
    }

    /** `startTimer()`: clear the current interval, then arm a new one only if auto-advance is on. */
    method StartTimer()
      requires intervals.Valid() && intervals.live <= Handles(timer)
      modifies this`timer, intervals
      ensures intervals.Valid()
      ensures autoAdvance ==> timer.Some? && intervals.live == {timer.value} && timer.value >= old(intervals.issued)
      ensures !autoAdvance ==> intervals.live == {} && timer == old(timer)
    {
      intervals.Clear(timer);
      if !autoAdvance {
        return;
      }
      var h := intervals.Set();
      timer := Some(h);
    }

    /** `select(i, fromAuto)`: show story `i`, restart its countdown and the timer. */
    method Select(i: int)
      requires Consistent() && intervals.live <= Handles(timer)
      requires 0 <= i < |stories|
      modifies this`index, this`secondsLeft, this`timer, intervals
      ensures Valid() && Armed(old(intervals.issued))
      ensures index == i && secondsLeft == InitialSeconds(stories[i], DEFAULT_SECONDS)
    {
      index := i;
      var s := stories[index];
      secondsLeft := Max(1, Duration(s, DEFAULT_SECONDS));
      StartTimer();
    }

    /**
     * `completeCurrent()` (also the Next button): clear the timer, count the
     * story, credit its minutes, bump the streak and select the next story.
     */
    method CompleteCurrent(today: Date)
      requires Consistent() && intervals.live <= Handles(timer) && IsValid(today)
      modifies this`index, this`secondsLeft, this`timer, intervals, storage
      ensures Valid() && Armed(old(intervals.issued))
      ensures storage.items == AfterCompletion(old(storage.items), stories[old(index)], today)
      ensures index == NextIndex(old(index), |stories|)
      ensures secondsLeft == InitialSeconds(stories[index], DEFAULT_SECONDS)
    {
      intervals.Clear(timer);
      var s := stories[index];
      ghost var items := storage.items;
      mastery.Increment(s);
      ghost var counted := AfterIncrement(items, s);
      assert storage.items == counted && WellShaped(counted);
      progress.Add(today, CeilMinutes(Duration(s, DEFAULT_SECONDS)));
      ghost var credited := AfterAddMinutes(counted, today, CreditedMinutes(s, DEFAULT_SECONDS));
      assert storage.items == credited && WellShaped(credited);
      progress.BumpStreakIfNewDay(today);
      assert storage.items == AfterCompletion(items, s, today);
      var next := NextIndex(index, |stories|);
      Select(next);
    }

    /**
     * One run of the live interval's callback: count down by one; the tick
     * that reaches 0 completes the current story once and starts the next.
     */
    method Tick(today: Date)
      requires Valid() && autoAdvance && IsValid(today)
      modifies this`index, this`secondsLeft, this`timer, intervals, storage
      ensures Valid()
      ensures old(secondsLeft) > 1 ==>
        && secondsLeft == old(secondsLeft) - 1 && index == old(index)
        && timer == old(timer) && intervals.live == old(intervals.live)
        && storage.items == old(storage.items)
      ensures old(secondsLeft) <= 1 ==>
        && storage.items == AfterCompletion(old(storage.items), stories[old(index)], today)
        && index == NextIndex(old(index), |stories|)
        && secondsLeft == InitialSeconds(stories[index], DEFAULT_SECONDS)
        && old(timer.value) !in intervals.live
        && timer.Some? && intervals.live == {timer.value}
    {
      secondsLeft := secondsLeft - 1;
      if secondsLeft <= 0 {
        CompleteCurrent(today);
      }
    }

    /** Clicking row `i` of the list. */
    method ClickRow(i: int)
      requires Valid() && 0 <= i < |stories|
      modifies this`index, this`secondsLeft, this`timer, intervals
      ensures Valid() && Armed(old(intervals.issued))
      ensures index == i && secondsLeft == InitialSeconds(stories[i], DEFAULT_SECONDS)
      ensures autoAdvance && old(timer).Some? ==> old(timer).value !in intervals.live
    {
      Select(i);
    }

    /** The checkbox changes: `startTimer()` with the new setting. */
    method ToggleAutoAdvance(checked: bool)
      requires Valid()
      modifies this`autoAdvance, this`timer, intervals
      ensures Valid() && Armed(old(intervals.issued))
      ensures autoAdvance == checked && index == old(index) && secondsLeft == old(secondsLeft)
      ensures old(autoAdvance) ==> old(timer.value) !in intervals.live
    {
      autoAdvance := checked;
      StartTimer();
    }
  }
}
