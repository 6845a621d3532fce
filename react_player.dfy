/**
 * The playback state of the React client's `App` component (src/App.jsx):
 * the feed, the selected index, the countdown, the interval handle kept in
 * `timerRef`, and the timer effect that React re-runs whenever `story?.id`
 * changes.
 *
 * Each user or timer event is one method; it ends with `Commit`, the
 * render-and-effects step React runs after state changes.
 */
module ReactPlayer {
  import opened Wrappers
  import opened Js
  import opened Calendar
  import opened Storage
  import opened Timers
  import opened Feed
  import ReactStores
  import Ledger

  /** The duration this client assumes for a story without one. */
  const DEFAULT_SECONDS := 15

  /** What the interval callback's closure captured when the effect armed it. */
  datatype Closure = Closure(story: Story, index: int)

  /** The storage content after one completion: the topic counted once, the minutes credited once. */
  function AfterCompletion(items: map<string, Value>, story: Story, today: Date): (r: map<string, Value>)
    requires WellShaped(items)
    ensures WellShaped(r)
  {
    var counted := ReactStores.AfterMasteryIncrement(items, story);
    assert HoldsObject(counted, MINUTES_KEY);
    AfterAddMinutes(counted, today, CreditedMinutes(story, DEFAULT_SECONDS))
  }

  /** `(index + 1) % (feed?.stories?.length || 1)` */
  function NextIndex(i: int, length: int): (r: int)
    requires i >= 0 && length >= 0
    ensures length >= 1 ==> 0 <= r < length
    ensures length >= 1 && i == length - 1 ==> r == 0
    ensures length >= 1 && 0 <= i < length - 1 ==> r == i + 1
    ensures length == 0 ==> r == 0
  {
    (i + 1) % (if length == 0 then 1 else length)
  }

  /** One completion of a story credits its mastery topic and its minutes and nothing else. */
  lemma CompletionEffect(items: map<string, Value>, story: Story, today: Date)
    requires WellShaped(items)
    requires Ledger.IsCount(Dict(items, MASTERY_KEY), ReactStores.TopicOf(story))
    requires Ledger.IsCount(Dict(items, MINUTES_KEY), Key(today))
    ensures var after := AfterCompletion(items, story, today);
      && Ledger.CountAt(Dict(after, MASTERY_KEY), ReactStores.TopicOf(story))
           == Ledger.CountAt(Dict(items, MASTERY_KEY), ReactStores.TopicOf(story)) + 1
      && ReactStores.MinutesToday(after, today)
           == Max(0, ReactStores.MinutesToday(items, today) + CreditedMinutes(story, DEFAULT_SECONDS))
      && Get(after, STREAK_KEY) == Get(items, STREAK_KEY)
  {
    var counted := ReactStores.AfterMasteryIncrement(items, story);
    Ledger.BumpEffect(Dict(items, MASTERY_KEY), ReactStores.TopicOf(story));
    assert Dict(counted, MINUTES_KEY) == Dict(items, MINUTES_KEY);
    Ledger.CreditEffect(Dict(counted, MINUTES_KEY), Key(today), CreditedMinutes(story, DEFAULT_SECONDS));
  }

  class Player {
    const storage: LocalStorage
    const intervals: Intervals
    /** The loaded feed's stories; `None` while loading. */
    var feed: Option<seq<Story>>
    var index: int
    var secondsLeft: int
    /** `timerRef.current` */
    var timerRef: Option<nat>
    /** `story?.id` as of the timer effect's last run. */
    var effectDeps: Option<string>
    /** The timer effect's last run returned its cleanup. */
    var hasCleanup: bool
    /** The closure of the interval the timer effect last armed. */
    var armed: Option<Closure>

    /** `feed?.stories?.[index] ?? null` */
    function CurrentStory(): Option<Story>
      reads this
    {
      if feed.Some? && 0 <= index < |feed.value| then Some(feed.value[index]) else None
    }

    /** `story?.id`, the timer effect's dependency. */
    function StoryId(): Option<string>
      reads this
    {
      if CurrentStory().Some? then Some(CurrentStory().value.id) else None
    }

    function Length(): int
      reads this
    {
      if feed.Some? then |feed.value| else 0
    }

    /** The invariant between events, except that the effect may be behind the render. */
    ghost predicate Consistent()
      reads this, storage, intervals
    {
      && intervals.Valid()
      && WellShaped(storage.items)
      // at most one interval is live, and it is the one in timerRef
      && intervals.live <= Handles(timerRef)
      && (intervals.live != {} ==> hasCleanup && armed.Some? && secondsLeft >= 1)
      && (hasCleanup ==> effectDeps.Some?)
      && 0 <= index
      && (feed.None? ==> index == 0)
      && (Length() >= 1 ==> index < Length())
      && (armed.Some? ==> armed.value.index >= 0)
    }

    ghost predicate Valid()
      reads this, storage, intervals
    {
      Consistent() && effectDeps == StoryId()
    }

    /**
     * The countdown was restarted for the current story with the only live
     * interval, one armed after the first `issuedBefore` handles; or no
     * story is shown and no interval is live.
     */
    ghost predicate Restarted(issuedBefore: nat)
      reads this, intervals
    {
      if CurrentStory().Some? then
        && timerRef.Some? && intervals.live == {timerRef.value} && timerRef.value >= issuedBefore
        && secondsLeft == InitialSeconds(CurrentStory().value, DEFAULT_SECONDS)
        && armed == Some(Closure(CurrentStory().value, index))
      else intervals.live == {}
    }

    /**
     * Mounting the component: the first effect bumps the streak (src/App.jsx:84);
     * the timer effect finds no story and arms nothing.
     */
    constructor (storage: LocalStorage, today: Date)
      requires WellShaped(storage.items)
      modifies storage
      ensures Valid() && fresh(intervals) && this.storage == storage
      ensures storage.items == ReactStores.AfterBumpStreak(old(storage.items), today)
      ensures feed.None? && index == 0 && secondsLeft == 0 && intervals.live == {}
    {
      this.storage := storage;
      intervals := new Intervals();
      feed, index, secondsLeft := None, 0, 0;
      timerRef, effectDeps, hasCleanup, armed := None, None, false, None;
      new;
      var _ := ReactStores.BumpStreakIfNewDay(storage, today);
    }

    /** The timer effect's body (src/App.jsx:111-123). */
    method RunTimerEffect()
      requires intervals.Valid() && intervals.live <= Handles(timerRef)
      modifies this, intervals
      ensures intervals.Valid() && intervals.issued >= old(intervals.issued)
      ensures feed == old(feed) && index == old(index) && effectDeps == old(effectDeps)
      ensures CurrentStory().None? ==>
        && !hasCleanup && intervals.live == old(intervals.live)
        && secondsLeft == old(secondsLeft) && timerRef == old(timerRef) && armed == old(armed)
      ensures CurrentStory().Some? ==> hasCleanup && Restarted(old(intervals.issued))
    {
      var story := CurrentStory();
      if story.None? {
        hasCleanup := false;
        return;
      }
      intervals.Clear(timerRef);
      secondsLeft := InitialSeconds(story.value, DEFAULT_SECONDS);
      var h := intervals.Set();
      timerRef := Some(h);
      armed := Some(Closure(story.value, index));
      hasCleanup := true;
    }

    /** After a render: when `story?.id` changed, the old effect's cleanup runs, then the effect. */
    method Commit()
      requires Consistent()
      modifies this, intervals
      ensures Valid() && intervals.issued >= old(intervals.issued)
      ensures feed == old(feed) && index == old(index)
      ensures StoryId() == old(effectDeps) ==>
        && secondsLeft == old(secondsLeft) && timerRef == old(timerRef)
        && intervals.live == old(intervals.live) && armed == old(armed)
      ensures StoryId() != old(effectDeps) ==> Restarted(old(intervals.issued))
    {
      var deps := StoryId();
      if deps != effectDeps {
        if hasCleanup {
          intervals.Clear(timerRef);
        }
        RunTimerEffect();
        effectDeps := deps;
      }
    }

    /** `handleComplete` with the story, index and feed of the render it belongs to. */
    method Complete(story: Story, i: int, today: Date)
      requires WellShaped(storage.items) && i >= 0
      modifies this`index, storage
      ensures storage.items == AfterCompletion(old(storage.items), story, today)
      ensures index == NextIndex(i, Length())
    {
      ReactStores.MasteryIncrement(storage, story);
      ReactStores.AddMinutes(storage, today, CreditedMinutes(story, DEFAULT_SECONDS));
      index := NextIndex(i, Length());
    }

    /** The feed arrives (or its fallback replaces it) and is set once. */
    method LoadFeed(stories: seq<Story>)
      requires Valid() && feed.None?
      modifies this, intervals
      ensures Valid()
      ensures feed == Some(stories) && index == 0
      ensures Restarted(old(intervals.issued))
    {
      feed := Some(stories);
      Commit();
    }

    /** Clicking a row of the list: `setIndex(i)`. */
    method SelectRow(i: int)
      requires Valid() && feed.Some? && 0 <= i < |feed.value|
      modifies this, intervals
      ensures Valid()
      ensures feed == old(feed) && index == i
      ensures StoryId() == old(StoryId()) ==>
        && secondsLeft == old(secondsLeft) && intervals.live == old(intervals.live)
        && timerRef == old(timerRef) && armed == old(armed)
      ensures StoryId() != old(StoryId()) ==> Restarted(old(intervals.issued))
    {
      index := i;
      Commit();
    }

    /**
     * One run of the interval callback: the functional update of
     * `secondsLeft` (src/App.jsx:114-122). The tick that finds 1 left
     * clears its interval, completes the captured story once and shows 0.
     */
    method Tick(today: Date)
      requires Valid() && timerRef.Some? && timerRef.value in intervals.live
      modifies this, intervals, storage
      ensures Valid() && feed == old(feed)
      ensures old(secondsLeft) > 1 ==>
        && secondsLeft == old(secondsLeft) - 1 && index == old(index)
        && storage.items == old(storage.items)
        && timerRef == old(timerRef) && intervals.live == old(intervals.live) && armed == old(armed)
      ensures old(secondsLeft) <= 1 ==>
        && old(timerRef.value) !in intervals.live
        && storage.items == AfterCompletion(old(storage.items), old(armed.value.story), today)
        && index == NextIndex(old(armed.value.index), Length())
        && (StoryId() == old(StoryId()) ==> intervals.live == {} && secondsLeft == 0)
        && (StoryId() != old(StoryId()) ==> Restarted(old(intervals.issued)))
    {
      var prev := secondsLeft;
      if prev <= 1 {
        intervals.Clear(timerRef);
        Complete(armed.value.story, armed.value.index, today);
        secondsLeft := 0;
        Commit();
      } else {
        secondsLeft := prev - 1;
      }
    }

    /** The "Next" button: `handleComplete` of the current render. */
    method Next(today: Date)
      requires Valid()
      modifies this, intervals, storage
      ensures Valid() && feed == old(feed)
      ensures old(CurrentStory()).None? ==>
        storage.items == old(storage.items) && index == old(index) && intervals.live == old(intervals.live)
      ensures old(CurrentStory()).Some? ==>
        && storage.items == AfterCompletion(old(storage.items), old(CurrentStory()).value, today)
        && index == NextIndex(old(index), Length())
      ensures StoryId() == old(StoryId()) ==>
        && secondsLeft == old(secondsLeft) && intervals.live == old(intervals.live)
        && timerRef == old(timerRef) && armed == old(armed)
      ensures StoryId() != old(StoryId()) ==> Restarted(old(intervals.issued))
    {
      var story := CurrentStory();
      if story.Some? {
        Complete(story.value, index, today);
      }
      Commit();
    }
  }
}
