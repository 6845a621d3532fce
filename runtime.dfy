/**
 * The origin's `localStorage`. An item is kept as the JSON value its text
 * parses to; an absent item reads as `{}` (`getItem(key) || '{}'`).
 */
module Storage {
  import opened Wrappers
  import opened Js
  import opened Calendar
  import opened Ledger

  /** The three item names; both clients use the same ones. */
  const MINUTES_KEY := "globe.mvp.minutes"
  const STREAK_KEY := "globe.mvp.streaks"
  const MASTERY_KEY := "globe.mvp.mastery"

  /** The item is absent or holds a JSON object. */
  predicate HoldsObject(items: map<string, Value>, key: string) {
    key !in items || items[key].Obj?
  }

  /** The three stores each hold an object (or nothing yet). */
  predicate WellShaped(items: map<string, Value>) {
    HoldsObject(items, MINUTES_KEY) && HoldsObject(items, STREAK_KEY) && HoldsObject(items, MASTERY_KEY)
  }

  /** `JSON.parse(localStorage.getItem(key) || '{}')` */
  function Dict(items: map<string, Value>, key: string): map<string, Value>
    requires HoldsObject(items, key)
  {
    if key in items then items[key].fields else map[]
  }

  /**
   * The storage content after `n` minutes are credited to the day `today`:
   * `addMinutes(n)` in src/App.jsx and `ProgressStore.add(n)` in app.js
   * read, update and store the minutes dictionary the same way.
   */
  function AfterAddMinutes(items: map<string, Value>, today: Date, n: int): map<string, Value>
    requires HoldsObject(items, MINUTES_KEY)
  {
    items[MINUTES_KEY := Obj(Credit(Dict(items, MINUTES_KEY), Key(today), n))]
  }

  class LocalStorage {
    var items: map<string, Value>

    constructor (initial: map<string, Value>)
      ensures items == initial
    {
      items := initial;
    }

    /** Reads an item as a dictionary. */
    method GetDict(key: string) returns (d: map<string, Value>)
      requires HoldsObject(items, key)
      ensures d == Dict(items, key)
    {
      if key in items {
        d := items[key].fields;
      } else {
        d := map[];
      }
    }

    /** `localStorage.setItem(key, JSON.stringify(v))` */
    method SetItem(key: string, v: Value)
      modifies this
      ensures items == old(items)[key := v]
    {
      items := items[key := v];
    }
  }
}

/**
 * The browser's interval timers: `setInterval` hands out a fresh handle and
 * makes it live, `clearInterval` makes a handle dead (and ignores `null`).
 * Only a live interval's callback ever runs.
 */
module Timers {
  import opened Wrappers

  function Handles(h: Option<nat>): set<nat> {
    if h.Some? then {h.value} else {}
  }

  class Intervals {
    var live: set<nat>
    var issued: nat

    ghost predicate Valid()
      reads this
    {
      forall h :: h in live ==> h < issued
    }

    constructor ()
      ensures Valid() && live == {}
    {
      live, issued := {}, 0;
    }

    /** `setInterval(...)` */
    method Set() returns (h: nat)
      requires Valid()
      modifies this
      ensures Valid()
      ensures h == old(issued) && issued == old(issued) + 1
      ensures h !in old(live) && live == old(live) + {h}
    {
      h := issued;
      live := live + {h};
      issued := issued + 1;
    }

    /** `clearInterval(h)` */
    method Clear(h: Option<nat>)
      requires Valid()
      modifies this
      ensures Valid()
      ensures live == old(live) - Handles(h) && issued == old(issued)
    {
      live := live - Handles(h);
    }
  }
}

/** A story as the clients read it from the feed; only the fields the core uses. */
module Feed {
  import opened Wrappers
  import opened Js

  /**
   * `topic` is `None` when the field is absent; `durationSec` is `None`
   * when it is absent or `null`.
   */
  datatype Story = Story(id: string, topic: Option<string>, durationSec: Option<int>)

  /** `story.durationSec || fallback` */
  function Duration(s: Story, fallback: int): (r: int)
    ensures s.durationSec.Some? && s.durationSec.value != 0 ==> r == s.durationSec.value
    ensures s.durationSec.None? || s.durationSec.value == 0 ==> r == fallback
  {
    if s.durationSec.Some? && s.durationSec.value != 0 then s.durationSec.value else fallback
  }

  /** `Math.max(1, story.durationSec || fallback)`: the countdown's starting value. */
  function InitialSeconds(s: Story, fallback: int): (r: int)
    ensures r >= 1
    ensures Duration(s, fallback) >= 1 ==> r == Duration(s, fallback)
    ensures Duration(s, fallback) < 1 ==> r == 1
  {
    Max(1, Duration(s, fallback))
  }

  /** `Math.ceil(x / 60)` for an integer `x` */
  function CeilMinutes(x: int): (r: int)
    ensures 60 * (r - 1) < x <= 60 * r
  {
    -((-x) / 60)
  }

  /** `Math.ceil((story.durationSec || fallback) / 60)`: the minutes one completion credits. */
  function CreditedMinutes(s: Story, fallback: int): (r: int)
    ensures 60 * (r - 1) < Duration(s, fallback) <= 60 * r
  {
    CeilMinutes(Duration(s, fallback))
  }

  /** A story of one to sixty seconds credits exactly one minute. */
  lemma ShortStoryCreditsOneMinute(s: Story, fallback: int)
    requires 1 <= Duration(s, fallback) <= 60
    ensures CreditedMinutes(s, fallback) == 1
  {
  }
}
