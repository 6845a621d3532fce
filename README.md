# Globe Brief: stores and playback, modelled in Dafny

Globe Brief is a daily news-briefing client, written twice: as a React
component (`src/App.jsx`) and as a static page script (`app.js`). Both keep
three stores in the browser's `localStorage`:

- minutes read per day, keyed by a `YYYY-MM-DD` day key;
- a daily streak record `{lastSeen, streak}`;
- a completion count per topic, from which a mastery level is derived.

Both also run a playback engine. It shows one story at a time and counts
down the story's duration. At zero, or when Next is pressed, it completes
the story: it counts the topic, credits the minutes and moves to the next
story, wrapping from the last story to the first.

This project models both variants and proves what they promise.

- `js.dfy`: the JSON values the stores hold, and the JavaScript coercions
  the source relies on (`||`, `+` on numbers and strings, `Math.max`,
  `NaN` stored as `null`), plus integer-to-decimal formatting.
- `calendar.dfy`: dates, day numbers since 1970-01-01, the day key and
  its parser.
- `runtime.dfy`: `localStorage` as a class over a map, and the interval
  timers as a class over a set of live handles. It also holds the story
  record and the duration and minute rules; each client's default
  duration is `DEFAULT_SECONDS` in its player file.
- `ledger.dfy`: the dictionary updates and the level formula, which both
  variants write identically.
- `react_stores.dfy` and `react_player.dfy`: the React client. The
  component's state, `timerRef` and the timer effect form a class. Each
  user or timer event is a method that ends with React's commit step.
- `static_stores.dfy` and `static_player.dfy`: the static client.
  `ProgressStore`, `MasteryStore` and the page's module state are classes.
- `variants.dfy`: how the two streak rules relate.

The clock is a parameter: each operation that reads "today" takes the
calendar date. `src/App.jsx` reads local-time fields and `app.js` reads UTC
fields; the model does not distinguish the two. Numbers are integers;
`NaN` is explicit where a coercion can produce it. The daily progress
ring's percentage (minutes read today against the daily goal) is modelled
over reals.

The two clients differ:

| rule | src/App.jsx | app.js |
|---|---|---|
| streak bumped | once, when mounted | on every completion |
| same-day streak call | writes the kept streak back | returns without writing |
| streak shown when absent | 1 | 0 |
| topic of a story without one | `General` | the property name `undefined` |
| default duration | 15 s | 20 s |
| between completions | the timer effect re-arms only when `story?.id` changes | `select` always re-arms (when auto-advance is on) |

Because of the last rule, the React client stops after one automatic
completion in a one-story feed. That includes its own fallback feed. The
completion re-selects the same story, so the effect does not run again: no
interval is live and the countdown shows 0. `ReactPlayer.Player.Tick`
states this case.

## Model

| member | source | states |
|---|---|---|
| Js.Or | src/App.jsx:20 | `v \|\| d` is `v` when `v` is truthy and `d` otherwise |
| Js.ToNumber | src/App.jsx:63-64 | a number coerces to itself and an object to `NaN` |
| Js.MathMax | src/App.jsx:27 | `Math.max(a, v)` is `NaN` exactly when `v` does not coerce to a number, and otherwise the larger of `a` and the coerced value |
| Js.Plus | src/App.jsx:27 | (definition, no ensures) `v + n`: numeric addition for `null`, booleans and numbers, concatenation of `String(n)` for strings and objects; its effect on digit strings is Js.PlusNumericString |
| Js.IntToStringRoundTrip | src/App.jsx:12-15 | reading back the decimal text `String(n)` gives `n`, for every integer |
| Js.PlusNumericString | src/App.jsx:27 | for every non-empty digit string `s` of value `k` and `n >= 0`, `s + n` is the string `s` followed by the digits of `n`, which reads back as `k * 10^len(String(n)) + n` and never as `k + n` when `k > 0` |
| Calendar.DayNumber | src/App.jsx:37-40 | (definition, no ensures) the days from 1970-01-01 to a valid date: days of the earlier years, of the earlier months, and of the month so far; its properties are Calendar.PreviousIsDayBefore and Calendar.DayNumberInjective |
| Calendar.Previous | app.js:37 | (definition, no ensures) the calendar day before a valid date, rolling back over month and year ends with the month lengths of `DaysInMonth`; Calendar.PreviousIsDayBefore proves it is valid and one day number earlier |
| Calendar.Key | src/App.jsx:10-16 | (definition, no ensures) the year, `-`, the month and `-`, the day, month and day zero-padded to two digits; the same text as `dateKey` (app.js:13-18); its layout, round trip and injectivity are Calendar.KeyShape, Calendar.KeyRoundTrip and Calendar.KeyInjective |
| Calendar.ParseKey | src/App.jsx:37-38 | `new Date(key)` accepts only a valid `YYYY-MM-DD` date and yields a valid date with a year of at most four digits |
| Calendar.KeyShape | src/App.jsx:10-16 | the key of a date with a four-digit year is ten characters: four year digits, `-`, two month digits, `-`, two day digits, zero-padded |
| Calendar.KeyRoundTrip | app.js:13-18 | parsing a date's key gives back the date |
| Calendar.ParseKeyInverse | src/App.jsx:37-38 | every string the date parser accepts with a four-digit year is the key of the date it yields |
| Calendar.KeyInjective | src/App.jsx:10-16 | distinct dates with four-digit years have distinct keys |
| Calendar.PreviousIsDayBefore | app.js:37 | yesterday is a valid date exactly one day number earlier |
| Calendar.DayNumberInjective | src/App.jsx:37-40 | distinct valid dates have distinct day numbers |
| Storage.LocalStorage.GetDict | src/App.jsx:19 | reads the item as a dictionary, `{}` when absent |
| Storage.LocalStorage.SetItem | src/App.jsx:28 | storing an item replaces it and changes no other item |
| Timers.Intervals.Set | app.js:139 | `setInterval` returns a handle never handed out before, and it becomes live |
| Timers.Intervals.Clear | app.js:137 | `clearInterval` kills the given handle and ignores `null` |
| Feed.InitialSeconds | src/App.jsx:113 | the countdown starts at the story's duration (or the default) when that is at least 1, and at 1 otherwise |
| Feed.CreditedMinutes | src/App.jsx:130 | the credited minutes are the duration divided by 60, rounded up |
| Feed.ShortStoryCreditsOneMinute | src/App.jsx:130 | a story of 1 to 60 seconds credits exactly one minute |
| Ledger.Credit | src/App.jsx:27 | (definition, no ensures) `dict[key] = Math.max(0, (dict[key] \|\| 0) + n)` after the JSON round trip, also app.js:26; its effect is Ledger.CreditEffect, Ledger.CreditNeverNegative and Ledger.CreditDigitString |
| Ledger.CreditDigitString | src/App.jsx:27 | a day whose entry is a non-empty digit string of value `k` gets `k * 10^len(String(n)) + n` from a credit of `n >= 0`, never `k + n` when `k > 0` |
| Ledger.CreditEffect | src/App.jsx:24-29 | crediting sets the day's entry to `max(0, old + n)` and changes no other day |
| Ledger.CreditNeverNegative | src/App.jsx:27 | whatever the entry held, a credit leaves a non-negative number or `null` |
| Ledger.CreditAllSum | app.js:23-28 | with non-negative credits, the day's entry is the old count plus the sum of the credits, never decreases, and other days keep their entries |
| Ledger.BumpEffect | src/App.jsx:54-59 | counting a completion adds exactly one to that topic and leaves every other topic alone |
| Ledger.Bump | src/App.jsx:57 | (definition, no ensures) `dict[key] = (dict[key] \|\| 0) + 1`, also app.js:55; its effect is Ledger.BumpEffect |
| Ledger.Level | src/App.jsx:63-64 | `Math.max(1, 1 + Math.floor(c / 5))` of the entry `c`, also app.js:50-51: `NaN` exactly when the entry does not coerce to a number, otherwise at least 1 |
| Ledger.LevelOfCount | src/App.jsx:61-65 | the level is at least 1, is 1 below five completions, and is one more than the completed blocks of five |
| Ledger.LevelOfEntry | app.js:48-52 | on a count entry the level is the level of the count, and a missing topic is at level 1 |
| Ledger.LevelThresholds | src/App.jsx:61-65 | counts 0-4 give level 1, 5-9 level 2, 10-14 level 3 |
| Ledger.LevelMonotone | src/App.jsx:61-65 | the level never falls as the count grows |
| Ledger.LevelAfterBump | src/App.jsx:54-65 | one more completion raises the level by one exactly when the new count is a multiple of five |
| ReactStores.MinutesToday | src/App.jsx:18-22 | `minutesToday()` is today's entry when it is a number, else 0 |
| ReactStores.AddMinutes | src/App.jsx:24-29 | `addMinutes(n)` stores today's credited dictionary and nothing else |
| ReactStores.MinutesAfterAdd | src/App.jsx:18-29 | after `addMinutes(n)`, `minutesToday()` reads `max(0, old + n)`; other days and other stores are unchanged |
| ReactStores.TimeValue | src/App.jsx:37-38 | (definition, no ensures) `new Date(v)` as a number: a key string gives its date's UTC midnight, a number in the time range itself, `true` 1 and `null` 0, and anything else `NaN`; on keys it is stated by ReactStores.TimeValueOfKey |
| ReactStores.DayDiff | src/App.jsx:37-40 | (definition, no ensures) `Math.round((new Date(today) - new Date(last)) / 86400000)`, `NaN` when either date is invalid; on keys it is stated by ReactStores.DayDiffOfKeys |
| ReactStores.NextStreak | src/App.jsx:34-44 | (definition, no ensures) the streak `bumpStreakIfNewDay` computes: 1 without a truthy `lastSeen`, `s.streak \|\| 1` at day distance 0, `(s.streak \|\| 0) + 1` at distance 1, and 1 otherwise; stated by ReactStores.StreakWithoutRecord, ReactStores.StreakRule and ReactStores.StreakPositive |
| ReactStores.TimeValueOfKey | src/App.jsx:37-38 | `new Date(key)` of a key is its date's UTC midnight in milliseconds |
| ReactStores.DayDiffOfKeys | src/App.jsx:37-40 | the rounded difference of two keys' timestamps is their distance in day numbers |
| ReactStores.BumpStreakIfNewDay | src/App.jsx:31-47 | always writes `{lastSeen: today, streak: next}` and returns `next` |
| ReactStores.StreakWithoutRecord | src/App.jsx:34-36 | without a last-seen day the streak is 1 |
| ReactStores.StreakRule | src/App.jsx:35-46 | with a last-seen key: distance 0 keeps the streak (1 if missing), distance 1 adds one to it (missing counts as 0), and any other distance gives 1 |
| ReactStores.StreakAfterYesterday | src/App.jsx:42 | seen yesterday, a stored streak `k` becomes `k + 1` |
| ReactStores.StreakPositive | src/App.jsx:35-46 | on a record the client wrote, the new streak is a number of at least 1 |
| ReactStores.StreakIdempotent | src/App.jsx:41-46 | a second call on the same day returns the same streak and writes the same record |
| ReactStores.StreakCount | src/App.jsx:49-52 | `streakCount()` is the stored streak when it is truthy, and 1 otherwise, so always truthy |
| ReactStores.StreakCountAfterBump | src/App.jsx:45-52 | right after a bump, `streakCount()` shows the streak the bump returned |
| ReactStores.TopicOf | src/App.jsx:56 | a story's topic, or `General` when it is empty or absent |
| ReactStores.MasteryIncrement | src/App.jsx:54-59 | `masteryIncrement` stores the bumped mastery dictionary and nothing else |
| ReactStores.MasteryLevel | src/App.jsx:61-65 | `masteryLevel(topic)` is the level of the stored count, read without writing |
| ReactStores.MasteryIncrementEffect | src/App.jsx:54-65 | one increment adds exactly one to the story's topic; every other topic keeps its count and level |
| ReactPlayer.NextIndex | src/App.jsx:131 | the next index is in range, wraps from the last story to 0, and is 0 while the feed is empty |
| ReactPlayer.AfterCompletion | src/App.jsx:127-133 | a completion keeps the three stores well-formed |
| ReactPlayer.CompletionEffect | src/App.jsx:127-133 | one completion adds one to the topic count, credits the minutes once, and leaves the streak alone |
| ReactPlayer.Player.constructor | src/App.jsx:76-84 | mounting bumps the streak once and arms no interval |
| ReactPlayer.Player.RunTimerEffect | src/App.jsx:110-124 | with a story shown, the effect clears the previous interval, resets the countdown, and arms the only live interval, with a fresh handle and a closure over this story and index; without a story it does nothing |
| ReactPlayer.Player.Commit | src/App.jsx:105-125 | when `story?.id` changed, the old cleanup and then the effect run; otherwise nothing changes |
| ReactPlayer.Player.Complete | src/App.jsx:127-133 | `handleComplete` counts the topic, credits the minutes and sets the next index |
| ReactPlayer.Player.LoadFeed | src/App.jsx:87 | once the feed arrives, the first story's countdown runs on the only live interval |
| ReactPlayer.Player.SelectRow | src/App.jsx:160 | clicking a row selects it; the same story keeps the countdown, the live interval, `timerRef` and the interval's captured story; a different story restarts the countdown on a fresh, single interval |
| ReactPlayer.Player.Tick | src/App.jsx:114-122 | a tick above 1 only decrements, keeping the interval, `timerRef` and the captured story; the tick at 1 or below clears its interval, completes the captured story exactly once and shows 0, or restarts the countdown when a different story follows |
| ReactPlayer.Player.Next | src/App.jsx:181 | Next completes the shown story once (nothing without a story); when the next story is the same one, the countdown, the live interval, `timerRef` and the captured story stay; otherwise the countdown restarts on a fresh, single interval |
| StaticStores.TodayMinutes | app.js:29 | `today()` is today's count, and 0 when the day has no entry |
| StaticStores.TodayAfterAdd | app.js:23-29 | after `add(mins)`, `today()` reads `max(0, old + mins)`; other days and stores are unchanged |
| StaticStores.AfterAddAll | app.js:23-28 | repeated `add` calls change only the minutes store |
| StaticStores.AddAllIsCreditAll | app.js:23-28 | repeated `add` calls apply their credits in turn to the minutes dictionary |
| StaticStores.AddAllSum | app.js:23-29 | with non-negative credits, today's entry is non-decreasing and equals the old count plus the sum; other days are untouched |
| StaticStores.StreakCount | app.js:30-33 | `streakCount()` is the stored streak (0 when missing) |
| StaticStores.NextStreak | app.js:40 | the new-day streak is at least 1 on a record the client wrote |
| StaticStores.BumpedRecord | app.js:38-41 | (definition, no ensures) the streak record after the bump: the old record when `lastSeen` is today, else `{lastSeen: today, streak}`; stated by StaticStores.SameDayNoWrite and StaticStores.NewDayRecord |
| StaticStores.AfterBumpStreak | app.js:34-42 | after the bump the streak item holds an object, and no item is added except the streak item |
| StaticStores.BumpTouchesOnlyStreak | app.js:34-42 | the bump leaves every other item exactly as it was |
| StaticStores.SameDayNoWrite | app.js:38-39 | seen today already: storage is left exactly as it was |
| StaticStores.NewDayRecord | app.js:40-41 | on a new day the record becomes exactly `{lastSeen: today, streak}` |
| StaticStores.StreakIdempotent | app.js:34-42 | repeated same-day calls leave what the first call left |
| StaticStores.StreakAfterYesterday | app.js:37-41 | seen yesterday, the shown streak becomes the stored one plus 1 |
| StaticStores.PreviousDistinctKey | app.js:37-39 | yesterday's key is never today's, so the yesterday branch is reachable |
| StaticStores.StreakPositive | app.js:34-42 | a positive stored streak stays a number of at least 1 after a bump |
| StaticStores.TopicKey | app.js:55 | the story's topic is the property name, with no default |
| StaticStores.LevelIn | app.js:48-52 | the level of the stored count, 1 for a missing topic |
| StaticStores.IncrementEffect | app.js:53-57 | `increment` adds exactly one under the story's topic and changes no other topic and no other store |
| StaticStores.ProgressStore.Add | app.js:23-28 | `add(mins)` credits today's entry in the stored dictionary |
| StaticStores.ProgressStore.Today | app.js:29 | reads today's minutes without writing |
| StaticStores.ProgressStore.GetStreakCount | app.js:30-33 | reads the streak without writing |
| StaticStores.ProgressStore.BumpStreakIfNewDay | app.js:34-42 | writes exactly what the streak rule prescribes, and nothing on a day already seen |
| StaticStores.MasteryStore.GetLevel | app.js:48-52 | the level is at least 1, read without writing |
| StaticStores.MasteryStore.Increment | app.js:53-57 | `increment(story)` stores the bumped mastery dictionary |
| StaticStores.MinutesToPercent | app.js:69 | the percentage is at most 100, exactly 100 once the goal is reached, proportional below it, and non-negative |
| StaticStores.PercentMonotone | app.js:69 | more minutes never shrink the ring |
| StaticPlayer.AfterCompletion | app.js:148-156 | a completion keeps the three stores well-formed |
| StaticPlayer.CompletionEffect | app.js:148-156 | one completion counts the topic once, credits the minutes once, and bumps the streak as one `bumpStreakIfNewDay()` |
| StaticPlayer.DefaultStoryCreditsOneMinute | app.js:154 | a 20-second story, or one without a duration, credits one minute |
| StaticPlayer.NextIndex | app.js:158 | the next index is in range and wraps from the last story to the first |
| StaticPlayer.Page.constructor | app.js:170-174 | the page starts on story 0 with its countdown, writing nothing to storage |
| StaticPlayer.Page.StartTimer | app.js:136-146 | clears the previous interval first, and arms a single fresh one only when auto-advance is on |
| StaticPlayer.Page.Select | app.js:115-134 | stores the index, resets the countdown and restarts the timer |
| StaticPlayer.Page.CompleteCurrent | app.js:148-160 | clears the timer, then counts the topic, credits the minutes, bumps the streak and selects the next story with one live interval |
| StaticPlayer.Page.Tick | app.js:139-145 | each tick decrements; the tick reaching 0 completes the story exactly once, kills the old interval and arms a fresh one |
| StaticPlayer.Page.ClickRow | app.js:110 | clicking a row selects it and replaces the live interval |
| StaticPlayer.Page.ToggleAutoAdvance | app.js:177 | toggling the checkbox leaves one live interval when on and none when off |
| Variants.NewDayStreaksAgree | src/App.jsx:35-46 | on a day other than the last-seen one, both clients compute the same streak |
| Variants.SameDayRecordKept | app.js:39 | on a record written today, a further call changes nothing in either client |

## Left out

- Loading the feed is left out: the fetch, its fallback feed and promise ordering are I/O. The stories are a parameter of `ReactPlayer.Player.LoadFeed` and of the `StaticPlayer.Page` constructor, and the feed's `dailyGoalMinutes` appears only as the `goal` of `MinutesToPercent`.
- Rendering, JSX, the DOM and `console` output are left out. So are the `Ring` component and the minute badges, which only round numbers for display.
- Storage errors are left out. `JSON.parse` on corrupt text throws in the source and is not modelled: the store holds parsed values.
- Storage.Dict: a store item holding JSON that is not an object (for example `null` or `5`) is not modelled. Every member that reads a store requires that the item is absent or an object.
- Js.ToNumber: string-to-number coercion covers only decimal integers and the empty string. Every other string, including fractional, hexadecimal and whitespace-padded ones, gives `NaN`.
- Numbers are integers. Fractional durations, counts and stored values, floating-point rounding, and precision loss beyond 2^53 are not modelled.
- Feed.Story: a story's `durationSec` is an integer or absent, and its `topic` is a string or absent. Absent and `null` are one case, so a `null` topic in app.js becomes the property name "undefined" in the model instead of "null".
- Feed.Story: every story has a string `id`. In src/App.jsx a story without an `id` has the same `story?.id` as no story, so the timer effect would not arm for it (src/App.jsx:105, 125); the model does not cover that.
- Js.Value has no array case. A store entry holding a JSON array is not modelled (in the source `[] || 0` is `[]` and `[] + 1` is the string `"1"`).
- Object keys such as `__proto__` or `toString`, which the source would look up on the prototype, are not treated specially.
- Calendar.ParseKey: `new Date(string)` is modelled for the strict `YYYY-MM-DD` form only. Other strings that engines parse give `NaN`, and years outside 1000-9999 are not covered by the key lemmas.
- Time zones are not modelled. The caller supplies the local (src/App.jsx) or UTC (app.js) date as `today`. app.js's "yesterday" is the previous calendar date, which matches `Date.now() - 24h` in UTC.
- ReactPlayer.Player.Commit: React's scheduling and StrictMode double-invocation are not modelled. A state change and its commit are one atomic step, and an interval callback runs only while its handle is live.
- StaticStores.MinutesToPercent requires `goal != 0`. With a goal of 0 the source gives 100 for positive minutes, `NaN` for 0 minutes and `-Infinity` for negative minutes. Its only caller passes `feed.dailyGoalMinutes || 10` (app.js:165), so a goal of 0 does not reach it from there.
- StaticPlayer.Page.constructor requires at least one story. With an empty list the source throws in `select(0)`.
- `updateStreakAndRing` in app.js only reads the stores and writes to the DOM, so the model omits it.
