/**
 * The dictionary updates and the level formula that src/App.jsx and app.js
 * write identically: crediting minutes to a day, counting one completion
 * for a topic, and the mastery level of a count.
 */
module Ledger {
  import opened Wrappers
  import opened Js

  /** The entry is absent or a number: a count as the clients themselves write it. */
  predicate IsCount(dict: map<string, Value>, key: string) {
    key !in dict || dict[key].Num?
  }

  /** The numeric value of a count entry, absent counting as 0. */
  function CountAt(dict: map<string, Value>, key: string): int {
    if key in dict && dict[key].Num? then dict[key].n else 0
  }

  /** `dict[key] = Math.max(0, (dict[key] || 0) + n)`, after the JSON round trip. */
  function Credit(dict: map<string, Value>, key: string, n: int): map<string, Value> {
    dict[key := Stored(MathMax(0, Plus(Or(Get(dict, key), Num(0)), n)))]
  }

  /** Crediting sets the day's entry to `max(0, old + n)` and touches no other day. */
  lemma CreditEffect(dict: map<string, Value>, key: string, n: int)
    ensures Credit(dict, key, n).Keys == dict.Keys + {key}
    ensures forall k :: k in dict && k != key ==> Credit(dict, key, n)[k] == dict[k]
    ensures IsCount(dict, key) ==>
      Credit(dict, key, n)[key] == Num(Max(0, CountAt(dict, key) + n))
  {
  }

  /** Whatever the entry held before, a credit leaves a number or `null` (NaN), never negative. */
  lemma CreditNeverNegative(dict: map<string, Value>, key: string, n: int)
    ensures var v := Credit(dict, key, n)[key];
      (v.Num? && v.n >= 0) || v.Null?
  {
  }

  /**
   * A day whose entry is a non-empty digit string (written by hand or by
   * another program): `+` appends the credit's digits instead of adding,
   * so a credit of `n` to the string of value `k > 0` never stores `k + n`.
   */
  lemma CreditDigitString(dict: map<string, Value>, key: string, digits: string, n: nat)
    requires key in dict && dict[key] == Str(digits) && digits != [] && AllDigits(digits)
    ensures Credit(dict, key, n)[key] == Num(DigitsValue(digits) * Pow10(|NatToString(n)|) + n)
    ensures DigitsValue(digits) > 0 ==> Credit(dict, key, n)[key] != Num(DigitsValue(digits) + n)
  {
    PlusNumericString(digits, n);
  }

  function Sum(xs: seq<int>): int {
    if xs == [] then 0 else xs[0] + Sum(xs[1..])
  }

  /** Credits applied one after another to the same day. */
  function CreditAll(dict: map<string, Value>, key: string, credits: seq<int>): map<string, Value>
    decreases |credits|
  {
    if credits == [] then dict else CreditAll(Credit(dict, key, credits[0]), key, credits[1..])
  }

  /**
   * With non-negative credits on a non-negative count the day's entry ends
   * up as the count plus the sum of the credits, no other day changes, and
   * the entry never decreases along the way.
   */
  lemma {:induction false} CreditAllSum(dict: map<string, Value>, key: string, credits: seq<int>)
    requires IsCount(dict, key) && CountAt(dict, key) >= 0
    requires forall i :: 0 <= i < |credits| ==> credits[i] >= 0
    ensures IsCount(CreditAll(dict, key, credits), key)
    ensures CountAt(CreditAll(dict, key, credits), key) == CountAt(dict, key) + Sum(credits)
    ensures CountAt(CreditAll(dict, key, credits), key) >= CountAt(dict, key)
    ensures forall k :: k in dict && k != key ==> k in CreditAll(dict, key, credits) && CreditAll(dict, key, credits)[k] == dict[k]
    decreases |credits|
  {
    if credits != [] {
      var next := Credit(dict, key, credits[0]);
      CreditEffect(dict, key, credits[0]);
      CreditAllSum(next, key, credits[1..]);
    }
  }

  /** `dict[key] = (dict[key] || 0) + 1` */
  function Bump(dict: map<string, Value>, key: string): map<string, Value> {
    dict[key := Plus(Or(Get(dict, key), Num(0)), 1)]
  }

  /** A completion adds exactly one to its topic's count and leaves every other topic alone. */
  lemma BumpEffect(dict: map<string, Value>, key: string)
    ensures Bump(dict, key).Keys == dict.Keys + {key}
    ensures forall k :: k in dict && k != key ==> Bump(dict, key)[k] == dict[k]
    ensures IsCount(dict, key) ==> IsCount(Bump(dict, key), key) && CountAt(Bump(dict, key), key) == CountAt(dict, key) + 1
  {
  }

  /** `Math.max(1, 1 + Math.floor(c / 5))` with `c = dict[topic] || 0` */
  function Level(dict: map<string, Value>, topic: string): (r: Number)
    ensures r.NaN? <==> ToNumber(Or(Get(dict, topic), Num(0))).NaN?
    ensures r.Finite? ==> r.n >= 1
  {
    match ToNumber(Or(Get(dict, topic), Num(0)))
    case Finite(c) => Finite(Max(1, 1 + c / 5))
    case NaN => NaN
  }

  /** The level of a count: one more than the completed blocks of five, and at least 1. */
  function LevelOfCount(c: int): (r: int)
    ensures r >= 1
    ensures c >= 0 ==> 5 * (r - 1) <= c < 5 * r
    ensures c < 5 ==> r == 1
  {
    Max(1, 1 + c / 5)
  }

  /** On a count entry the level is the level of the count; a missing topic is at level 1. */
  lemma LevelOfEntry(dict: map<string, Value>, topic: string)
    requires IsCount(dict, topic)
    ensures Level(dict, topic) == Finite(LevelOfCount(CountAt(dict, topic)))
    ensures topic !in dict ==> Level(dict, topic) == Finite(1)
  {
  }

  /** Counts 0-4 are level 1, 5-9 level 2, 10-14 level 3. */
  lemma LevelThresholds(c: int)
    requires 0 <= c < 15
    ensures LevelOfCount(c) == if c < 5 then 1 else if c < 10 then 2 else 3
  {
  }

  /** The level never falls as the count grows. */
  lemma LevelMonotone(c1: int, c2: int)
    requires c1 <= c2
    ensures LevelOfCount(c1) <= LevelOfCount(c2)
  {
    assert c1 / 5 <= c2 / 5;
  }

  /** One more completion raises the level by one exactly when the count reaches a multiple of five. */
  lemma LevelAfterBump(dict: map<string, Value>, key: string)
    requires IsCount(dict, key) && CountAt(dict, key) >= 0
    ensures var before, after := Level(dict, key), Level(Bump(dict, key), key);
      before.Finite? && after.Finite? &&
      after.n == if (CountAt(dict, key) + 1) % 5 == 0 then before.n + 1 else before.n
  {
    BumpEffect(dict, key);
    LevelOfEntry(dict, key);
    LevelOfEntry(Bump(dict, key), key);
    BlockStep(CountAt(dict, key));
  }

  /** Counting one more completes a new block of five exactly at a multiple of five. */
  lemma BlockStep(c: int)
    ensures (c + 1) / 5 - c / 5 == if (c + 1) % 5 == 0 then 1 else 0
  {
  }
}
