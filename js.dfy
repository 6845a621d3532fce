module Wrappers {
  datatype Option<+T> = None | Some(value: T)
}

/**
 * The fragment of JavaScript value semantics that the two clients' store
 * code relies on: JSON values as `JSON.parse` returns them (arrays aside), truthiness and
 * `||`, `+` with a number on the right, conversion to a number, `Math.max`,
 * and the JSON round trip of a number (NaN is written as `null`).
 *
 * Numbers are integers here; none of the store code produces a fraction.
 */
module Js {
  import opened Wrappers

  datatype Value =
    | Null
    | Bool(b: bool)
    | Num(n: int)
    | Str(s: string)
    | Obj(fields: map<string, Value>)

  /** A JavaScript number that is either an integer or NaN. */
  datatype Number = Finite(n: int) | NaN

  /** Property access `o[k]` on a parsed object; `None` stands for `undefined`. */
  function Get(o: map<string, Value>, k: string): Option<Value> {
    if k in o then Some(o[k]) else None
  }

  /** ECMAScript ToBoolean; `undefined` is falsy. */
  predicate Truthy(v: Option<Value>) {
    match v
    case None => false
    case Some(Null) => false
    case Some(Bool(b)) => b
    case Some(Num(n)) => n != 0
    case Some(Str(s)) => s != ""
    case Some(Obj(_)) => true
  }

  /** `v || d` */
  function Or(v: Option<Value>, d: Value): (r: Value)
    ensures Truthy(v) ==> Some(r) == v
    ensures !Truthy(v) ==> r == d
  {
    if Truthy(v) then v.value else d
  }

  predicate IsDigit(c: char) {
    '0' <= c <= '9'
  }

  function DigitChar(d: int): (c: char)
    requires 0 <= d <= 9
    ensures IsDigit(c)
  {
    ('0' as int + d) as char
  }

  function DigitValue(c: char): int {
    c as int - '0' as int
  }

  /** Decimal notation of a natural number, most significant digit first. */
  function NatToString(n: nat): string
    decreases n
  {
    if n < 10 then [DigitChar(n)] else NatToString(n / 10) + [DigitChar(n % 10)]
  }

  /** `String(n)` for an integer `n`. */
  function IntToString(n: int): string {
    if n < 0 then "-" + NatToString(-n) else NatToString(n)
  }

  predicate AllDigits(s: string) {
    forall i :: 0 <= i < |s| ==> IsDigit(s[i])
  }

  /** The value of a string of decimal digits. */
  function DigitsValue(s: string): int
    decreases |s|
  {
    if s == [] then 0 else 10 * DigitsValue(s[..|s| - 1]) + DigitValue(s[|s| - 1])
  }

  /** An optionally signed decimal integer literal, or `None`. */
  function ParseInt(s: string): Option<int> {
    if |s| > 0 && (s[0] == '-' || s[0] == '+') then
      var body := s[1..];
      if body != [] && AllDigits(body) then
        Some(if s[0] == '-' then -DigitsValue(body) else DigitsValue(body))
      else None
    else if s != [] && AllDigits(s) then Some(DigitsValue(s))
    else None
  }

  lemma {:induction false} NatToStringDigits(n: nat)
    ensures NatToString(n) != [] && AllDigits(NatToString(n))
    ensures DigitsValue(NatToString(n)) == n
    decreases n
  {
    if n >= 10 {
      NatToStringDigits(n / 10);
      var s := NatToString(n);
      assert s[..|s| - 1] == NatToString(n / 10);
    }
  }

  /** `String` and the decimal reading of a string are inverse on integers. */
  lemma IntToStringRoundTrip(n: int)
    ensures ParseInt(IntToString(n)) == Some(n)
  {
    if n < 0 {
      NatToStringDigits(-n);
      assert IntToString(n)[1..] == NatToString(-n);
    } else {
      NatToStringDigits(n);
    }
  }

  /** ECMAScript ToNumber, for strings restricted to "" and decimal integer literals. */
  function ToNumber(v: Value): (r: Number)
    ensures v.Num? ==> r == Finite(v.n)
    ensures v.Obj? ==> r == NaN
  {
    match v
    case Null => Finite(0)
    case Bool(b) => Finite(if b then 1 else 0)
    case Num(n) => Finite(n)
    case Str(s) =>
      if s == "" then Finite(0)
      else (match ParseInt(s)
        case Some(k) => Finite(k)
        case None => NaN)
    case Obj(_) => NaN
  }

  /** `v + n`: numeric addition, or string concatenation for strings and objects. */
  function Plus(v: Value, n: int): Value {
    match v
    case Null => Num(n)
    case Bool(b) => Num((if b then 1 else 0) + n)
    case Num(a) => Num(a + n)
    case Str(s) => Str(s + IntToString(n))
    case Obj(_) => Str("[object Object]" + IntToString(n))
  }

  function Max(a: int, b: int): int {
    if a < b then b else a
  }

  /** `Math.max(a, v)` */
  function MathMax(a: int, v: Value): (r: Number)
    ensures r.NaN? <==> ToNumber(v).NaN?
    ensures ToNumber(v).Finite? ==> r == Finite(if ToNumber(v).n < a then a else ToNumber(v).n)
    ensures r.Finite? ==> r.n >= a && (r.n == a || Finite(r.n) == ToNumber(v))
  {
    match ToNumber(v)
    case Finite(k) => Finite(Max(a, k))
    case NaN => NaN
  }

  /** What `JSON.parse(JSON.stringify(x))` gives back for a number. */
  function Stored(x: Number): Value {
    match x
    case Finite(k) => Num(k)
    case NaN => Null
  }

  function Pow10(k: nat): (r: nat)
    ensures r >= 1 && (k >= 1 ==> r >= 10)
  {
    if k == 0 then 1 else 10 * Pow10(k - 1)
  }

  /** A string of digits has a non-negative value. */
  lemma {:induction false} DigitsNonNegative(s: string)
    requires AllDigits(s)
    ensures DigitsValue(s) >= 0
    decreases |s|
  {
    if s != [] {
      DigitsNonNegative(s[..|s| - 1]);
    }
  }

  /** The value of `a + b` is the value of `a` shifted left by the length of `b`, plus the value of `b`. */
  lemma {:induction false} DigitsAppend(a: string, b: string)
    ensures DigitsValue(a + b) == DigitsValue(a) * Pow10(|b|) + DigitsValue(b)
    decreases |b|
  {
    if b == [] {
      assert a + b == a;
    } else {
      var init := b[..|b| - 1];
      DigitsAppend(a, init);
      assert (a + b)[..|a + b| - 1] == a + init;
      assert (a + b)[|a + b| - 1] == b[|b| - 1];
      var x, y := DigitsValue(a), Pow10(|init|);
      assert 10 * (x * y) == x * (10 * y);
    }
  }

  /** A non-empty digit string converts to its value. */
  lemma DigitStringNumber(t: string)
    requires t != [] && AllDigits(t)
    ensures ToNumber(Str(t)) == Finite(DigitsValue(t))
  {
    assert IsDigit(t[0]);
  }

  lemma {:induction false} ConcatDigits(a: string, b: string)
    requires AllDigits(a) && AllDigits(b)
    ensures AllDigits(a + b)
  {
    var t := a + b;
    forall i | 0 <= i < |t|
      ensures IsDigit(t[i])
    {
      if i < |a| {
        assert t[i] == a[i];
      } else {
        assert t[i] == b[i - |a|];
      }
    }
  }

  lemma ShiftedExceeds(k: int, p: int, n: int)
    requires k >= 0 && p >= 10 && n >= 0
    ensures k * p + n >= 0
    ensures k > 0 ==> k * p + n != k + n
  {
    assert k * p >= k * 10;
  }

  /**
   * Adding a number to a non-empty digit string appends the number's
   * digits: the string `s` of value `k` plus `n >= 0` reads back as
   * `k * 10^|String(n)| + n`, which is never `k + n` unless `k` is 0.
   */
  lemma PlusNumericString(s: string, n: nat)
    requires s != [] && AllDigits(s)
    ensures Plus(Str(s), n) == Str(s + NatToString(n))
    ensures ToNumber(Plus(Str(s), n)) == Finite(DigitsValue(s) * Pow10(|NatToString(n)|) + n)
    ensures DigitsValue(s) * Pow10(|NatToString(n)|) + n >= 0
    ensures DigitsValue(s) > 0 ==> ToNumber(Plus(Str(s), n)) != Finite(DigitsValue(s) + n)
  {
    var d := NatToString(n);
    NatToStringDigits(n);
    DigitsNonNegative(s);
    ConcatDigits(s, d);
    DigitStringNumber(s + d);
    DigitsAppend(s, d);
    ShiftedExceeds(DigitsValue(s), Pow10(|d|), n);
  }
}
