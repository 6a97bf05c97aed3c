/** The usual optional-value wrapper. */
module Wrappers {
  datatype Option<+T> = None | Some(value: T)
}

/**
 The dynamically typed values that sit in a parameter map, and the three
 JavaScript conversions the search accessors rely on: truthiness (`x || d`),
 `Number(x)` (what `/` and `%` apply to their operands) and `x.toString()`.
 Numbers are integers here; a conversion that JavaScript would answer with
 NaN or with a fraction is `None`.
 */
module JsValues {
  import opened Wrappers
  import opened JsStrings

  datatype Value =
    | Undefined
    | Null
    | Bool(b: bool)
    | Num(n: int)
    | Str(s: string)
    | List(items: seq<string>)                 // an array of strings
    | Dict(entries: map<string, seq<string>>)  // an object whose fields are arrays of strings

  /** `params[name]` on a plain object: a missing key reads as `undefined`. */
  function Lookup(params: map<string, Value>, name: string): (v: Value)
    ensures name in params ==> v == params[name]
    ensures v.Undefined? <==> name !in params || params[name].Undefined?
  {
    if name in params then params[name] else Undefined
  }

  /** JavaScript truthiness: `undefined`, `null`, `false`, `0` and `""` are falsy; arrays and objects never are. */
  predicate Truthy(v: Value)
    ensures !Truthy(v) <==> v == Undefined || v == Null || v == Bool(false) || v == Num(0) || v == Str("")
  {
    match v
    case Undefined => false
    case Null => false
    case Bool(b) => b
    case Num(n) => n != 0
    case Str(s) => s != ""
    case List(_) => true
    case Dict(_) => true
  }

  predicate IsDigit(c: char)
  {
    '0' <= c <= '9'
  }

  predicate AllDigits(s: string)
  {
    forall i :: 0 <= i < |s| ==> IsDigit(s[i])
  }

  /** The value of a string of decimal digits, most significant first. */
  function DigitsValue(s: string): (n: nat)
    requires AllDigits(s)
  {
    if s == [] then 0
    else DigitsValue(s[..|s| - 1]) * 10 + (s[|s| - 1] - '0') as int
  }

  /** The shortest decimal digit string of `n`. */
  function NatDigits(n: nat): (s: string)
    ensures |s| >= 1 && AllDigits(s)
  {
    if n < 10 then ['0' + n as char]
    else NatDigits(n / 10) + ['0' + (n % 10) as char]
  }

  /** `Number(s)` for a string: the empty string is 0, an optionally signed run of digits its value. */
  function StringToInt(s: string): Option<int>
  {
    if s == "" then Some(0)
    else if (s[0] == '-' || s[0] == '+') && |s| > 1 && AllDigits(s[1..]) then
      Some(if s[0] == '-' then 0 - DigitsValue(s[1..]) as int else DigitsValue(s[1..]) as int)
    else if AllDigits(s) then Some(DigitsValue(s))
    else None
  }

  /** `String(n)` for an integer. */
  function IntToString(n: int): string
  {
    if n < 0 then "-" + NatDigits(-n) else NatDigits(n)
  }

  /** `Number(v)`: the integer JavaScript arithmetic sees, or None for NaN. */
  function ToNumber(v: Value): (r: Option<int>)
    ensures v.Undefined? || v.Dict? ==> r.None?
    ensures v == Null || v == Str("") || v == Bool(false) ==> r == Some(0)
    ensures v.Num? ==> r == Some(v.n)
    ensures v.Str? && |v.s| >= 1 && AllDigits(v.s) ==> r == Some(DigitsValue(v.s))
  {
    match v
    case Undefined => None
    case Null => Some(0)
    case Bool(b) => Some(if b then 1 else 0)
    case Num(n) => Some(n)
    case Str(s) => StringToInt(s)
    case List(items) => StringToInt(Join(items, ','))
    case Dict(_) => None
  }

  /** `v.toString()`: None where JavaScript throws a TypeError (`undefined`, `null`). */
  function ToJsString(v: Value): (r: Option<string>)
    ensures r.None? <==> v.Undefined? || v.Null?
    ensures v.Str? ==> r == Some(v.s)
    ensures v.Num? ==> r.Some? && StringToInt(r.value) == Some(v.n)
    ensures v.List? && |v.items| >= 1 && (forall i :: 0 <= i < |v.items| ==> ',' !in v.items[i]) ==>
              r.Some? && Split(r.value, ',') == v.items
  {
    match v
    case Undefined => None
    case Null => None
    case Bool(b) => Some(if b then "true" else "false")
    case Num(n) =>
      NumberStringRoundTrip(n);
      Some(IntToString(n))
    case Str(s) => Some(s)
    case List(items) =>
      CommaJoinSplits(items);
      Some(Join(items, ','))
    case Dict(_) => Some("[object Object]")
  }

  /** A list of comma-free strings is recovered from its comma-join. */
  lemma CommaJoinSplits(items: seq<string>)
    ensures |items| >= 1 && (forall i :: 0 <= i < |items| ==> ',' !in items[i]) ==>
              Split(Join(items, ','), ',') == items
  {
    if |items| >= 1 && forall i :: 0 <= i < |items| ==> ',' !in items[i] {
      SplitJoin(items, ',');
    }
  }

  lemma {:induction false} NatDigitsValue(n: nat)
    ensures DigitsValue(NatDigits(n)) == n
  {
    var s := NatDigits(n);
    if n >= 10 {
      NatDigitsValue(n / 10);
      assert s[..|s| - 1] == NatDigits(n / 10);
    }
  }

  /** Printing a number and reading it back gives the number: `Number(String(n)) == n`. */
  lemma NumberStringRoundTrip(n: int)
    ensures StringToInt(IntToString(n)) == Some(n)
  {
    var s := IntToString(n);
    if n < 0 {
      var digits := NatDigits(-n);
      NatDigitsValue(-n);
      assert s == "-" + digits;
      assert s[1..] == digits;
    } else {
      NatDigitsValue(n);
      assert s == NatDigits(n);
      assert IsDigit(s[0]);
    }
  }

}
