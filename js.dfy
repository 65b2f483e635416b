/** JavaScript value semantics shared by the server route and the client components:
    optional values, thrown values, truthiness of `||` fallbacks, `slice(0, n)`, and the
    decimal rendering of a number inside a template literal. */
module Js {

  /** A value that may be `undefined`/`null` (None) or present (Some). */
  datatype Option<T> = None | Some(value: T)

  /** A value caught by a `catch` clause: an `Error` instance carries its `message`;
      any other thrown value has no `message` property. */
  datatype Thrown = ErrorValue(message: string) | NonError

  /** JavaScript truthiness of an optional string: `undefined`, `null` and "" are falsy. */
  predicate Truthy(x: Option<string>): (b: bool)
    ensures x.None? ==> !b
    ensures x == Some("") ==> !b
    ensures b ==> |x.value| > 0
  {
    x.Some? && x.value != ""
  }

  /** `x || fallback` where `x` is an optional string: a non-empty fallback makes the
      result non-empty, and a result that is itself truthy is kept by a second fallback. */
  function Or(x: Option<string>, fallback: string): (r: string)
    ensures Truthy(x) ==> r == x.value
    ensures !Truthy(x) ==> r == fallback
    ensures fallback != "" ==> r != ""
    ensures r != "" ==> Truthy(Some(r))
  {
    if Truthy(x) then x.value else fallback
  }

  /** `x || []` where `x` is an optional array: every array, even an empty one, is truthy,
      so only an absent one is replaced. */
  function OrEmpty<T>(x: Option<seq<T>>): (r: seq<T>)
    ensures x.Some? ==> r == x.value
    ensures x.None? ==> r == []
  {
    if x.Some? then x.value else []
  }

  /** `s.slice(0, n)`: the first `n` elements, or all of them when there are fewer. */
  function Take<T>(s: seq<T>, n: nat): (r: seq<T>)
    ensures |r| == (if |s| < n then |s| else n)
    ensures forall i :: 0 <= i < |r| ==> r[i] == s[i]
  {
    if |s| < n then s else s[..n]
  }

  /** Length of the longest run of characters other than `>` that starts at index `i`
      (the regular-expression class `[^>]` repeated greedily). */
  function RunNotGt(s: string, i: nat): (n: nat)
    requires i <= |s|
    ensures i + n <= |s|
    ensures forall j :: i <= j < i + n ==> s[j] != '>'
    ensures i + n < |s| ==> s[i + n] == '>'
    decreases |s| - i
  {
    if i == |s| || s[i] == '>' then 0 else 1 + RunNotGt(s, i + 1)
  }

  predicate IsDigit(c: char)
  {
    '0' <= c <= '9'
  }

  function DigitChar(d: nat): (c: char)
    requires d < 10
    ensures IsDigit(c)
  {
    (('0' as int) + d) as char
  }

  /** `${n}` for a non-negative integer: its decimal digits, without leading zeros. */
  function NatToString(n: nat): (r: string)
    ensures r != []
    ensures forall i :: 0 <= i < |r| ==> IsDigit(r[i])
    ensures n > 0 ==> r[0] != '0'
    decreases n
  {
    if n < 10 then [DigitChar(n)] else NatToString(n / 10) + [DigitChar(n % 10)]
  }

  /** The value of a string of decimal digits (reference reading of `NatToString`). */
  function ParseDecimal(s: string): nat
    requires forall i :: 0 <= i < |s| ==> IsDigit(s[i])
    decreases |s|
  {
    if s == [] then 0
    else ParseDecimal(s[..|s| - 1]) * 10 + DigitValue(s[|s| - 1])
  }

  function DigitValue(c: char): (d: nat)
    requires IsDigit(c)
    ensures d < 10
  {
    (c as int) - ('0' as int)
  }

  /** Reading back the rendered digits gives the number: the rendering loses nothing,
      so distinct statuses give distinct messages. */
  lemma {:induction false} ParseNatToString(n: nat)
    ensures ParseDecimal(NatToString(n)) == n
    decreases n
  {
    var r := NatToString(n);
    if n >= 10 {
      ParseNatToString(n / 10);
      assert r[..|r| - 1] == NatToString(n / 10);
    }
  }

  lemma NatToStringInjective(m: nat, n: nat)
    requires NatToString(m) == NatToString(n)
    ensures m == n
  {
    ParseNatToString(m);
    ParseNatToString(n);
  }
}
