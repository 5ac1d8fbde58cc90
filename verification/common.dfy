/**
  Shared vocabulary of the model: optional values (JavaScript `undefined`),
  thrown errors, and a few integer and string helpers used by several modules.
 */
module Common {

  /** A value that may be absent, standing for a JavaScript property or
      argument that is `undefined` (or `null`). */
  datatype Option<+T> = None | Some(value: T) {

    /** `x ?? d`: the value when present, `d` otherwise. */
    function GetOr(d: T): T {
      match this
      case Some(v) => v
      case None => d
    }
  }

  /** The exceptions the modelled code can raise. */
  datatype JsError =
    | RangeError   // `String.prototype.repeat` with a negative count
    | TypeError    // a method call on `undefined`, or `reduce` of an empty array

  /** The outcome of a computation that may throw. */
  datatype Result<+T> = Ok(value: T) | Throw(error: JsError)

  function Max(a: int, b: int): (r: int)
    ensures r >= a && r >= b
    ensures r == a || r == b
  {
    if a >= b then a else b
  }

  /** `Math.ceil(a / b)` for a positive divisor. */
  function CeilDiv(a: int, b: int): (r: int)
    requires b > 0
    ensures (r - 1) * b < a <= r * b
  {
    (a + b - 1) / b
  }

  /** The decimal digits of `n`, as JavaScript's template strings print a number. */
  function NatToString(n: nat): (s: string)
    ensures |s| > 0
    ensures forall i :: 0 <= i < |s| ==> '0' <= s[i] <= '9'
    decreases n
  {
    if n < 10 then [Digit(n)] else NatToString(n / 10) + [Digit(n % 10)]
  }

  function Digit(d: nat): (c: char)
    requires d < 10
    ensures '0' <= c <= '9'
    ensures c as int - '0' as int == d
  {
    ('0' as int + d) as char
  }

  /** A number is one digit long exactly when it is below ten. */
  lemma {:induction false} NatToStringLength(n: nat)
    ensures |NatToString(n)| == 1 <==> n < 10
  {
    if n >= 10 {
      assert |NatToString(n / 10)| > 0;
    }
  }

  /** Distinct numbers print differently. */
  lemma {:induction false} NatToStringInjective(a: nat, b: nat)
    requires NatToString(a) == NatToString(b)
    ensures a == b
    decreases a
  {
    NatToStringLength(a);
    NatToStringLength(b);
    var s := NatToString(a);
    if a >= 10 {
      assert s[..|s| - 1] == NatToString(a / 10) == NatToString(b / 10);
      assert s[|s| - 1] == Digit(a % 10) == Digit(b % 10);
      NatToStringInjective(a / 10, b / 10);
    } else {
      assert s[0] == Digit(a) == Digit(b);
    }
  }

  /** The decimal form of an integer, with a leading minus sign when negative. */
  function IntToString(i: int): (s: string)
    ensures |s| > 0
    ensures s[0] == '-' <==> i < 0
    ensures forall k :: 0 <= k < |s| ==> s[k] == '-' || '0' <= s[k] <= '9'
  {
    if i < 0 then "-" + NatToString(-i) else NatToString(i)
  }

  lemma IntToStringInjective(a: int, b: int)
    requires IntToString(a) == IntToString(b)
    ensures a == b
  {
    if a < 0 {
      assert IntToString(a)[1..] == NatToString(-a) && IntToString(b)[1..] == NatToString(-b);
      NatToStringInjective(-a, -b);
    } else {
      NatToStringInjective(a, b);
    }
  }

  /** The index of the first `c` in `s`, or `|s|` when there is none. */
  function FirstIndexOf(s: string, c: char): (k: nat)
    ensures k <= |s|
    decreases |s|
  {
    if |s| == 0 then 0 else if s[0] == c then 0 else 1 + FirstIndexOf(s[1..], c)
  }

  lemma {:induction false} FirstIndexOfSeparator(d: string, c: char, r: string)
    requires c !in d
    ensures FirstIndexOf(d + [c] + r, c) == |d|
    decreases |d|
  {
    if |d| > 0 {
      assert (d + [c] + r)[1..] == d[1..] + [c] + r;
      FirstIndexOfSeparator(d[1..], c, r);
    } else {
      assert d + [c] + r == [c] + r;
    }
  }

  /** A string joined to another by a separator it does not contain can be
      split back apart. */
  lemma SeparatedInjective(d1: string, d2: string, c: char, r1: string, r2: string)
    requires c !in d1 && c !in d2
    requires d1 + [c] + r1 == d2 + [c] + r2
    ensures d1 == d2 && r1 == r2
  {
    var s := d1 + [c] + r1;
    FirstIndexOfSeparator(d1, c, r1);
    FirstIndexOfSeparator(d2, c, r2);
    assert s[..|d1|] == d1 && s[..|d2|] == d2;
    assert s[|d1| + 1..] == r1 && s[|d2| + 1..] == r2;
  }

  /** `s.repeat(n)` for a count that is known not to be negative. */
  function RepeatStr(s: string, n: nat): (r: string)
    ensures |r| == n * |s|
    ensures |s| == 1 ==> forall i :: 0 <= i < |r| ==> r[i] == s[0]
  {
    if n == 0 then "" else s + RepeatStr(s, n - 1)
  }

  /** `s.repeat(n)`: JavaScript throws a `RangeError` for a negative count. */
  function Repeat(s: string, n: int): (r: Result<string>)
    ensures r.Throw? <==> n < 0
    ensures r.Throw? ==> r.error == RangeError
    ensures r.Ok? ==> r.value == RepeatStr(s, n) && |r.value| == n * |s|
  {
    if n < 0 then Throw(RangeError) else Ok(RepeatStr(s, n))
  }
}
