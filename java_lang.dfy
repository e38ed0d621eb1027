/**
 * The few pieces of java.lang that the modelled code depends on and whose
 * behaviour matters for its results: 32-bit `int` arithmetic, the truncating
 * remainder operator `%`, `Integer.toString`, and `Throwable.toString` /
 * `printStackTrace`.
 */
module JavaLang {
  import opened Wrappers

  // ---------------------------------------------------------------------
  // 32-bit int arithmetic
  // ---------------------------------------------------------------------

  const IntMin: int := -0x8000_0000
  const IntMax: int := 0x7fff_ffff
  const IntModulus: int := 0x1_0000_0000

  predicate InIntRange(x: int) {
    IntMin <= x <= IntMax
  }

  /** The value a Java `int` holds after an operation whose exact result is `x` (two's-complement wrap-around). */
  function WrapInt(x: int): (r: int)
    ensures InIntRange(r)
    ensures (x - r) % IntModulus == 0
    ensures InIntRange(x) ==> r == x
  {
    (x - IntMin) % IntModulus + IntMin
  }

  // ---------------------------------------------------------------------
  // The remainder operator: Java truncates toward zero, so the result has
  // the sign of the dividend (Dafny's `%` is Euclidean).
  // ---------------------------------------------------------------------

  /** Java's `a / b` for a positive divisor: the quotient rounded toward zero. */
  function Quot(a: int, b: int): int
    requires b > 0
  {
    if a >= 0 then a / b else -((-a) / b)
  }

  /** Java's `a % b` for a positive divisor. */
  function Rem(a: int, b: int): (r: int)
    requires b > 0
    ensures a >= 0 ==> 0 <= r < b && r <= a
    ensures a < 0 ==> -b < r <= 0 && a <= r
    ensures a == Quot(a, b) * b + r
  {
    if a >= 0 then
      EuclideanParts(a, b);
      a % b
    else
      EuclideanParts(-a, b);
      -((-a) % b)
  }

  lemma EuclideanParts(x: nat, b: int)
    requires b > 0
    ensures x == (x / b) * b + x % b
    ensures 0 <= x % b < b && x / b >= 0 && x % b <= x
  {
  }

  // ---------------------------------------------------------------------
  // Integer.toString: optional minus sign, then decimal digits without
  // leading zeros.
  // ---------------------------------------------------------------------

  predicate IsDigit(c: char) {
    '0' <= c <= '9'
  }

  predicate AllDigits(s: string) {
    forall i :: 0 <= i < |s| ==> IsDigit(s[i])
  }

  function Digit(d: nat): (c: char)
    requires d < 10
    ensures IsDigit(c)
  {
    (('0' as int) + d) as char
  }

  function DigitValue(c: char): (d: nat)
    requires IsDigit(c)
    ensures d < 10
  {
    (c as int) - ('0' as int)
  }

  /** The decimal digits of `n`, most significant first. */
  function NatDigits(n: nat): (s: string)
    ensures |s| >= 1 && AllDigits(s)
    ensures |s| > 1 ==> s[0] != '0'
    decreases n
  {
    if n < 10 then [Digit(n)] else NatDigits(n / 10) + [Digit(n % 10)]
  }

  function IntToString(n: int): (s: string)
    ensures |s| >= 1
    ensures s[0] == '-' <==> n < 0
    ensures n >= 0 ==> AllDigits(s)
  {
    if n < 0 then "-" + NatDigits(-n) else NatDigits(n)
  }

  /** The number a string of decimal digits denotes. */
  function DigitsValue(s: string): nat
    requires AllDigits(s)
  {
    if s == [] then 0 else 10 * DigitsValue(s[..|s| - 1]) + DigitValue(s[|s| - 1])
  }

  /** Reads back what IntToString writes: an optional minus sign and at least one digit. */
  function ParseInt(s: string): Option<int> {
    if |s| >= 2 && s[0] == '-' && AllDigits(s[1..]) then Some(-(DigitsValue(s[1..]) as int))
    else if |s| >= 1 && AllDigits(s) then Some(DigitsValue(s))
    else None
  }

  lemma {:induction false} NatDigitsRoundTrip(n: nat)
    ensures DigitsValue(NatDigits(n)) == n
    decreases n
  {
    if n >= 10 {
      var s := NatDigits(n);
      var prefix := NatDigits(n / 10);
      assert s == prefix + [Digit(n % 10)];
      assert s[..|s| - 1] == prefix;
      NatDigitsRoundTrip(n / 10);
    }
  }

  /** Integer.toString loses nothing: the decimal text reads back as the same number. */
  lemma IntToStringRoundTrip(n: int)
    ensures ParseInt(IntToString(n)) == Some(n)
  {
    var s := IntToString(n);
    if n < 0 {
      var digits := NatDigits(-n);
      assert s == "-" + digits;
      assert s[1..] == digits;
      NatDigitsRoundTrip(-n);
      assert ParseInt(s) == Some(-(DigitsValue(digits) as int));
    } else {
      assert s == NatDigits(n);
      assert IsDigit(s[0]);
      NatDigitsRoundTrip(n);
      assert ParseInt(s) == Some(DigitsValue(s));
    }
  }

  /** Distinct numbers have distinct decimal renderings. */
  lemma IntToStringInjective(a: int, b: int)
    ensures IntToString(a) == IntToString(b) <==> a == b
  {
    if IntToString(a) == IntToString(b) {
      IntToStringRoundTrip(a);
      IntToStringRoundTrip(b);
    }
  }

  // ---------------------------------------------------------------------
  // Throwable
  // ---------------------------------------------------------------------

  /**
   * A throwable: its class name, its (possibly null) message, the frames of
   * its stack trace, and whether its class extends java.lang.Exception (an
   * Error, such as OutOfMemoryError, does not).
   */
  datatype Throwable = Throwable(className: string, message: Option<string>, frames: seq<string>, isException: bool)

  /** The NullPointerException the JVM raises on dereferencing null (its frames are not modelled). */
  const NullPointerException: Throwable := Throwable("java.lang.NullPointerException", None, [], true)

  /** Throwable.toString: the class name, then ": " and the message when there is one. */
  function ThrowableToString(e: Throwable): string {
    match e.message
    case None => e.className
    case Some(m) => e.className + ": " + m
  }

  predicate NoColon(s: string) {
    forall i :: 0 <= i < |s| ==> s[i] != ':'
  }

  /**
   * Class names hold no colon, so the description of a throwable tells its
   * class and its message: two descriptions are equal only when both are.
   */
  lemma ThrowableToStringInjective(a: Throwable, b: Throwable)
    requires NoColon(a.className) && NoColon(b.className)
    ensures ThrowableToString(a) == ThrowableToString(b) <==>
            a.className == b.className && a.message == b.message
  {
    var s, t := ThrowableToString(a), ThrowableToString(b);
    ColonAfterClassName(a);
    ColonAfterClassName(b);
    if s == t && a.message.Some? && b.message.Some? {
      assert a.className == s[..|a.className|];
      assert b.className == t[..|b.className|];
      assert a.message.value == s[|a.className| + 2..];
      assert b.message.value == t[|b.className| + 2..];
    }
  }

  /** The position of the first `c` in `s`, or |s| when there is none. */
  function IndexOf(s: string, c: char): (k: nat)
    ensures k <= |s|
    ensures k < |s| ==> s[k] == c
    ensures forall j :: 0 <= j < k ==> s[j] != c
  {
    if s == [] then 0 else if s[0] == c then 0 else 1 + IndexOf(s[1..], c)
  }

  /** In a description the first colon, if any, is the one right after the class name. */
  lemma ColonAfterClassName(e: Throwable)
    requires NoColon(e.className)
    ensures IndexOf(ThrowableToString(e), ':') == |e.className|
    ensures e.message.None? <==> |ThrowableToString(e)| == |e.className|
  {
    var s := ThrowableToString(e);
    var c := e.className;
    var k := IndexOf(s, ':');
    assert s[..|c|] == c;
    if e.message.Some? {
      assert s[|c|] == ':';
    }
  }

  function FramesText(frames: seq<string>): string {
    if frames == [] then "" else "\tat " + frames[0] + "\n" + FramesText(frames[1..])
  }

  /** What Throwable.printStackTrace writes: the description line, then one line per frame. */
  function StackTraceText(e: Throwable): (s: string)
    ensures ThrowableToString(e) + "\n" <= s
  {
    ThrowableToString(e) + "\n" + FramesText(e.frames)
  }
}
