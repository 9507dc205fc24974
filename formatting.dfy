/**
 * Decimal rendering as the JVM does it for `Int`: string templates (`"$n"`),
 * `String.format("%02d:%02d", ...)`, and the truncating `/` and `%` of Kotlin and Java.
 * Digits are ASCII (a locale with other digit shapes is not modelled).
 */
module Formatting {
  import opened Wrappers

  predicate IsDigit(c: char) {
    '0' <= c <= '9'
  }

  predicate AllDigits(s: string) {
    forall i :: 0 <= i < |s| ==> IsDigit(s[i])
  }

  function DigitChar(d: nat): (c: char)
    requires d < 10
    ensures IsDigit(c) && c as int - '0' as int == d
  {
    ('0' as int + d) as char
  }

  /** The decimal digits of `n`, without leading zeros ("0" for zero). */
  function Digits(n: nat): (s: string)
    ensures 1 <= |s| && AllDigits(s)
    ensures |s| > 1 ==> s[0] != '0'
    ensures |s| == 1 <==> n < 10
    decreases n
  {
    if n < 10 then [DigitChar(n)] else Digits(n / 10) + [DigitChar(n % 10)]
  }

  /** The number a string of decimal digits denotes (leading zeros allowed). */
  function Value(s: string): nat
    requires AllDigits(s)
  {
    if s == [] then 0 else Value(s[..|s| - 1]) * 10 + (s[|s| - 1] as int - '0' as int)
  }

  lemma {:induction false} ValueOfDigits(n: nat)
    ensures Value(Digits(n)) == n
  {
    if n >= 10 {
      ValueOfDigits(n / 10);
      var s := Digits(n);
      assert s[..|s| - 1] == Digits(n / 10);
    }
  }

  lemma {:induction false} LeadingZeroValue(s: string)
    requires AllDigits(s)
    ensures Value("0" + s) == Value(s)
  {
    if s != [] {
      assert ("0" + s)[..|"0" + s| - 1] == "0" + s[..|s| - 1];
      LeadingZeroValue(s[..|s| - 1]);
    }
  }

  /** `"$n"` for an `Int`: the digits of its magnitude, after a minus sign when negative. */
  function IntString(n: int): (s: string)
    ensures n >= 0 ==> AllDigits(s) && Value(s) == n
    ensures n < 0 ==> |s| >= 2 && s[0] == '-' && AllDigits(s[1..]) && Value(s[1..]) == -n
  {
    if n >= 0 then ValueOfDigits(n); Digits(n)
    else ValueOfDigits(-n); assert ("-" + Digits(-n))[1..] == Digits(-n); "-" + Digits(-n)
  }

  /** `"%02d"` for a non-negative value: zero-padded to at least two digits. */
  function Pad2(n: nat): (s: string)
    ensures AllDigits(s)
  {
    if n < 10 then "0" + Digits(n) else Digits(n)
  }

  lemma Pad2Value(n: nat)
    ensures |Pad2(n)| >= 2
    ensures |Pad2(n)| == 2 <==> n < 100
    ensures Value(Pad2(n)) == n
  {
    ValueOfDigits(n);
    if n < 10 {
      LeadingZeroValue(Digits(n));
    } else {
      DigitsLength2(n);
    }
  }

  lemma DigitsLength2(n: nat)
    requires n >= 10
    ensures |Digits(n)| == 2 <==> n < 100
  {
  }

  /**
   * `"%02d"` for any `Int`: at least two characters; a non-negative value is zero-padded, a
   * negative one is its sign and digits (already two characters wide).
   */
  function Format02(n: int): (s: string)
    ensures |s| >= 2
    ensures n >= 0 ==> AllDigits(s) && Value(s) == n && (|s| == 2 <==> n < 100)
    ensures n < 0 ==> s[0] == '-' && AllDigits(s[1..]) && Value(s[1..]) == -n
  {
    if n >= 0 then Pad2Value(n); Pad2(n) else IntString(n)
  }

  /** `String.format("%02d:%02d", minutes, seconds)`; two non-negative parts read back. */
  function Clock(minutes: int, seconds: int): (t: string)
    ensures minutes >= 0 && seconds >= 0 ==> ParseClock(t) == Some((minutes, seconds))
  {
    if minutes >= 0 && seconds >= 0 then ClockRoundTrip(minutes, seconds); Pad2(minutes) + ":" + Pad2(seconds)
    else Format02(minutes) + ":" + Format02(seconds)
  }

  /** The position of the first `c` in `s`. */
  function IndexOf(s: string, c: char): (r: Option<nat>)
    ensures r.Some? ==> r.value < |s| && s[r.value] == c && c !in s[..r.value]
    ensures r.None? ==> c !in s
  {
    if s == [] then None
    else if s[0] == c then Some(0)
    else match IndexOf(s[1..], c)
      case None => None
      case Some(i) => assert s[..i + 1] == [s[0]] + s[1..][..i]; Some(i + 1)
  }

  /** Reads a `MM:SS` clock back: the digits before and after the first colon. */
  function ParseClock(t: string): Option<(nat, nat)> {
    match IndexOf(t, ':')
    case None => None
    case Some(i) =>
      var mm, ss := t[..i], t[i + 1..];
      if mm != [] && ss != [] && AllDigits(mm) && AllDigits(ss) then Some((Value(mm), Value(ss)))
      else None
  }

  lemma {:induction false} IndexOfFirst(s: string, c: char, i: nat)
    requires i < |s| && s[i] == c && c !in s[..i]
    ensures IndexOf(s, c) == Some(i)
  {
    if i > 0 {
      assert s[0] in s[..i];
      assert s[1..][..i - 1] == s[1..i];
      assert forall x :: x in s[1..i] ==> x in s[..i];
      IndexOfFirst(s[1..], c, i - 1);
    }
  }

  /** Two zero-padded parts around a colon read back as those parts. */
  lemma ClockRoundTrip(minutes: nat, seconds: nat)
    ensures ParseClock(Pad2(minutes) + ":" + Pad2(seconds)) == Some((minutes, seconds))
  {
    var a, b := Pad2(minutes), Pad2(seconds);
    var t := a + ":" + b;
    Pad2Value(minutes);
    Pad2Value(seconds);
    assert t[..|a|] == a;
    forall k | 0 <= k < |a| ensures a[k] != ':' {
      assert IsDigit(a[k]);
    }
    IndexOfFirst(t, ':', |a|);
    assert t[|a| + 1..] == b;
  }

  /** Kotlin's `t / 60` on `Int`: rounds toward zero. */
  function Div60(t: int): (q: int)
    ensures t >= 0 ==> 0 <= t - 60 * q < 60 && q >= 0
    ensures t < 0 ==> -60 < t - 60 * q <= 0 && q <= 0
  {
    if t >= 0 then t / 60 else -((-t) / 60)
  }

  /** Kotlin's `t % 60` on `Int`: takes the sign of `t`. */
  function Rem60(t: int): (r: int)
    ensures t == 60 * Div60(t) + r
    ensures t >= 0 ==> 0 <= r < 60
    ensures t < 0 ==> -60 < r <= 0
  {
    t - 60 * Div60(t)
  }
}
