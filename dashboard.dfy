/**
 * `formatDuration` of the dashboard page (src/pages/Dashboard.tsx): a number
 * of seconds shown as whole minutes and the seconds left over.
 */
module Dashboard {
  import opened Strings

  /** `Math.floor(seconds / 60)`: for a positive divisor Dafny's division already floors. */
  function Minutes(seconds: int): int {
    seconds / 60
  }

  /**
   * `seconds % 60` with JavaScript's `%`, whose remainder takes the sign of
   * the dividend (Dafny's `%` is never negative).
   */
  function RemainingSeconds(seconds: int): (r: int)
    ensures seconds >= 0 ==> 0 <= r < 60
    ensures seconds < 0 ==> -60 < r <= 0
  {
    if seconds >= 0 then seconds % 60 else -((-seconds) % 60)
  }

  /** `` `${minutes}m ${remainingSeconds}s` ``. */
  function FormatDuration(seconds: int): string
  {
    IntToString(Minutes(seconds)) + "m " + IntToString(RemainingSeconds(seconds)) + "s"
  }

  /**
   * For a duration of zero or more seconds the minutes and the seconds left
   * over recompose the duration, the leftover is below a minute, and the
   * text is the two plain numerals.
   */
  lemma DurationSplit(seconds: nat)
    ensures Minutes(seconds) >= 0
    ensures Minutes(seconds) * 60 + RemainingSeconds(seconds) == seconds
    ensures 0 <= RemainingSeconds(seconds) < 60
    ensures FormatDuration(seconds)
      == NatToString(Minutes(seconds)) + "m " + NatToString(RemainingSeconds(seconds)) + "s"
  {
  }

  /** The minutes and leftover seconds are the only such pair: any `m`, `r` with `m·60 + r = s`, `0 <= r < 60`, are them. */
  lemma DurationSplitUnique(seconds: nat, m: int, r: int)
    requires m * 60 + r == seconds && 0 <= r < 60
    ensures m == Minutes(seconds) && r == RemainingSeconds(seconds)
  {
  }

  /** Two digit strings each followed by text starting with a non-digit split the same way. */
  lemma DigitsPrefix(x: string, a: string, y: string, b: string)
    requires forall i :: 0 <= i < |x| ==> IsDigit(x[i])
    requires forall i :: 0 <= i < |y| ==> IsDigit(y[i])
    requires a != [] && !IsDigit(a[0]) && b != [] && !IsDigit(b[0])
    requires x + a == y + b
    ensures x == y && a == b
  {
    var k := if |x| < |y| then |x| else |y|;
    assert IsDigit((x + a)[k]) <==> k < |x|;
    assert IsDigit((y + b)[k]) <==> k < |y|;
    assert x == (x + a)[..|x|];
    assert y == (y + b)[..|y|];
    assert a == (x + a)[|x|..];
    assert b == (y + b)[|y|..];
  }

  lemma BetweenUnitsIsNumeral(r: string)
    ensures ("m " + r + "s")[2..|r| + 2] == r
  {
  }

  /** The text of a non-negative duration determines it: different durations are shown differently. */
  lemma FormatDurationInjective(s: nat, t: nat)
    requires FormatDuration(s) == FormatDuration(t)
    ensures s == t
  {
    var ms, rs := NatToString(Minutes(s)), NatToString(RemainingSeconds(s));
    var mt, rt := NatToString(Minutes(t)), NatToString(RemainingSeconds(t));
    var ts, tt := "m " + rs + "s", "m " + rt + "s";
    DurationText(s);
    DurationText(t);
    DigitsPrefix(ms, ts, mt, tt);
    NatToStringInjective(Minutes(s), Minutes(t));
    BetweenUnitsIsNumeral(rs);
    BetweenUnitsIsNumeral(rt);
    NatToStringInjective(RemainingSeconds(s), RemainingSeconds(t));
    DurationRecomposes(s);
    DurationRecomposes(t);
  }

  lemma DurationText(s: nat)
    ensures FormatDuration(s) == NatToString(Minutes(s)) + ("m " + NatToString(RemainingSeconds(s)) + "s")
  {
  }

  lemma DurationRecomposes(s: nat)
    ensures Minutes(s) >= 0 && RemainingSeconds(s) >= 0
    ensures Minutes(s) * 60 + RemainingSeconds(s) == s
  {
  }

  /** The fixed average duration of the dashboard, 142 seconds, is shown as "2m 22s". */
  lemma AverageDurationText()
    ensures FormatDuration(142) == "2m 22s"
  {
    assert Minutes(142) == 2 && RemainingSeconds(142) == 22;
    assert NatToString(22) == NatToString(2) + [DigitChar(2)];
  }
}
