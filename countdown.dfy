/**
 * The integer arithmetic of the popup's countdown: turning the hours and
 * minutes inputs into seconds and an end time, recovering the seconds left
 * when the popup is reopened, and the `HH:MM:SS` text shown on each tick.
 */
module Countdown {
  import opened Wrappers

  /** `Number(input.value) || 0`, with the input already read as an integer or missing. */
  function InputValue(v: Option<int>): int
  {
    if v.Some? then v.value else 0
  }

  /** `hours * 3600 + minutes * 60`. */
  function TotalSeconds(hours: Option<int>, minutes: Option<int>): int
  {
    InputValue(hours) * 3600 + InputValue(minutes) * 60
  }

  /**
   * A missing input counts as 0, and with non-negative inputs the timer
   * starts exactly when one of them is positive.
   */
  lemma StartGate(hours: Option<int>, minutes: Option<int>)
    ensures TotalSeconds(None, minutes) == InputValue(minutes) * 60
    ensures TotalSeconds(hours, None) == InputValue(hours) * 3600
    ensures InputValue(hours) >= 0 && InputValue(minutes) >= 0 ==>
              (TotalSeconds(hours, minutes) > 0 <==> InputValue(hours) > 0 || InputValue(minutes) > 0)
  {
  }

  /** `Date.now() + totalSeconds * 1000`. */
  function EndTime(now: int, totalSeconds: int): int
  {
    now + totalSeconds * 1000
  }

  /**
   * `Math.max(0, Math.floor((endTime - now) / 1000))`. Dafny's division by a
   * positive constant rounds down, as `Math.floor` does.
   */
  function Remaining(endTime: int, now: int): (r: nat)
    ensures r == 0 <==> endTime - now < 1000
    ensures r > 0 ==> r * 1000 <= endTime - now < r * 1000 + 1000
  {
    var q := (endTime - now) / 1000;
    if q < 0 then 0 else q
  }

  /** Seconds typed into the inputs are the seconds left right after the start. */
  lemma RemainingAtStart(now: int, total: int)
    requires total >= 0
    ensures Remaining(EndTime(now, total), now) == total
  {
  }

  /** After `k` whole seconds the reopened popup counts from `total - k`, or from nothing. */
  lemma RemainingAfterWholeSeconds(start: int, total: nat, k: nat)
    ensures Remaining(EndTime(start, total), start + k * 1000) == if k <= total then total - k else 0
  {
    var d := EndTime(start, total) - (start + k * 1000);
    assert d == (total - k) * 1000;
  }

  /** After any elapsed time the reopened count is within one second of the true remainder. */
  lemma RemainingWithinOneSecond(start: int, total: nat, elapsed: nat)
    requires elapsed <= total * 1000
    ensures var r := Remaining(EndTime(start, total), start + elapsed);
            r <= total && r * 1000 <= total * 1000 - elapsed < r * 1000 + 1000
  {
  }

  /** The character for a decimal digit. */
  function Digit(d: int): (c: char)
    requires 0 <= d < 10
    ensures '0' <= c <= '9'
  {
    (48 + d) as char
  }

  predicate IsDigit(c: char)
  {
    '0' <= c <= '9'
  }

  /** `String(n)` for a non-negative integer. */
  function DecimalString(n: nat): string
  {
    if n < 10 then [Digit(n)] else DecimalString(n / 10) + [Digit(n % 10)]
  }

  /** `String(n)` is a non-empty run of digits, of at most two below 100. */
  lemma {:induction false} DecimalStringShape(n: nat)
    ensures 1 <= |DecimalString(n)|
    ensures forall i :: 0 <= i < |DecimalString(n)| ==> IsDigit(DecimalString(n)[i])
    ensures n < 100 ==> |DecimalString(n)| <= 2
  {
    if n >= 10 {
      DecimalStringShape(n / 10);
    }
  }

  /** The number a string of decimal digits denotes, read from the right. */
  function DecimalValue(s: string): int
  {
    if s == [] then 0 else DecimalValue(s[..|s| - 1]) * 10 + (s[|s| - 1] as int - 48)
  }

  lemma {:induction false} DecimalRoundTrip(n: nat)
    ensures DecimalValue(DecimalString(n)) == n
  {
    if n >= 10 {
      DecimalRoundTrip(n / 10);
      var s := DecimalString(n);
      assert s[..|s| - 1] == DecimalString(n / 10);
    }
  }

  /** A leading zero does not change the value. */
  lemma {:induction false} LeadingZero(s: string)
    ensures DecimalValue("0" + s) == DecimalValue(s)
  {
    if s != [] {
      LeadingZero(s[..|s| - 1]);
      assert ("0" + s)[..|"0" + s| - 1] == "0" + s[..|s| - 1];
    }
  }

  /** `s.padStart(2, '0')`. */
  function PadStart2(s: string): string
    decreases 2 - |s|
  {
    if |s| >= 2 then s else PadStart2("0" + s)
  }

  /** Padding reaches width two, keeps `s` as the suffix, adds only zeros and keeps the value. */
  lemma {:induction false} PadStart2Shape(s: string)
    ensures |PadStart2(s)| == if |s| >= 2 then |s| else 2
    ensures DecimalValue(PadStart2(s)) == DecimalValue(s)
    ensures PadStart2(s)[|PadStart2(s)| - |s|..] == s
    ensures forall i :: 0 <= i < |PadStart2(s)| - |s| ==> PadStart2(s)[i] == '0'
    decreases 2 - |s|
  {
    if |s| < 2 {
      LeadingZero(s);
      PadStart2Shape("0" + s);
      var r := PadStart2("0" + s);
      assert r[|r| - |s|..] == r[|r| - |"0" + s|..][1..];
    }
  }

  /** One field of the display: `String(n).padStart(2, '0')`. */
  function Field(n: nat): string
  {
    PadStart2(DecimalString(n))
  }

  /** A field is at least two characters wide, exactly two below 100, and reads back as `n`. */
  lemma FieldShape(n: nat)
    ensures |Field(n)| >= 2
    ensures n < 100 ==> |Field(n)| == 2
    ensures DecimalValue(Field(n)) == n
  {
    DecimalStringShape(n);
    DecimalRoundTrip(n);
    PadStart2Shape(DecimalString(n));
  }

  /** The text `updateDisplay` writes for `t` seconds left. */
  function Clock(t: nat): string
  {
    Field(t / 3600) + ":" + Field((t % 3600) / 60) + ":" + Field(t % 60)
  }

  /** Splits a `…H:MM:SS` text at its last two colons into hours, minutes and seconds. */
  function ClockParts(c: string): Option<(string, string, string)>
  {
    if |c| >= 8 && c[|c| - 3] == ':' && c[|c| - 6] == ':' then
      Some((c[..|c| - 6], c[|c| - 5..|c| - 3], c[|c| - 2..]))
    else
      None
  }

  /** Three fields, the last two of width two, joined by colons split back into themselves. */
  lemma ClockPartsOf(fh: string, fm: string, fs: string)
    requires |fh| >= 2 && |fm| == 2 && |fs| == 2
    ensures ClockParts(fh + ":" + fm + ":" + fs) == Some((fh, fm, fs))
  {
    var c := fh + ":" + fm + ":" + fs;
    var n := |c|;
    assert c[n - 3] == ':' && c[n - 6] == ':';
    assert c[..n - 6] == fh;
    assert c[n - 5..n - 3] == fm;
    assert c[n - 2..] == fs;
  }

  /** Hours, minutes below 60 and seconds below 60 recombine to `t`. */
  lemma SplitSeconds(t: nat)
    ensures (t / 3600) * 3600 + ((t % 3600) / 60) * 60 + t % 60 == t
    ensures (t % 3600) / 60 < 60 && t % 60 < 60
  {
    var h, r := t / 3600, t % 3600;
    assert t == h * 3600 + r;
    var m, s := r / 60, r % 60;
    assert r == m * 60 + s;
    assert t == (h * 60 + m) * 60 + s;
    assert t % 60 == s;
  }

  /**
   * Every displayed time splits into hours, minutes and seconds fields that
   * add up to `t`, with minutes and seconds below 60; minutes and seconds
   * take exactly two characters and hours at least two.
   */
  lemma ClockRoundTrip(t: nat)
    ensures ClockParts(Clock(t)).Some?
    ensures var (hh, mm, ss) := ClockParts(Clock(t)).value;
            |hh| >= 2 && |mm| == 2 && |ss| == 2 &&
            DecimalValue(hh) * 3600 + DecimalValue(mm) * 60 + DecimalValue(ss) == t &&
            0 <= DecimalValue(mm) < 60 && 0 <= DecimalValue(ss) < 60
  {
    var h, m, s := t / 3600, (t % 3600) / 60, t % 60;
    SplitSeconds(t);
    FieldShape(h);
    FieldShape(m);
    FieldShape(s);
    ClockPartsOf(Field(h), Field(m), Field(s));
  }

  /** The reset text is the display of zero seconds. */
  lemma ZeroClock()
    ensures Clock(0) == "00:00:00"
  {
    FieldZero();
  }

  /** Hours and minutes typed in divide back out of the total. */
  lemma DivideHoursMinutes(h: nat, m: nat)
    requires m < 60
    ensures (h * 3600 + m * 60) / 3600 == h
    ensures ((h * 3600 + m * 60) % 3600) / 60 == m
    ensures (h * 3600 + m * 60) % 60 == 0
  {
    var t := h * 3600 + m * 60;
    var r := m * 60;
    assert 0 <= r < 3600;
    assert t / 3600 == h;
    assert t % 3600 == r;
    assert r / 60 == m;
    assert t == (h * 60 + m) * 60;
  }

  lemma ClockOf(t: nat, h: nat, m: nat, s: nat)
    requires t / 3600 == h && (t % 3600) / 60 == m && t % 60 == s
    ensures Clock(t) == Field(h) + ":" + Field(m) + ":" + Field(s)
  {
  }

  lemma FieldZero()
    ensures Field(0) == "00"
  {
    assert DecimalString(0) == "0";
    assert PadStart2("0") == "00";
  }

  /** Starting from `h` hours and `m < 60` minutes displays exactly `h`, `m` and zero seconds. */
  lemma StartDisplaysInputs(h: nat, m: nat)
    requires m < 60
    ensures TotalSeconds(Some(h), Some(m)) >= 0
    ensures Clock(TotalSeconds(Some(h), Some(m))) == Field(h) + ":" + Field(m) + ":00"
  {
    var t: nat := h * 3600 + m * 60;
    assert TotalSeconds(Some(h), Some(m)) == t;
    DivideHoursMinutes(h, m);
    ClockOf(t, h, m, 0);
    FieldZero();
  }

  /** The seconds left on each tick when counting down from `t`: `t`, `t - 1`, …, `0`. */
  function TicksFrom(t: nat): seq<nat>
  {
    [t] + (if t == 0 then [] else TicksFrom(t - 1))
  }

  lemma {:induction false} CountdownShape(t: nat)
    ensures |TicksFrom(t)| == t + 1
    ensures forall i :: 0 <= i <= t ==> TicksFrom(t)[i] == t - i
  {
    if t > 0 {
      CountdownShape(t - 1);
      var rest := TicksFrom(t - 1);
      assert TicksFrom(t) == [t] + rest;
      forall i | 1 <= i <= t ensures TicksFrom(t)[i] == t - i {
        assert TicksFrom(t)[i] == rest[i - 1];
      }
    }
  }

  /** Drawing `n` and then counting down from `n - 1` is counting down from `n`. */
  lemma TicksStep(before: seq<int>, n: nat)
    ensures n > 0 ==> before + [n] + TicksFrom(n - 1) == before + TicksFrom(n)
    ensures n == 0 ==> before + [n] == before + TicksFrom(n)
  {
    assert TicksFrom(n) == [n] + (if n == 0 then [] else TicksFrom(n - 1));
  }
}
