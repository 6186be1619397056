/** The renewal loop over time: how often a certificate whose renewal keeps failing is tried before it
    expires. */
module RenewalRuns {
  import opened Renewal

  /** One pass: when the due entries were picked, and how the attempt at each of them ends. */
  datatype Pass = Pass(now: int, outcomes: string -> Outcome)

  function After(entries: Entries, p: Pass): Entries
  {
    Passed(entries, p.now, p.outcomes)
  }

  function AfterAll(entries: Entries, passes: seq<Pass>): Entries
    decreases |passes|
  {
    if |passes| == 0 then entries else AfterAll(After(entries, passes[0]), passes[1..])
  }

  /** The volume of `t` stays, and a pass reads the clock again for the attempt: passes follow one
      another so that from the start of one to the attempt of the next no more than `interval` seconds
      go by, from `last` until `end`. */
  predicate Ticking(last: int, passes: seq<Pass>, t: string, interval: int, end: int)
    decreases |passes|
  {
    if |passes| == 0 then last >= end
    else
      var p := passes[0];
      && !p.outcomes(t).Gone? && last < p.now <= p.outcomes(t).at <= last + interval
      && Ticking(p.now, passes[1..], t, interval, end)
  }

  /** When an entry can first be found due by a pass after `last`. */
  function Start(e: Entry, last: int): int
  {
    if e.renewAt > last then e.renewAt else last + 1
  }

  lemma NotDue(entries: Entries, p: Pass, t: string)
    requires t in entries && !Due(entries[t], p.now)
    ensures t in After(entries, p) && After(entries, p)[t] == entries[t]
  {
  }

  /** A failed attempt leaves the window and puts the retry off by 750 seconds at the most. */
  lemma PutOff(entries: Entries, p: Pass, t: string)
    requires t in entries && Due(entries[t], p.now) && p.outcomes(t).Failed? && p.now <= p.outcomes(t).at
    ensures t in After(entries, p)
    ensures var e, e' := entries[t], After(entries, p)[t];
            && e'.notBefore == e.notBefore && e'.notAfter == e.notAfter
            && p.now < e'.renewAt <= p.outcomes(t).at + 750
  {
    FailureKeepsWindow(entries[t], p.outcomes(t).at, p.outcomes(t).draw);
  }

  // ---- Attempts before expiry ----

  predicate AllFail(passes: seq<Pass>, t: string)
  {
    forall i :: 0 <= i < |passes| ==> passes[i].outcomes(t).Failed?
  }

  /** The attempts at `t` that begin before its certificate expires. */
  function AttemptsAt(entries: Entries, passes: seq<Pass>, t: string): nat
    decreases |passes|
  {
    if |passes| == 0 || t !in entries then 0
    else
      var p := passes[0];
      (if Due(entries[t], p.now) && !p.outcomes(t).Gone? && p.outcomes(t).at < entries[t].notAfter then 1 else 0)
      + AttemptsAt(After(entries, p), passes[1..], t)
  }

  /** Attempts that fit between a deadline and expiry. */
  function Fitting(renewAt: int, notAfter: int, interval: int): int
    requires interval >= 1
  {
    if notAfter - renewAt < interval then 0 else 1 + (notAfter - renewAt - interval) / (750 + interval)
  }

  lemma DivStep(x: int, y: int, m: int)
    requires m > 0 && x - m <= y
    ensures x / m <= 1 + y / m
  {
    if x / m > 1 + y / m {
      assert x >= m * (x / m) && y < m * (y / m) + m;
      Mult(m, x / m, y / m);
    }
  }

  lemma Mult(m: int, a: int, b: int)
    requires m > 0 && a >= b + 2
    ensures m * a >= m * b + m + m
  {
    assert m * a - m * b == m * (a - b);
    Grows(m, a - b);
  }

  lemma Grows(m: int, n: int)
    requires m > 0 && n >= 2
    ensures m * n >= m + m
  {
  }

  lemma OneFewer(renewAt: int, later: int, notAfter: int, interval: int)
    requires interval >= 1 && later <= renewAt + 750 + interval
    ensures Fitting(renewAt, notAfter, interval) <= 1 + Fitting(later, notAfter, interval)
  {
    var x, y := notAfter - renewAt - interval, notAfter - later - interval;
    if x >= 0 {
      if y >= 0 {
        DivStep(x, y, 750 + interval);
      } else {
        assert x < 750 + interval;
        SmallDiv(x, 750 + interval);
      }
    }
  }

  lemma SmallDiv(x: int, m: int)
    requires 0 <= x < m
    ensures x / m == 0
  {
  }

  lemma NothingFits(renewAt: int, notAfter: int, interval: int)
    requires interval >= 1 && notAfter < renewAt + interval
    ensures Fitting(renewAt, notAfter, interval) == 0
  {
  }

  /** A certificate whose renewal keeps failing stays where it is and is tried again and again: at least
      once, and once more for every 750 seconds and one interval that fit before it expires. */
  lemma {:induction false} EnoughAttempts(entries: Entries, t: string, last: int, passes: seq<Pass>, interval: int)
    requires t in entries && interval >= 1 && AllFail(passes, t)
    requires Ticking(last, passes, t, interval, entries[t].notAfter)
    ensures AttemptsAt(entries, passes, t) >= Fitting(Start(entries[t], last), entries[t].notAfter, interval)
    ensures t in AfterAll(entries, passes)
    ensures var e, e' := entries[t], AfterAll(entries, passes)[t];
            e'.notBefore == e.notBefore && e'.notAfter == e.notAfter
    decreases |passes|
  {
    hide After, Fitting;
    var e := entries[t];
    if |passes| == 0 {
      NothingFits(Start(e, last), e.notAfter, interval);
    } else {
      var p := passes[0];
      assert p.outcomes(t).Failed?;
      assert AllFail(passes[1..], t);
      if Due(e, p.now) {
        PutOff(entries, p, t);
        EnoughAttempts(After(entries, p), t, p.now, passes[1..], interval);
        if p.outcomes(t).at < e.notAfter {
          OneFewer(Start(e, last), After(entries, p)[t].renewAt, e.notAfter, interval);
        } else {
          NothingFits(Start(e, last), e.notAfter, interval);
        }
      } else {
        NotDue(entries, p, t);
        EnoughAttempts(After(entries, p), t, p.now, passes[1..], interval);
      }
    }
  }

  /** The renewal instant of an entry was drawn from the settings. */
  predicate Drawn(e: Entry, min: real, max: real, unit: real)
  {
    && e.notBefore < e.notAfter && 0.0 <= min <= max && 0.0 <= unit < 1.0
    && e.renewAt == JitteredRenewAt(e.notBefore, e.notAfter, min, max, unit)
  }

  function Lifetime(e: Entry): real
  {
    (e.notAfter - e.notBefore) as real
  }

  /** The attempts that fit after fraction `max` of the lifetime. */
  function FittingAfter(e: Entry, max: real, interval: int): int
    requires interval >= 1
  {
    1 + WholeTimes(LeftAfter(e, max) - interval as real, 750 + interval)
  }

  /** The seconds left after fraction `max` of the lifetime. */
  function LeftAfter(e: Entry, max: real): real
  {
    (1.0 - max) * Lifetime(e)
  }

  /** How often `m` goes into `x`. */
  function WholeTimes(x: real, m: int): int
    requires m > 0
  {
    (x / m as real).Floor
  }

  /** In the terms of the settings: a certificate that falls due at the latest at fraction `max` of its
      lifetime is tried at least 1 + floor(((1 - max) lifetime - interval) / (750 + interval)) times. */
  lemma EnoughAttemptsByFraction(entries: Entries, t: string, last: int, passes: seq<Pass>, interval: int,
                                 min: real, max: real, unit: real)
    requires t in entries && interval >= 1 && AllFail(passes, t)
    requires Ticking(last, passes, t, interval, entries[t].notAfter)
    requires Drawn(entries[t], min, max, unit)
    requires (last + 1 - entries[t].notBefore) as real <= max * Lifetime(entries[t])
    requires LeftAfter(entries[t], max) >= interval as real
    ensures AttemptsAt(entries, passes, t) >= FittingAfter(entries[t], max, interval)
  {
    hide Ticking, AttemptsAt, Drawn, Lifetime, Start, Fitting, FittingAfter, LeftAfter;
    var e := entries[t];
    EnoughAttempts(entries, t, last, passes, interval);
    StartByFraction(e, last, min, max, unit);
    FittingByFraction(e, Start(e, last), max, interval);
  }

  lemma StartByFraction(e: Entry, last: int, min: real, max: real, unit: real)
    requires Drawn(e, min, max, unit) && (last + 1 - e.notBefore) as real <= max * Lifetime(e)
    ensures (Start(e, last) - e.notBefore) as real <= max * Lifetime(e)
  {
    hide JitteredRenewAt;
    JitterBounds(e.notBefore, e.notAfter, min, max, unit);
    Spread(max, Lifetime(e));
  }

  lemma FittingByFraction(e: Entry, start: int, max: real, interval: int)
    requires interval >= 1 && (start - e.notBefore) as real <= max * Lifetime(e)
    requires LeftAfter(e, max) >= interval as real
    ensures Fitting(start, e.notAfter, interval) >= FittingAfter(e, max, interval)
  {
    Spread(max, Lifetime(e));
    assert LeftAfter(e, max) <= (e.notAfter - start) as real;
    hide LeftAfter, WholeTimes;
    assert e.notAfter - start >= interval;
    FloorIsDiv(LeftAfter(e, max) - interval as real, e.notAfter - start - interval, 750 + interval);
  }

  lemma Spread(f: real, x: real)
    ensures (1.0 - f) * x == x - f * x && f * x == x * f
  {
  }

  lemma FloorIsDiv(x: real, room: int, m: int)
    requires m > 0 && x <= room as real
    ensures WholeTimes(x, m) <= room / m
  {
    var q := WholeTimes(x, m);
    assert q as real <= x / m as real;
    Cleared(q, x, m);
    assert q * m <= room;
    DivAtLeast(q, room, m);
  }

  lemma Cleared(q: int, x: real, m: int)
    requires m > 0 && q as real <= x / m as real
    ensures (q * m) as real <= x
  {
  }

  lemma DivAtLeast(q: int, room: int, m: int)
    requires m > 0 && q * m <= room
    ensures q <= room / m
  {
    var k := room / m;
    assert room < k * m + m;
    if q > k {
      Ahead(q, k, m);
    }
  }

  lemma Ahead(q: int, k: int, m: int)
    requires m > 0 && q > k
    ensures q * m >= k * m + m
  {
    assert q * m - k * m == (q - k) * m;
    AtLeastOnce(q - k, m);
  }

  lemma AtLeastOnce(n: int, m: int)
    requires m > 0 && n >= 1
    ensures n * m >= m
  {
  }
}
