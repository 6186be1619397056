/** Outages of the issuer: exactly which ones a certificate is renewed in spite of, whatever the moments
    of the passes and the waits drawn. */
module RenewalOutages {
  import opened Renewal
  import opened RenewalRuns

  /** Attempts fail during the outage from `from` to `until` and succeed outside it. */
  predicate Outage(passes: seq<Pass>, t: string, from: int, until: int)
  {
    forall i :: 0 <= i < |passes| && !passes[i].outcomes(t).Gone? ==>
      (passes[i].outcomes(t).Failed? <==> from <= passes[i].outcomes(t).at < until)
  }

  lemma OutageNow(passes: seq<Pass>, t: string, from: int, until: int)
    requires Outage(passes, t, from, until) && |passes| > 0 && !passes[0].outcomes(t).Gone?
    ensures passes[0].outcomes(t).Failed? <==> from <= passes[0].outcomes(t).at < until
    ensures Outage(passes[1..], t, from, until)
  {
  }

  /** An attempt that begins before the certificate expires renews it. */
  predicate RenewedInTime(entries: Entries, passes: seq<Pass>, t: string)
    decreases |passes|
  {
    && |passes| > 0 && t in entries
    && var p := passes[0];
       if Due(entries[t], p.now) && p.outcomes(t).Renewed? then p.outcomes(t).at < entries[t].notAfter
       else RenewedInTime(After(entries, p), passes[1..], t)
  }

  /** A certificate is renewed in time if the outage ends early enough before it expires. */
  lemma {:induction false} OutageEnds(entries: Entries, t: string, last: int, passes: seq<Pass>, interval: int,
                                      from: int, until: int)
    requires t in entries && interval >= 1 && Ticking(last, passes, t, interval, entries[t].notAfter)
    requires Outage(passes, t, from, until)
    requires Start(entries[t], last) + interval <= entries[t].notAfter && until + 749 + interval <= entries[t].notAfter
    ensures RenewedInTime(entries, passes, t)
    decreases |passes|
  {
    hide After;
    if |passes| > 0 {
      var p := passes[0];
      OutageNow(passes, t, from, until);
      if Due(entries[t], p.now) {
        if p.outcomes(t).Failed? {
          PutOff(entries, p, t);
          OutageEnds(After(entries, p), t, p.now, passes[1..], interval, from, until);
        }
      } else {
        NotDue(entries, p, t);
        OutageEnds(After(entries, p), t, p.now, passes[1..], interval, from, until);
      }
    }
  }

  /** Before the outage begins, the first pass that finds the entry due renews it. */
  lemma {:induction false} BeforeOutage(entries: Entries, t: string, last: int, passes: seq<Pass>, interval: int,
                                        from: int, until: int)
    requires t in entries && interval >= 1 && Ticking(last, passes, t, interval, entries[t].notAfter)
    requires Outage(passes, t, from, until)
    requires Start(entries[t], last) + interval <= entries[t].notAfter && Start(entries[t], last) + interval <= from
    ensures RenewedInTime(entries, passes, t)
    decreases |passes|
  {
    hide After;
    if |passes| > 0 {
      var p := passes[0];
      OutageNow(passes, t, from, until);
      if !Due(entries[t], p.now) {
        NotDue(entries, p, t);
        BeforeOutage(After(entries, p), t, p.now, passes[1..], interval, from, until);
      }
    }
  }

  /** An outage, whenever it begins, lets no certificate expire if it is shorter than the time between
      the due date and expiry by 748 seconds and two intervals. */
  lemma SurvivesOutage(entries: Entries, t: string, last: int, passes: seq<Pass>, interval: int, from: int, length: nat)
    requires t in entries && interval >= 1 && Ticking(last, passes, t, interval, entries[t].notAfter)
    requires Outage(passes, t, from, from + length)
    requires length + 748 + 2 * interval <= entries[t].notAfter - Start(entries[t], last)
    ensures RenewedInTime(entries, passes, t)
  {
    if Start(entries[t], last) + interval <= from {
      BeforeOutage(entries, t, last, passes, interval, from, from + length);
    } else {
      OutageEnds(entries, t, last, passes, interval, from, from + length);
    }
  }

  /** And no certificate survives an outage from its due date to its expiry. */
  lemma {:induction false} DoesNotSurvive(entries: Entries, t: string, last: int, passes: seq<Pass>, interval: int,
                                          from: int, until: int)
    requires t in entries && Ticking(last, passes, t, interval, entries[t].notAfter)
    requires Outage(passes, t, from, until) && from <= entries[t].renewAt && entries[t].notAfter <= until
    ensures !RenewedInTime(entries, passes, t)
    decreases |passes|
  {
    hide After;
    if |passes| > 0 {
      var p := passes[0];
      OutageNow(passes, t, from, until);
      if !Due(entries[t], p.now) {
        NotDue(entries, p, t);
        DoesNotSurvive(After(entries, p), t, p.now, passes[1..], interval, from, until);
      } else if p.outcomes(t).Failed? {
        PutOff(entries, p, t);
        DoesNotSurvive(After(entries, p), t, p.now, passes[1..], interval, from, until);
      }
    }
  }

  // ---- The worst that can happen ----

  /** Whatever the moments of the passes and the waits drawn, the certificate is renewed in time. */
  ghost predicate AlwaysRenewed(entries: Entries, t: string, last: int, interval: int, from: int, until: int)
    requires t in entries
  {
    forall passes :: Ticking(last, passes, t, interval, entries[t].notAfter) && Outage(passes, t, from, until) ==>
      RenewedInTime(entries, passes, t)
  }

  function NextFailures(failures: nat): nat
  {
    if failures < U32_MAX then failures + 1 else U32_MAX
  }

  /** What an attempt at a given moment comes to, when it fails with this draw. */
  function Answer(at: int, from: int, until: int, draw: nat): Outcome
  {
    if from <= at < until then Failed(at, draw) else Renewed(at, at, at, at)
  }

  function PassAt(now: int, from: int, until: int, draw: nat): Pass
  {
    Pass(now, (t: string) => Answer(now, from, until, draw))
  }

  /** A schedule that keeps the rules and does not renew the certificate in time. */
  ghost predicate Fatal(entries: Entries, t: string, last: int, interval: int, from: int, until: int, passes: seq<Pass>)
    requires t in entries
  {
    && Ticking(last, passes, t, interval, entries[t].notAfter) && Outage(passes, t, from, until)
    && !RenewedInTime(entries, passes, t)
  }

  lemma MorePasses(p: Pass, passes: seq<Pass>)
    ensures ([p] + passes)[0] == p && ([p] + passes)[1..] == passes
  {
  }

  lemma OutageMore(p: Pass, passes: seq<Pass>, t: string, from: int, until: int)
    requires Outage(passes, t, from, until) && !p.outcomes(t).Gone?
    requires p.outcomes(t).Failed? <==> from <= p.outcomes(t).at < until
    ensures Outage([p] + passes, t, from, until)
  {
  }

  /** One pass put before a fatal schedule. */
  lemma FatalMore(entries: Entries, t: string, last: int, interval: int, from: int, until: int, now: int, draw: nat,
                  passes: seq<Pass>)
    requires t in entries && last < now <= last + interval
    requires var p := PassAt(now, from, until, draw);
             && t in After(entries, p) && After(entries, p)[t].notAfter == entries[t].notAfter
             && Fatal(After(entries, p), t, now, interval, from, until, passes)
    requires Due(entries[t], now) ==> from <= now < until
    ensures Fatal(entries, t, last, interval, from, until, [PassAt(now, from, until, draw)] + passes)
  {
    hide After;
    var p := PassAt(now, from, until, draw);
    MorePasses(p, passes);
    OutageMore(p, passes, t, from, until);
  }

  /** A pass that comes too late, in the outage or after it. */
  lemma FatalLast(entries: Entries, t: string, last: int, interval: int, from: int, until: int, now: int)
    requires t in entries && last < now <= last + interval && Due(entries[t], now) && entries[t].notAfter <= now
    ensures Fatal(entries, t, last, interval, from, until, [PassAt(now, from, until, 0)])
  {
    var p := PassAt(now, from, until, 0);
    assert |[p][1..]| == 0;
  }

  lemma {:induction false} OnlyOwnEntry(entries: Entries, entries': Entries, passes: seq<Pass>, t: string)
    requires t in entries && t in entries' && entries[t] == entries'[t]
    ensures RenewedInTime(entries, passes, t) <==> RenewedInTime(entries', passes, t)
    decreases |passes|
  {
    if |passes| > 0 {
      var after, after' := After(entries, passes[0]), After(entries', passes[0]);
      if t in after {
        OnlyOwnEntry(after, after', passes[1..], t);
      }
    }
  }

  /** Passes every second until the entry falls due. */
  lemma {:induction false} FatalIdle(entries: Entries, t: string, last: int, interval: int, from: int, until: int,
                                     passes: seq<Pass>) returns (all: seq<Pass>)
    requires t in entries && interval >= 1
    requires Fatal(entries, t, Start(entries[t], last) - 1, interval, from, until, passes)
    ensures Fatal(entries, t, last, interval, from, until, all)
    decreases Start(entries[t], last) - last
  {
    if Start(entries[t], last) == last + 1 {
      all := passes;
    } else {
      hide After;
      var p := PassAt(last + 1, from, until, 0);
      NotDue(entries, p, t);
      OnlyOwnEntry(entries, After(entries, p), passes, t);
      var rest := FatalIdle(After(entries, p), t, last + 1, interval, from, until, passes);
      FatalMore(entries, t, last, interval, from, until, last + 1, 0, rest);
      all := [p] + rest;
    }
  }

  /** A failed attempt with a chosen wait. */
  lemma FailsFor(entries: Entries, t: string, now: int, from: int, until: int, wait: int) returns (draw: nat)
    requires t in entries && Due(entries[t], now) && from <= now < until
    requires var next := NextFailures(entries[t].failures); Waits(next).0 <= wait <= Waits(next).1
    ensures var after := After(entries, PassAt(now, from, until, draw));
            t in after && after[t] == entries[t].(failures := NextFailures(entries[t].failures), renewAt := now + wait)
  {
    BackoffBounds(NextFailures(entries[t].failures), wait);
    draw :| Backoff(NextFailures(entries[t].failures), draw) == wait;
  }

  // ---- Exactly, for every outage ----

  /** An attempt at an entry due at `due` can fall on a moment of the outage and be put off to `later`. */
  predicate Retry(failures: nat, due: int, at: int, later: int, interval: int, from: int, until: int)
  {
    var (low, high) := Waits(NextFailures(failures));
    due <= at < due + interval && from <= at < until && at + low <= later <= at + high
  }

  lemma RetryIsLater(failures: nat, due: int, at: int, later: int, interval: int, from: int, until: int)
    requires Retry(failures, due, at, later, interval, from, until)
    ensures later > at >= due
  {
  }

  /** An entry with so many failures, due at `due`, can expire: the next attempt can come too late, or fail
      and be put off to a moment from which it can. */
  ghost predicate CanExpire(failures: nat, due: int, notAfter: int, interval: int, from: int, until: int)
    requires interval >= 1
    decreases notAfter - due
  {
    || due + interval > notAfter
    || exists at, later :: Retry(failures, due, at, later, interval, from, until)
                           && (RetryIsLater(failures, due, at, later, interval, from, until);
                               CanExpire(NextFailures(failures), later, notAfter, interval, from, until))
  }

  /** What can expire does, on some schedule. */
  lemma {:induction false} CanIsFatal(entries: Entries, t: string, last: int, interval: int, from: int, until: int)
    returns (passes: seq<Pass>)
    requires t in entries && interval >= 1
    requires CanExpire(entries[t].failures, Start(entries[t], last), entries[t].notAfter, interval, from, until)
    ensures Fatal(entries, t, last, interval, from, until, passes)
    decreases entries[t].notAfter - Start(entries[t], last)
  {
    hide After, Fatal, PassAt;
    var e, due := entries[t], Start(entries[t], last);
    var rest;
    if due + interval > e.notAfter {
      rest := [PassAt(due - 1 + interval, from, until, 0)];
      FatalLast(entries, t, due - 1, interval, from, until, due - 1 + interval);
    } else {
      var at, later :| Retry(e.failures, due, at, later, interval, from, until)
                       && CanExpire(NextFailures(e.failures), later, e.notAfter, interval, from, until);
      RetryIsLater(e.failures, due, at, later, interval, from, until);
      var draw := FailsFor(entries, t, at, from, until, later - at);
      rest := CanIsFatal(After(entries, PassAt(at, from, until, draw)), t, at, interval, from, until);
      FatalMore(entries, t, due - 1, interval, from, until, at, draw, rest);
      rest := [PassAt(at, from, until, draw)] + rest;
    }
    passes := FatalIdle(entries, t, last, interval, from, until, rest);
  }

  /** And what expires on some schedule can. */
  lemma {:induction false} FatalMeansCan(entries: Entries, t: string, last: int, interval: int, from: int, until: int,
                                         passes: seq<Pass>)
    requires t in entries && interval >= 1 && Fatal(entries, t, last, interval, from, until, passes)
    ensures CanExpire(entries[t].failures, Start(entries[t], last), entries[t].notAfter, interval, from, until)
    decreases |passes|
  {
    hide After;
    var e, due := entries[t], Start(entries[t], last);
    if |passes| > 0 {
      var p := passes[0];
      OutageNow(passes, t, from, until);
      if !Due(e, p.now) {
        NotDue(entries, p, t);
        FatalMeansCan(After(entries, p), t, p.now, interval, from, until, passes[1..]);
      } else if p.outcomes(t).Failed? {
        var at, draw := p.outcomes(t).at, p.outcomes(t).draw;
        PutOffTo(entries, p, t);
        FatalMeansCan(After(entries, p), t, p.now, interval, from, until, passes[1..]);
        var later := After(entries, p)[t].renewAt;
        assert Retry(e.failures, due, at, later, interval, from, until);
      }
    }
  }

  lemma PutOffTo(entries: Entries, p: Pass, t: string)
    requires t in entries && Due(entries[t], p.now) && p.outcomes(t).Failed? && p.now <= p.outcomes(t).at
    ensures t in After(entries, p)
    ensures var e, e', at := entries[t], After(entries, p)[t], p.outcomes(t).at;
            && e'.notAfter == e.notAfter && e'.failures == NextFailures(e.failures) && e'.renewAt > p.now
            && at + Waits(e'.failures).0 <= e'.renewAt <= at + Waits(e'.failures).1
  {
    var next := NextFailures(entries[t].failures);
    BackoffBounds(next, Backoff(next, p.outcomes(t).draw));
    FailureKeepsWindow(entries[t], p.outcomes(t).at, p.outcomes(t).draw);
  }

  /** Exactly which outages a certificate is renewed in spite of, however short or long, whenever they begin:
      those in which no attempts that fail one after another put it off too long. */
  lemma AlwaysRenewedIff(entries: Entries, t: string, last: int, interval: int, from: int, until: int)
    requires t in entries && interval >= 1
    ensures AlwaysRenewed(entries, t, last, interval, from, until) <==>
              !CanExpire(entries[t].failures, Start(entries[t], last), entries[t].notAfter, interval, from, until)
  {
    hide Ticking, Outage, RenewedInTime, CanExpire;
    if CanExpire(entries[t].failures, Start(entries[t], last), entries[t].notAfter, interval, from, until) {
      var passes := CanIsFatal(entries, t, last, interval, from, until);
      NotAlways(entries, t, last, interval, from, until, passes);
    } else if !AlwaysRenewed(entries, t, last, interval, from, until) {
      var passes :| Ticking(last, passes, t, interval, entries[t].notAfter) && Outage(passes, t, from, until)
                    && !RenewedInTime(entries, passes, t);
      FatalMeansCan(entries, t, last, interval, from, until, passes);
    }
  }

  lemma NotAlways(entries: Entries, t: string, last: int, interval: int, from: int, until: int, passes: seq<Pass>)
    requires t in entries && Fatal(entries, t, last, interval, from, until, passes)
    ensures !AlwaysRenewed(entries, t, last, interval, from, until)
  {
  }

  // ---- In closed form, once the waits have settled ----

  /** Waits that can be drawn one after another by attempts that fail, the first of them at `at`, such that
      the last one falls on the last second of the outage and is put off for as long as can be. */
  predicate Leads(failures: nat, at: int, waits: seq<int>, until: int)
    decreases |waits|
  {
    && |waits| > 0 && Waits(NextFailures(failures)).0 <= waits[0] <= Waits(NextFailures(failures)).1
    && if |waits| == 1 then at == until - 1 && waits[0] == 750
       else at < until && Leads(NextFailures(failures), at + waits[0], waits[1..], until)
  }

  /** Seconds from a failed attempt, the `failures`-th in a row, after which any second can see another
      one that is put off the longest. */
  function Settling(failures: nat): int
  {
    match failures
    case 2 => 1530
    case 3 => 1440
    case 4 => 1260
    case _ => if failures < 2 then 1575 else 900
  }

  lemma {:induction false} AnySecond(failures: nat, at: int, until: int) returns (waits: seq<int>)
    requires var left := until - 1 - at;
             || left >= Settling(NextFailures(failures))
             || (NextFailures(failures) >= 5 && (left == 0 || 450 <= left <= 750))
    ensures Leads(failures, at, waits, until)
    decreases until - at
  {
    var next, left := NextFailures(failures), until - 1 - at;
    if left == 0 {
      waits := [750];
    } else {
      var wait := if next < 5 then Waits(next).0
                  else if left <= 750 then left
                  else if 1200 < left <= 1500 then 750 else 450;
      var rest := AnySecond(next, at + wait, until);
      waits := [wait] + rest;
      assert waits[1..] == rest;
    }
  }

  lemma LeadsOn(failures: nat, at: int, waits: seq<int>, until: int)
    requires Leads(failures, at, waits, until) && |waits| > 1
    ensures Leads(NextFailures(failures), at + waits[0], waits[1..], until)
  {
  }

  /** Such waits put an entry off too long. */
  lemma {:induction false} LeadsToExpiry(failures: nat, due: int, at: int, waits: seq<int>, notAfter: int,
                                         interval: int,
                                         from: int, until: int)
    requires interval >= 1 && due <= at < due + interval && from <= at && notAfter < until + 749 + interval
    requires Leads(failures, at, waits, until)
    ensures CanExpire(failures, due, notAfter, interval, from, until)
    decreases |waits|
  {
    var later := at + waits[0];
    assert Retry(failures, due, at, later, interval, from, until);
    RetryIsLater(failures, due, at, later, interval, from, until);
    if |waits| > 1 {
      LeadsOn(failures, at, waits, until);
      LeadsToExpiry(NextFailures(failures), later, later, waits[1..], notAfter, interval, from, until);
    }
  }

  /** The moment of the first attempt that can fall into the outage. */
  function FirstHit(e: Entry, last: int, from: int): int
  {
    if from > Start(e, last) then from else Start(e, last)
  }

  lemma HitExpires(entries: Entries, t: string, last: int, interval: int, from: int, until: int)
    requires t in entries && interval >= 1 && from < Start(entries[t], last) + interval
    requires FirstHit(entries[t], last, from) + 1 + Settling(NextFailures(entries[t].failures)) <= until
    requires entries[t].notAfter < until + 749 + interval
    ensures !AlwaysRenewed(entries, t, last, interval, from, until)
  {
    hide AlwaysRenewed, Leads, CanExpire;
    var e, now := entries[t], FirstHit(entries[t], last, from);
    var waits := AnySecond(e.failures, now, until);
    LeadsToExpiry(e.failures, Start(e, last), now, waits, e.notAfter, interval, from, until);
    AlwaysRenewedIff(entries, t, last, interval, from, until);
  }

  /** Outages that last long enough for the waits to settle: a certificate is renewed in spite of exactly
      those that begin an interval after it falls due, or end 749 seconds and an interval
      before it expires. */
  lemma SurvivesIff(entries: Entries, t: string, last: int, interval: int, from: int, until: int)
    requires t in entries && interval >= 1
    requires FirstHit(entries[t], last, from) + 1 + Settling(NextFailures(entries[t].failures)) <= until
    ensures var e, start := entries[t], Start(entries[t], last);
            AlwaysRenewed(entries, t, last, interval, from, until) <==>
              if from >= start + interval then start + interval <= e.notAfter else until + 749 + interval <= e.notAfter
  {
    hide Fatal, Ticking, Outage, RenewedInTime;
    var e, start := entries[t], Start(entries[t], last);
    if from >= start + interval {
      if start + interval <= e.notAfter {
        forall passes | Ticking(last, passes, t, interval, e.notAfter) && Outage(passes, t, from, until)
          ensures RenewedInTime(entries, passes, t)
        {
          BeforeOutage(entries, t, last, passes, interval, from, until);
        }
      } else {
        FatalLast(entries, t, start - 1, interval, from, until, start - 1 + interval);
        var passes := FatalIdle(entries, t, last, interval, from, until,
                                [PassAt(start - 1 + interval, from, until, 0)]);
        NotAlways(entries, t, last, interval, from, until, passes);
      }
    } else if until + 749 + interval <= e.notAfter {
      forall passes | Ticking(last, passes, t, interval, e.notAfter) && Outage(passes, t, from, until)
        ensures RenewedInTime(entries, passes, t)
      {
        OutageEnds(entries, t, last, passes, interval, from, until);
      }
    } else {
      HitExpires(entries, t, last, interval, from, until);
    }
  }

  ghost predicate Outlasts(entries: Entries, t: string, last: int, interval: int, from: int, length: nat)
    requires t in entries
  {
    AlwaysRenewed(entries, t, last, interval, from, from + length)
  }

  /** How long an outage may last, exactly, if nothing is known of when it begins. */
  lemma LengthIff(entries: Entries, t: string, last: int, interval: int, length: nat)
    requires t in entries && interval >= 1 && length > Settling(NextFailures(entries[t].failures))
    ensures (forall from :: Outlasts(entries, t, last, interval, from, length)) <==>
              length + 748 + 2 * interval <= entries[t].notAfter - Start(entries[t], last)
  {
    hide Ticking, Outage, RenewedInTime;
    var e, start := entries[t], Start(entries[t], last);
    if length + 748 + 2 * interval <= e.notAfter - start {
      forall from ensures Outlasts(entries, t, last, interval, from, length) {
        forall passes | Ticking(last, passes, t, interval, e.notAfter) && Outage(passes, t, from, from + length)
          ensures RenewedInTime(entries, passes, t)
        {
          SurvivesOutage(entries, t, last, passes, interval, from, length);
        }
      }
    } else {
      SurvivesIff(entries, t, last, interval, start + interval - 1, start + interval - 1 + length);
      assert !Outlasts(entries, t, last, interval, start + interval - 1, length);
    }
  }

  // ---- The defaults ----

  const DAY := 86400

  /** A certificate of one day with a deadline drawn from the default fractions. */
  predicate ByDefault(e: Entry, unit: real)
  {
    e.notAfter == e.notBefore + DAY && Drawn(e, 0.5, 0.7, unit)
  }

  lemma DefaultDeadline(e: Entry, unit: real)
    requires ByDefault(e, unit)
    ensures 43200 <= e.renewAt - e.notBefore <= 60480
  {
    JitterBounds(e.notBefore, e.notAfter, 0.5, 0.7, unit);
  }

  /** The half-day outage the settings are meant for is survived by no certificate it hits as it falls
      due, whatever was drawn. */
  lemma HalfDayIsTooLong(entries: Entries, t: string, last: int, passes: seq<Pass>, interval: int, unit: real)
    requires t in entries && ByDefault(entries[t], unit) && Ticking(last, passes, t, interval, entries[t].notAfter)
    requires Outage(passes, t, entries[t].renewAt, entries[t].renewAt + DAY / 2)
    ensures !RenewedInTime(entries, passes, t)
  {
    DefaultDeadline(entries[t], unit);
    DoesNotSurvive(entries, t, last, passes, interval, entries[t].renewAt, entries[t].renewAt + DAY / 2);
  }

  /** Every certificate of one day survives an outage of seven hours less 28 seconds and two intervals. */
  lemma DefaultsSurvive(entries: Entries, t: string, last: int, passes: seq<Pass>, interval: int, unit: real,
                        from: int, length: nat)
    requires t in entries && interval >= 1 && ByDefault(entries[t], unit) && last < entries[t].notBefore + 60480
    requires Ticking(last, passes, t, interval, entries[t].notAfter)
    requires Outage(passes, t, from, from + length) && length <= 7 * 3600 - 28 - 2 * interval
    ensures RenewedInTime(entries, passes, t)
  {
    DefaultDeadline(entries[t], unit);
    SurvivesOutage(entries, t, last, passes, interval, from, length);
  }
}
