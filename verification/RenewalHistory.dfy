/** What an entry of the store is, told from the attempts at it: its window is that of the last renewal,
    its failures are those since, and a failed attempt waits as long as so many failures make it. */
module RenewalHistory {
  import opened Renewal
  import opened RenewalRuns

  /** The attempts at `t` in a sequence of passes, while its volume stays. */
  function AttemptsIn(entries: Entries, passes: seq<Pass>, t: string): seq<Outcome>
    decreases |passes|
  {
    if |passes| == 0 || t !in entries then []
    else
      var p := passes[0];
      (if Due(entries[t], p.now) then [p.outcomes(t)] else []) + AttemptsIn(After(entries, p), passes[1..], t)
  }

  predicate Stays(passes: seq<Pass>, t: string)
  {
    forall i :: 0 <= i < |passes| ==> !passes[i].outcomes(t).Gone?
  }

  function RecordedAll(e: Entry, outcomes: seq<Outcome>): Entry
    decreases |outcomes|
  {
    if outcomes == [] then e else RecordedAll(Recorded(e, outcomes[0]), outcomes[1..])
  }

  lemma AfterOne(entries: Entries, p: Pass, t: string)
    requires t in entries && !p.outcomes(t).Gone?
    ensures t in After(entries, p)
    ensures After(entries, p)[t] == if Due(entries[t], p.now) then Recorded(entries[t], p.outcomes(t)) else entries[t]
  {
  }

  /** Passes change an entry by the attempts at it and by nothing else. */
  lemma {:induction false} EntryIsItsAttempts(entries: Entries, passes: seq<Pass>, t: string)
    requires t in entries && Stays(passes, t)
    ensures t in AfterAll(entries, passes)
    ensures AfterAll(entries, passes)[t] == RecordedAll(entries[t], AttemptsIn(entries, passes, t))
    decreases |passes|
  {
    hide After;
    if |passes| > 0 {
      var p := passes[0];
      assert !p.outcomes(t).Gone?;
      AfterOne(entries, p, t);
      EntryIsItsAttempts(After(entries, p), passes[1..], t);
      var rest := AttemptsIn(After(entries, p), passes[1..], t);
      assert [] + rest == rest;
      assert ([p.outcomes(t)] + rest)[1..] == rest;
    }
  }

  /** The attempts since the last renewal, all of them failures. */
  function Streak(outcomes: seq<Outcome>): (n: nat)
    ensures n <= |outcomes|
  {
    if outcomes == [] || !outcomes[|outcomes| - 1].Failed? then 0 else 1 + Streak(outcomes[..|outcomes| - 1])
  }

  lemma {:induction false} RecordedLast(e: Entry, outcomes: seq<Outcome>)
    requires outcomes != []
    ensures var n := |outcomes| - 1;
            RecordedAll(e, outcomes) == Recorded(RecordedAll(e, outcomes[..n]), outcomes[n])
    decreases |outcomes|
  {
    var n := |outcomes| - 1;
    if n == 0 {
      assert outcomes[..0] == [] && outcomes[1..] == [];
    } else {
      RecordedLast(Recorded(e, outcomes[0]), outcomes[1..]);
      assert outcomes[..n][1..] == outcomes[1..][..n - 1];
    }
  }

  function Counted(n: nat): nat
  {
    if n < U32_MAX then n else U32_MAX
  }

  predicate NoneGone(outcomes: seq<Outcome>)
  {
    forall i :: 0 <= i < |outcomes| ==> !outcomes[i].Gone?
  }

  /** An entry `e` has become `e'`: the last renewal before the failures that end the attempts, if there is
      one, gave the window; the failures counted are those; and the next deadline is the one drawn at the
      last renewal, or that of the last failure put off as its number makes it. */
  predicate IsHistory(e: Entry, outcomes: seq<Outcome>, e': Entry)
    requires NoneGone(outcomes)
  {
    var streak := Streak(outcomes);
    var since := |outcomes| - streak;
    && e'.target == e.target
    && (since == 0 ==> e'.notBefore == e.notBefore && e'.notAfter == e.notAfter
                       && e'.failures == Counted(e.failures + streak))
    && (since > 0 ==> outcomes[since - 1].Renewed? && e'.notBefore == outcomes[since - 1].notBefore
                      && e'.notAfter == outcomes[since - 1].notAfter && e'.failures == Counted(streak))
    && (streak == 0 ==> e'.renewAt == if since > 0 then outcomes[since - 1].renewAt else e.renewAt)
    && (streak > 0 ==> PutOff(outcomes[|outcomes| - 1], e'))
  }

  predicate PutOff(last: Outcome, e': Entry)
  {
    last.Failed? && Waits(e'.failures).0 <= e'.renewAt - last.at <= Waits(e'.failures).1
  }

  lemma RecordedIsPutOff(e: Entry, o: Outcome)
    requires o.Failed?
    ensures PutOff(o, Recorded(e, o))
  {
    hide Waits, Backoff;
    var failures := Recorded(e, o).failures;
    BackoffBounds(failures, Backoff(failures, o.draw));
  }

  /** An entry is what the attempts at it made of it. */
  lemma {:induction false} EntryIsHistory(e: Entry, outcomes: seq<Outcome>)
    requires e.failures <= U32_MAX && NoneGone(outcomes)
    ensures IsHistory(e, outcomes, RecordedAll(e, outcomes))
    decreases |outcomes|
  {
    if outcomes != [] {
      hide PutOff;
      var n := |outcomes| - 1;
      RecordedLast(e, outcomes);
      EntryIsHistory(e, outcomes[..n]);
      if outcomes[n].Failed? {
        RecordedIsPutOff(RecordedAll(e, outcomes[..n]), outcomes[n]);
      }
    }
  }
}
