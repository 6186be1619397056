/** Renewal of certificates: when one is due, what an attempt does to its schedule, and one pass over
    the store. */
module Renewal {
  datatype Entry = Entry(target: string, notBefore: int, notAfter: int, renewAt: int, failures: nat)

  type Entries = map<string, Entry>

  const U32_MAX := 0xFFFF_FFFF

  // ---- Drawing ----

  /** `range_i64` on a drawn number. */
  function Range(low: int, high: int, draw: nat): (v: int)
    ensures low <= v <= (if high <= low then low else high)
  {
    if high <= low then low else low + draw % (high - low + 1)
  }

  /** Every value of the range can be drawn. */
  lemma RangeIsWhole(low: int, high: int, v: int)
    requires low <= v <= high
    ensures Range(low, high, v - low) == v
  {
  }

  function Power(n: nat): nat
  {
    if n == 0 then 1 else 2 * Power(n - 1)
  }

  function Capped(failures: nat): nat
  {
    var exp := 30 * Power(if failures < 5 then failures else 5);
    if exp < 600 then exp else 600
  }

  /** `backoff_secs`. */
  function Backoff(failures: nat, draw: nat): int
  {
    var spread := Capped(failures) / 4;
    Range(Capped(failures) - spread, Capped(failures) + spread, draw)
  }

  /** The seconds a retry is put off by: thirty doubled for each failure, at most ten minutes, give or
      take a quarter rounded down. */
  function Waits(failures: nat): (int, int)
  {
    match failures
    case 0 => (23, 37)
    case 1 => (45, 75)
    case 2 => (90, 150)
    case 3 => (180, 300)
    case 4 => (360, 600)
    case _ => (450, 750)
  }

  /** Every wait in the range is drawn by some number, and no other. */
  lemma BackoffBounds(failures: nat, wait: int)
    ensures Waits(failures).0 <= wait <= Waits(failures).1 <==> exists draw: nat :: Backoff(failures, draw) == wait
  {
    CappedIs(failures);
    var spread := Capped(failures) / 4;
    var low, high := Capped(failures) - spread, Capped(failures) + spread;
    assert (low, high) == Waits(failures);
    if low <= wait <= high {
      RangeIsWhole(low, high, wait);
      assert Backoff(failures, wait - low) == wait;
    }
  }

  lemma CappedIs(failures: nat)
    ensures Capped(failures) ==
              match failures case 0 => 30 case 1 => 60 case 2 => 120 case 3 => 240 case 4 => 480 case _ => 600
  {
    assert Power(2) == 4 && Power(3) == 8 && Power(4) == 16 && Power(5) == 32;
  }

  /** `jittered_renew_at` for a draw `unit` in [0, 1), over the reals. */
  function JitteredRenewAt(notBefore: int, notAfter: int, min: real, max: real, unit: real): int
  {
    var lifetime := (if notAfter - notBefore > 1 then notAfter - notBefore else 1) as real;
    notBefore + (lifetime * Point(min, max, unit)).Floor
  }

  function Point(min: real, max: real, unit: real): real
  {
    min + (max - min) * unit
  }

  lemma PointBetween(min: real, max: real, unit: real)
    requires min <= max && 0.0 <= unit < 1.0
    ensures min <= Point(min, max, unit) <= max
  {
    NotNegative(max - min, unit);
    NotNegative(max - min, 1.0 - unit);
    assert max - Point(min, max, unit) == (max - min) * (1.0 - unit);
  }

  lemma NotNegative(a: real, b: real)
    requires a >= 0.0 && b >= 0.0
    ensures a * b >= 0.0
  {
  }

  /** A window that is empty or inverted counts as one second. */
  lemma JitterBounds(notBefore: int, notAfter: int, min: real, max: real, unit: real)
    requires 0.0 <= min <= max && 0.0 <= unit < 1.0
    ensures var lifetime := (if notBefore < notAfter then notAfter - notBefore else 1) as real;
            var at := (JitteredRenewAt(notBefore, notAfter, min, max, unit) - notBefore) as real;
            lifetime * min - 1.0 < at <= lifetime * max
  {
    hide Point;
    PointBetween(min, max, unit);
    var lifetime := if notBefore < notAfter then notAfter - notBefore else 1;
    assert lifetime == if notAfter - notBefore > 1 then notAfter - notBefore else 1;
    Between(lifetime as real, min, Point(min, max, unit), max);
  }

  lemma Between(x: real, a: real, p: real, b: real)
    requires x > 0.0 && a <= p <= b
    ensures x * a - 1.0 < (x * p).Floor as real <= x * b
  {
  }

  // ---- One entry ----

  /** How an attempt ends: the volume is gone, or the clock was read and the certificate issued or not. */
  datatype Outcome = Gone | Renewed(at: int, notBefore: int, notAfter: int, renewAt: int) | Failed(at: int, draw: nat)

  predicate Due(e: Entry, now: int)
  {
    now >= e.renewAt
  }

  /** `record_renewal` and `record_failure` on an entry. */
  function Recorded(e: Entry, outcome: Outcome): Entry
  {
    match outcome
    case Gone => e
    case Renewed(_, notBefore, notAfter, renewAt) =>
      e.(notBefore := notBefore, notAfter := notAfter, renewAt := renewAt, failures := 0)
    case Failed(at, draw) =>
      var failures := if e.failures < U32_MAX then e.failures + 1 else U32_MAX;
      e.(failures := failures, renewAt := at + Backoff(failures, draw))
  }

  /** A failure leaves the validity window alone, and the retry is due 45 to 750 seconds later. */
  lemma FailureKeepsWindow(e: Entry, at: int, draw: nat)
    ensures var after := Recorded(e, Failed(at, draw));
            && after.notBefore == e.notBefore && after.notAfter == e.notAfter && after.target == e.target
            && after.failures > 0 && at + 45 <= after.renewAt <= at + 750
  {
    var failures := if e.failures < U32_MAX then e.failures + 1 else U32_MAX;
    BackoffBounds(failures, Backoff(failures, draw));
  }

  // ---- The store ----

  predicate Keyed(entries: Entries)
  {
    forall t :: t in entries ==> entries[t].target == t
  }

  /** What one attempt does to the store. */
  function Attempted(entries: Entries, target: string, outcome: Outcome): Entries
  {
    if target !in entries then entries
    else if outcome.Gone? then entries - {target}
    else entries[target := Recorded(entries[target], outcome)]
  }

  /** What one pass does: every due entry is attempted once, the others are left alone. */
  function Passed(entries: Entries, now: int, outcomes: string -> Outcome): Entries
  {
    map t | t in entries && !(Due(entries[t], now) && outcomes(t).Gone?) ::
      if Due(entries[t], now) then Recorded(entries[t], outcomes(t)) else entries[t]
  }

  predicate Sorted(l: seq<Entry>)
  {
    forall i, j :: 0 <= i < j < |l| ==> l[i].renewAt <= l[j].renewAt
  }

  /** The library's stable sort by deadline. */
  function Insert(l: seq<Entry>, x: Entry): seq<Entry>
  {
    if l == [] || l[|l| - 1].renewAt <= x.renewAt then l + [x] else Insert(l[..|l| - 1], x) + [l[|l| - 1]]
  }

  function Sort(l: seq<Entry>): seq<Entry>
  {
    if l == [] then [] else Insert(Sort(l[..|l| - 1]), l[|l| - 1])
  }

  predicate Unlike(l: seq<Entry>)
  {
    forall i, j :: 0 <= i < j < |l| ==> l[i].target != l[j].target
  }

  lemma {:induction false} InsertMembers(l: seq<Entry>, x: Entry, y: Entry)
    ensures y in Insert(l, x) <==> y in l || y == x
    decreases |l|
  {
    if l != [] && l[|l| - 1].renewAt > x.renewAt {
      assert l == l[..|l| - 1] + [l[|l| - 1]];
      InsertMembers(l[..|l| - 1], x, y);
    }
  }

  lemma {:induction false} InsertSorts(l: seq<Entry>, x: Entry)
    requires Sorted(l) && Unlike(l) && forall y :: y in l ==> y.target != x.target
    ensures Sorted(Insert(l, x)) && Unlike(Insert(l, x))
    decreases |l|
  {
    if l != [] && l[|l| - 1].renewAt > x.renewAt {
      var init, last := l[..|l| - 1], l[|l| - 1];
      InsertSorts(init, x);
      forall y | y in Insert(init, x) ensures y.renewAt <= last.renewAt && y.target != last.target {
        InsertMembers(init, x, y);
        assert last in l && (y in init ==> exists i :: 0 <= i < |init| && l[i] == y);
      }
    }
  }

  lemma {:induction false} SortSorts(l: seq<Entry>)
    requires Unlike(l)
    ensures Sorted(Sort(l)) && Unlike(Sort(l)) && forall y :: y in Sort(l) <==> y in l
    decreases |l|
  {
    if l == [] {
      assert Sort(l) == l;
    } else {
      hide Sorted, Unlike;
      var init, last := l[..|l| - 1], l[|l| - 1];
      UnlikeLast(l);
      SortSorts(init);
      InsertSorts(Sort(init), last);
      forall y ensures y in Sort(l) <==> y in l {
        InsertMembers(Sort(init), last, y);
        assert l == init + [last];
      }
    }
  }

  lemma UnlikeLast(l: seq<Entry>)
    requires Unlike(l) && l != []
    ensures Unlike(l[..|l| - 1]) && forall y :: y in l[..|l| - 1] ==> y.target != l[|l| - 1].target
  {
  }

  function Targets(l: seq<Entry>): set<string>
  {
    set e | e in l :: e.target
  }

  /** The store once the entries of `done` have been attempted. */
  function PassedOver(entries: Entries, outcomes: string -> Outcome, done: set<string>): Entries
  {
    map t | t in entries && !(t in done && outcomes(t).Gone?) ::
      if t in done then Recorded(entries[t], outcomes(t)) else entries[t]
  }

  class Store {
    var entries: Entries

    constructor ()
      ensures entries == map[] && Keyed(entries)
    {
      entries := map[];
    }

    /** `due`, the map listed in any order: the due entries, each once, oldest deadline first. */
    method DueEntries(now: int, order: seq<string>) returns (due: seq<Entry>)
      requires Keyed(entries) && (forall t :: t in order <==> t in entries)
      requires forall i, j :: 0 <= i < j < |order| ==> order[i] != order[j]
      ensures Sorted(due) && Unlike(due)
      ensures forall e :: e in due <==> e.target in entries && entries[e.target] == e && Due(e, now)
    {
      var l := [];
      for k := 0 to |order|
        invariant Unlike(l)
        invariant forall e :: e in l <==> e.target in order[..k] && entries[e.target] == e && Due(e, now)
      {
        assert order[..k + 1] == order[..k] + [order[k]];
        assert order[k] in order && order[k] !in order[..k];
        if Due(entries[order[k]], now) {
          l := l + [entries[order[k]]];
        }
      }
      assert order[..|order|] == order;
      due := Sort(l);
      SortSorts(l);
    }

    /** One attempt: the entry is dropped, renewed or put off. */
    method Attempt(target: string, outcome: Outcome)
      modifies this
      ensures entries == Attempted(old(entries), target, outcome)
    {
      if target in entries {
        if outcome.Gone? {
          entries := entries - {target};
        } else {
          entries := entries[target := Recorded(entries[target], outcome)];
        }
      }
    }

    /** `renew_due`: one attempt at every due entry, and nothing else changes; the count is theirs. */
    method RenewDue(now: int, order: seq<string>, outcomes: string -> Outcome) returns (count: nat)
      requires Keyed(entries) && (forall t :: t in order <==> t in entries)
      requires forall i, j :: 0 <= i < j < |order| ==> order[i] != order[j]
      modifies this
      ensures entries == Passed(old(entries), now, outcomes) && Keyed(entries)
      ensures count == |set t | t in old(entries) && Due(old(entries)[t], now)|
    {
      hide Sorted, Recorded;
      var due := DueEntries(now, order);
      for k := 0 to |due|
        invariant entries == PassedOver(old(entries), outcomes, Targets(due[..k]))
        invariant |Targets(due[..k])| == k
      {
        MoreTargets(due, k);
        assert due[k] in due;
        PassOne(old(entries), outcomes, Targets(due[..k]), due[k].target);
        Attempt(due[k].target, outcomes(due[k].target));
      }
      assert due[..|due|] == due;
      AllDue(old(entries), now, outcomes, due);
      PassedIsKeyed(old(entries), now, outcomes);
      count := |due|;
    }
  }

  lemma MoreTargets(l: seq<Entry>, k: nat)
    requires Unlike(l) && k < |l|
    ensures Targets(l[..k + 1]) == Targets(l[..k]) + {l[k].target} && l[k].target !in Targets(l[..k])
  {
  }

  lemma PassOne(entries: Entries, outcomes: string -> Outcome, done: set<string>, t: string)
    requires t in entries && t !in done
    ensures Attempted(PassedOver(entries, outcomes, done), t, outcomes(t)) == PassedOver(entries, outcomes, done + {t})
  {
  }

  lemma AllDue(entries: Entries, now: int, outcomes: string -> Outcome, due: seq<Entry>)
    requires Keyed(entries)
    requires forall e :: e in due <==> e.target in entries && entries[e.target] == e && Due(e, now)
    ensures PassedOver(entries, outcomes, Targets(due)) == Passed(entries, now, outcomes)
    ensures Targets(due) == set t | t in entries && Due(entries[t], now)
  {
  }

  lemma PassedIsKeyed(entries: Entries, now: int, outcomes: string -> Outcome)
    requires Keyed(entries)
    ensures Keyed(Passed(entries, now, outcomes))
  {
  }
}
