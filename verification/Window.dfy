/** The sliding-window rate limiter: per key, the times of recent events, oldest first. */
module Window {
  type Queues = map<string, seq<int>>

  datatype Rate = Rate(limit: nat, window: int)

  function Queue(m: Queues, key: string): seq<int>
  {
    if key in m then m[key] else []
  }

  // ---- What the operations do ----

  /** The times after `cutoff`, given that they are in order. */
  function Pop(q: seq<int>, cutoff: int): seq<int>
  {
    if q != [] && q[0] <= cutoff then Pop(q[1..], cutoff) else q
  }

  function Checked(c: Rate, m: Queues, key: string, now: int): Queues
  {
    if c.limit == 0 || key !in m then m else m[key := Pop(m[key], now - c.window)]
  }

  predicate Fits(c: Rate, m: Queues, key: string, now: int)
  {
    c.limit == 0 || key !in m || |Pop(m[key], now - c.window)| < c.limit
  }

  function Recorded(c: Rate, m: Queues, key: string, now: int): Queues
  {
    if c.limit == 0 then m else m[key := Queue(m, key) + [now]]
  }

  function Swept(c: Rate, m: Queues, now: int): Queues
  {
    map k | k in m && m[k] != [] && m[k][|m[k]| - 1] > now - c.window :: m[k]
  }

  class Limiter {
    const rate: Rate
    var events: Queues

    constructor (limit: nat, windowSecs: int)
      ensures rate == Rate(limit, windowSecs) && events == map[]
    {
      rate := Rate(limit, windowSecs);
      events := map[];
    }

    /** `check`: drop what has left the window, then compare. */
    method Check(key: string, now: int) returns (ok: bool)
      modifies this
      ensures events == Checked(rate, old(events), key, now)
      ensures ok == Fits(rate, old(events), key, now)
    {
      if rate.limit == 0 || key !in events {
        return true;
      }
      var q := events[key];
      while q != [] && q[0] <= now - rate.window
        invariant Pop(q, now - rate.window) == Pop(old(events)[key], now - rate.window)
        decreases |q|
      {
        q := q[1..];
      }
      events := events[key := q];
      ok := |q| < rate.limit;
    }

    /** `record`. */
    method Record(key: string, now: int)
      modifies this
      ensures events == Recorded(rate, old(events), key, now)
    {
      if rate.limit != 0 {
        events := events[key := Queue(events, key) + [now]];
      }
    }

    /** `allow`. */
    method Allow(key: string, now: int) returns (ok: bool)
      modifies this
      ensures ok == Fits(rate, old(events), key, now)
      ensures events == var m := Checked(rate, old(events), key, now);
                        if ok then Recorded(rate, m, key, now) else m
    {
      ok := Check(key, now);
      if ok {
        Record(key, now);
      }
    }

    /** `sweep`: keep the keys whose last event is still in the window. */
    method Sweep(now: int)
      modifies this
      ensures events == Swept(rate, old(events), now)
    {
      events := map k | k in events && events[k] != [] && events[k][|events[k]| - 1] > now - rate.window :: events[k];
    }
  }

  // ---- Against the full log ----

  /** A limiter together with every event ever recorded, per key. */
  datatype World = World(m: Queues, log: Queues)

  const NEW := World(map[], map[])

  datatype Op = Check(key: string, now: int) | Allow(key: string, now: int) | Sweep(now: int)

  function Apply(c: Rate, w: World, op: Op): World
  {
    match op
    case Check(key, now) => w.(m := Checked(c, w.m, key, now))
    case Sweep(now) => w.(m := Swept(c, w.m, now))
    case Allow(key, now) =>
      var m := Checked(c, w.m, key, now);
      if Fits(c, w.m, key, now) then World(Recorded(c, m, key, now), Recorded(c, w.log, key, now)) else w.(m := m)
  }

  function Run(c: Rate, w: World, ops: seq<Op>): World
    decreases |ops|
  {
    if ops == [] then w else Run(c, Apply(c, w, ops[0]), ops[1..])
  }

  predicate Answer(c: Rate, w: World, op: Op)
  {
    op.Sweep? || Fits(c, w.m, op.key, op.now)
  }

  function Answers(c: Rate, w: World, ops: seq<Op>): seq<bool>
    decreases |ops|
  {
    if ops == [] then [] else [Answer(c, w, ops[0])] + Answers(c, Apply(c, w, ops[0]), ops[1..])
  }

  /** Timestamps do not go back. */
  predicate InOrder(clock: int, ops: seq<Op>)
    decreases |ops|
  {
    ops == [] || (clock <= ops[0].now && InOrder(ops[0].now, ops[1..]))
  }

  /** How many times lie after `lo` and no later than `hi`. */
  function Count(l: seq<int>, lo: int, hi: int): nat
  {
    if l == [] then 0 else Count(l[..|l| - 1], lo, hi) + (if lo < l[|l| - 1] <= hi then 1 else 0)
  }

  ghost predicate Sorted(l: seq<int>, clock: int)
  {
    && (forall i, j :: 0 <= i <= j < |l| ==> l[i] <= l[j])
    && (forall i :: 0 <= i < |l| ==> l[i] <= clock)
  }

  /** The queue is what remains of the log once events that left the window are dropped; some that
      left may still be queued. */
  ghost predicate QueueOk(l: seq<int>, q: seq<int>, window: int, clock: int)
  {
    && Sorted(l, clock) && |q| <= |l| && q == l[|l| - |q|..]
    && forall i :: 0 <= i < |l| - |q| ==> l[i] <= clock - window
  }

  ghost predicate Ok(c: Rate, w: World, clock: int)
  {
    forall k :: QueueOk(Queue(w.log, k), Queue(w.m, k), c.window, clock)
  }

  lemma {:induction false} PopSorted(l: seq<int>, clock: int, cutoff: int)
    requires Sorted(l, clock)
    ensures |Pop(l, cutoff)| <= |l| && Pop(l, cutoff) == l[|l| - |Pop(l, cutoff)|..]
    ensures forall i :: 0 <= i < |l| - |Pop(l, cutoff)| ==> l[i] <= cutoff
    ensures forall i :: |l| - |Pop(l, cutoff)| <= i < |l| ==> l[i] > cutoff
    decreases |l|
  {
    if l != [] && l[0] <= cutoff {
      PopSorted(l[1..], clock, cutoff);
    } else if l != [] {
      assert forall i :: 0 <= i < |l| ==> l[0] <= l[i];
    }
  }

  lemma {:induction false} PopSuffix(l: seq<int>, cutoff: int, k: nat)
    requires k <= |l| && forall i :: 0 <= i < k ==> l[i] <= cutoff
    ensures Pop(l[k..], cutoff) == Pop(l, cutoff)
    decreases k
  {
    if k > 0 {
      PopSuffix(l[1..], cutoff, k - 1);
      assert l[1..][k - 1..] == l[k..];
    } else {
      assert l[0..] == l;
    }
  }

  /** Counting when the first part lies outside the interval and the rest inside. */
  lemma {:induction false} CountSplit(l: seq<int>, lo: int, hi: int, k: nat)
    requires k <= |l| && (forall i :: 0 <= i < k ==> l[i] <= lo) && (forall i :: k <= i < |l| ==> lo < l[i] <= hi)
    ensures Count(l, lo, hi) == |l| - k
    decreases |l|
  {
    if l != [] {
      var init := l[..|l| - 1];
      CountSplit(init, lo, hi, if k == |l| then k - 1 else k);
    }
  }

  /** What is left of the queue is exactly the events of the log still in the window. */
  lemma PopIsExact(l: seq<int>, q: seq<int>, window: int, clock: int, now: int)
    requires QueueOk(l, q, window, clock) && clock <= now
    ensures |Pop(q, now - window)| == Count(l, now - window, now)
    ensures QueueOk(l, Pop(q, now - window), window, now)
  {
    var cutoff := now - window;
    assert Pop(q, cutoff) == Pop(l, cutoff) by {
      PopSuffix(l, cutoff, |l| - |q|);
    }
    PopOfLog(l, window, clock, now);
  }

  lemma PopOfLog(l: seq<int>, window: int, clock: int, now: int)
    requires Sorted(l, clock) && clock <= now
    ensures |Pop(l, now - window)| == Count(l, now - window, now)
    ensures QueueOk(l, Pop(l, now - window), window, now)
  {
    PopSorted(l, clock, now - window);
    CountSplit(l, now - window, now, |l| - |Pop(l, now - window)|);
  }

  /** `check` is exact: it succeeds if and only if fewer than `limit` recorded events of the key lie
      in the last `window` seconds. */
  lemma CheckIsExact(c: Rate, w: World, clock: int, key: string, now: int)
    requires Ok(c, w, clock) && clock <= now
    ensures Fits(c, w.m, key, now) <==> c.limit == 0 || Count(Queue(w.log, key), now - c.window, now) < c.limit
  {
    assert QueueOk(Queue(w.log, key), Queue(w.m, key), c.window, clock);
    PopIsExact(Queue(w.log, key), Queue(w.m, key), c.window, clock, now);
    if key !in w.m {
      assert Pop([], now - c.window) == [];
    }
  }

  lemma QueueLater(l: seq<int>, q: seq<int>, window: int, clock: int, now: int)
    requires QueueOk(l, q, window, clock) && clock <= now
    ensures QueueOk(l, q, window, now)
  {
  }

  lemma QueueRecord(l: seq<int>, q: seq<int>, window: int, now: int)
    requires QueueOk(l, q, window, now)
    ensures QueueOk(l + [now], q + [now], window, now)
  {
  }

  lemma CheckKeepsOk(c: Rate, w: World, clock: int, key: string, now: int)
    requires Ok(c, w, clock) && clock <= now
    ensures Ok(c, w.(m := Checked(c, w.m, key, now)), now)
  {
    var m := Checked(c, w.m, key, now);
    forall k ensures QueueOk(Queue(w.log, k), Queue(m, k), c.window, now) {
      assert QueueOk(Queue(w.log, k), Queue(w.m, k), c.window, clock);
      if k == key && c.limit != 0 && key in w.m {
        PopIsExact(Queue(w.log, k), Queue(w.m, k), c.window, clock, now);
      } else {
        QueueLater(Queue(w.log, k), Queue(w.m, k), c.window, clock, now);
      }
    }
  }

  lemma SweepKeepsOk(c: Rate, w: World, clock: int, now: int)
    requires Ok(c, w, clock) && clock <= now
    ensures Ok(c, w.(m := Swept(c, w.m, now)), now)
  {
  }

  lemma RecordKeepsOk(c: Rate, w: World, key: string, now: int)
    requires Ok(c, w, now)
    ensures Ok(c, World(Recorded(c, w.m, key, now), Recorded(c, w.log, key, now)), now)
  {
    forall k
      ensures QueueOk(Queue(Recorded(c, w.log, key, now), k), Queue(Recorded(c, w.m, key, now), k), c.window, now)
    {
      assert QueueOk(Queue(w.log, k), Queue(w.m, k), c.window, now);
      if k == key && c.limit != 0 {
        QueueRecord(Queue(w.log, k), Queue(w.m, k), c.window, now);
      }
    }
  }

  lemma ApplyKeepsOk(c: Rate, w: World, clock: int, op: Op)
    requires Ok(c, w, clock) && clock <= op.now
    ensures Ok(c, Apply(c, w, op), op.now)
  {
    match op
    case Check(key, now) => CheckKeepsOk(c, w, clock, key, now);
    case Sweep(now) => SweepKeepsOk(c, w, clock, now);
    case Allow(key, now) =>
      CheckKeepsOk(c, w, clock, key, now);
      RecordKeepsOk(c, w.(m := Checked(c, w.m, key, now)), key, now);
  }

  // ---- Over whole runs ----

  /** No interval of the window's length holds more than `limit` recorded events. */
  ghost predicate Bounded(l: seq<int>, c: Rate)
  {
    forall x :: InInterval(l, c, x) <= c.limit
  }

  /** How many events lie in the interval of one window that begins after `x`. */
  function InInterval(l: seq<int>, c: Rate, x: int): nat
  {
    Count(l, x, x + c.window)
  }

  lemma {:induction false} CountNarrows(l: seq<int>, lo: int, hi: int, lo': int, hi': int, clock: int)
    requires Sorted(l, clock) && lo' <= lo && clock <= hi'
    ensures Count(l, lo, hi) <= Count(l, lo', hi')
    decreases |l|
  {
    if l != [] {
      CountNarrows(l[..|l| - 1], lo, hi, lo', hi', clock);
    }
  }

  lemma RecordKeepsBounded(l: seq<int>, c: Rate, now: int)
    requires Sorted(l, now) && Bounded(l, c) && Count(l, now - c.window, now) < c.limit
    ensures Bounded(l + [now], c)
  {
    forall x ensures InInterval(l + [now], c, x) <= c.limit {
      assert (l + [now])[..|l|] == l;
      assert InInterval(l, c, x) <= c.limit;
      if x < now <= x + c.window {
        CountNarrows(l, x, x + c.window, now - c.window, now, now);
      }
    }
  }

  ghost predicate AllBounded(c: Rate, w: World)
  {
    forall k :: Bounded(Queue(w.log, k), c)
  }

  lemma ApplyKeepsBounded(c: Rate, w: World, clock: int, op: Op)
    requires c.limit > 0 && Ok(c, w, clock) && AllBounded(c, w) && clock <= op.now
    ensures AllBounded(c, Apply(c, w, op))
  {
    var w' := Apply(c, w, op);
    forall k ensures Bounded(Queue(w'.log, k), c) {
      assert Bounded(Queue(w.log, k), c);
      if op.Allow? && op.key == k && Fits(c, w.m, k, op.now) {
        CheckIsExact(c, w, clock, k, op.now);
        assert QueueOk(Queue(w.log, k), Queue(w.m, k), c.window, clock);
        RecordKeepsBounded(Queue(w.log, k), c, op.now);
      }
    }
  }

  lemma {:induction false} RunKeepsBounded(c: Rate, w: World, clock: int, ops: seq<Op>)
    requires c.limit > 0 && Ok(c, w, clock) && AllBounded(c, w) && InOrder(clock, ops)
    ensures AllBounded(c, Run(c, w, ops))
    decreases |ops|
  {
    if ops != [] {
      ApplyKeepsOk(c, w, clock, ops[0]);
      ApplyKeepsBounded(c, w, clock, ops[0]);
      RunKeepsBounded(c, Apply(c, w, ops[0]), ops[0].now, ops[1..]);
    }
  }

  /** The time of the last operation. */
  function Latest(clock: int, ops: seq<Op>): int
  {
    if ops == [] then clock else ops[|ops| - 1].now
  }

  lemma {:induction false} RunKeepsOk(c: Rate, w: World, clock: int, ops: seq<Op>)
    requires Ok(c, w, clock) && InOrder(clock, ops)
    ensures Ok(c, Run(c, w, ops), Latest(clock, ops))
    decreases |ops|
  {
    if ops != [] {
      ApplyKeepsOk(c, w, clock, ops[0]);
      RunKeepsOk(c, Apply(c, w, ops[0]), ops[0].now, ops[1..]);
    }
  }

  /** The times at which the limiter said yes to `allow` for a key, read off the answers. */
  function Accepted(c: Rate, w: World, ops: seq<Op>, key: string): seq<int>
    decreases |ops|
  {
    if ops == [] then []
    else
      var op := ops[0];
      (if op.Allow? && op.key == key && Answer(c, w, op) then [op.now] else [])
      + Accepted(c, Apply(c, w, op), ops[1..], key)
  }

  lemma {:induction false} LogIsAccepted(c: Rate, w: World, ops: seq<Op>, key: string)
    requires c.limit > 0
    ensures Queue(Run(c, w, ops).log, key) == Queue(w.log, key) + Accepted(c, w, ops, key)
    decreases |ops|
  {
    if ops == [] {
      assert Queue(w.log, key) + [] == Queue(w.log, key);
    } else {
      var op := ops[0];
      LogIsAccepted(c, Apply(c, w, op), ops[1..], key);
      var rest := Accepted(c, Apply(c, w, op), ops[1..], key);
      if op.Allow? && op.key == key && Answer(c, w, op) {
        assert Queue(w.log, key) + [op.now] + rest == Queue(w.log, key) + ([op.now] + rest);
      } else {
        assert [] + rest == rest;
      }
    }
  }

  /** From a new limiter, after any operations in order: the next request is allowed if and only if fewer
      than `limit` of those allowed before lie in the last `window` seconds. */
  lemma ExactAfterAnyRun(c: Rate, clock: int, ops: seq<Op>, key: string, now: int)
    requires InOrder(clock, ops) && Latest(clock, ops) <= now
    ensures Fits(c, Run(c, NEW, ops).m, key, now) <==>
              c.limit == 0 || Count(Accepted(c, NEW, ops, key), now - c.window, now) < c.limit
  {
    if c.limit > 0 {
      RunKeepsOk(c, NEW, clock, ops);
      CheckIsExact(c, Run(c, NEW, ops), Latest(clock, ops), key, now);
      LogIsAccepted(c, NEW, ops, key);
      assert [] + Accepted(c, NEW, ops, key) == Accepted(c, NEW, ops, key);
    }
  }

  /** From a new limiter, whatever is asked of it in order: never more than `limit` requests of one key
      are allowed in any interval of `window` seconds. */
  lemma NeverOverfull(c: Rate, clock: int, ops: seq<Op>, key: string, x: int)
    requires c.limit > 0 && InOrder(clock, ops)
    ensures InInterval(Accepted(c, NEW, ops, key), c, x) <= c.limit
  {
    assert Count([], x, x + c.window) == 0;
    RunKeepsBounded(c, NEW, clock, ops);
    assert Bounded(Queue(Run(c, NEW, ops).log, key), c);
    LogIsAccepted(c, NEW, ops, key);
    assert [] + Accepted(c, NEW, ops, key) == Accepted(c, NEW, ops, key);
  }

  lemma SameLogSameStep(c: Rate, v: World, w: World, clock: int, op: Op)
    requires Ok(c, v, clock) && Ok(c, w, clock) && v.log == w.log && clock <= op.now
    ensures Answer(c, v, op) == Answer(c, w, op) && Apply(c, v, op).log == Apply(c, w, op).log
  {
    if !op.Sweep? {
      CheckIsExact(c, v, clock, op.key, op.now);
      CheckIsExact(c, w, clock, op.key, op.now);
    }
  }

  lemma RunFirst(c: Rate, w: World, ops: seq<Op>, clock: int)
    requires ops != [] && InOrder(clock, ops)
    ensures Run(c, w, ops) == Run(c, Apply(c, w, ops[0]), ops[1..])
    ensures Answers(c, w, ops) == [Answer(c, w, ops[0])] + Answers(c, Apply(c, w, ops[0]), ops[1..])
    ensures clock <= ops[0].now && InOrder(ops[0].now, ops[1..])
  {
  }

  /** Two limiters with the same log answer alike for ever, whatever either has dropped. */
  lemma {:induction false} SameLogSameAnswers(c: Rate, v: World, w: World, clock: int, ops: seq<Op>)
    requires Ok(c, v, clock) && Ok(c, w, clock) && v.log == w.log && InOrder(clock, ops)
    ensures Run(c, v, ops).log == Run(c, w, ops).log && Answers(c, v, ops) == Answers(c, w, ops)
    decreases |ops|
  {
    if ops != [] {
      var op := ops[0];
      RunFirst(c, v, ops, clock);
      RunFirst(c, w, ops, clock);
      SameLogSameStep(c, v, w, clock, op);
      ApplyKeepsOk(c, v, clock, op);
      ApplyKeepsOk(c, w, clock, op);
      var v', w' := Apply(c, v, op), Apply(c, w, op);
      SameLogSameAnswers(c, v', w', op.now, ops[1..]);
    }
  }

  /** A sweep never changes a later answer, nor which events are accepted. */
  lemma SweepIsInvisible(c: Rate, w: World, clock: int, now: int, ops: seq<Op>)
    requires Ok(c, w, clock) && clock <= now && InOrder(now, ops)
    ensures Run(c, Apply(c, w, Sweep(now)), ops).log == Run(c, w, ops).log
    ensures Answers(c, Apply(c, w, Sweep(now)), ops) == Answers(c, w, ops)
  {
    SweepKeepsOk(c, w, clock, now);
    forall k ensures QueueOk(Queue(w.log, k), Queue(w.m, k), c.window, now) {
      QueueLater(Queue(w.log, k), Queue(w.m, k), c.window, clock, now);
    }
    SameLogSameAnswers(c, Apply(c, w, Sweep(now)), w, now, ops);
  }

  // ---- What is kept ----

  /** No key has more events than the limit, and without a limit none has any. */
  predicate Small(c: Rate, m: Queues)
  {
    (forall k :: k in m ==> |m[k]| <= c.limit) && (c.limit == 0 ==> m == map[])
  }

  lemma {:induction false} PopIsShorter(q: seq<int>, cutoff: int)
    ensures |Pop(q, cutoff)| <= |q|
    decreases |q|
  {
    if q != [] && q[0] <= cutoff {
      PopIsShorter(q[1..], cutoff);
    }
  }

  lemma ApplyKeepsSmall(c: Rate, w: World, op: Op)
    requires Small(c, w.m)
    ensures Small(c, Apply(c, w, op).m)
  {
    if !op.Sweep? && op.key in w.m {
      PopIsShorter(w.m[op.key], op.now - c.window);
    }
  }

  /** What is held does not grow with the requests: over every run at most `limit` events of each key. */
  lemma {:induction false} KeepsLittle(c: Rate, w: World, ops: seq<Op>)
    requires Small(c, w.m)
    ensures Small(c, Run(c, w, ops).m)
    decreases |ops|
  {
    hide Small;
    if ops != [] {
      ApplyKeepsSmall(c, w, ops[0]);
      KeepsLittle(c, Apply(c, w, ops[0]), ops[1..]);
    }
  }

  lemma {:induction false} PopsAllIff(q: seq<int>, clock: int, cutoff: int)
    requires Sorted(q, clock)
    ensures Pop(q, cutoff) != [] <==> q != [] && q[|q| - 1] > cutoff
    decreases |q|
  {
    if q != [] && q[0] <= cutoff {
      PopsAllIff(q[1..], clock, cutoff);
    }
  }

  lemma BusyIff(c: Rate, w: World, clock: int, now: int, key: string)
    requires Ok(c, w, clock) && clock <= now
    ensures key in Swept(c, w.m, now) <==> Count(Queue(w.log, key), now - c.window, now) > 0
  {
    var l, q := Queue(w.log, key), Queue(w.m, key);
    assert QueueOk(l, q, c.window, clock);
    hide Count, Pop, Ok, QueueOk, Sorted;
    QueueIsSorted(l, q, c.window, clock);
    PopIsExact(l, q, c.window, clock, now);
    PopsAllIff(q, clock, now - c.window);
    LeftBySweep(c, w.m, now, key);
  }

  lemma LeftBySweep(c: Rate, m: Queues, now: int, key: string)
    ensures key in Swept(c, m, now) <==> var q := Queue(m, key); q != [] && q[|q| - 1] > now - c.window
  {
  }

  lemma QueueIsSorted(l: seq<int>, q: seq<int>, window: int, clock: int)
    requires QueueOk(l, q, window, clock)
    ensures Sorted(q, clock)
  {
  }

  lemma NewIsOk(c: Rate, clock: int)
    ensures Ok(c, NEW, clock)
  {
  }

  lemma NewLog(c: Rate, ops: seq<Op>, key: string)
    requires c.limit > 0
    ensures Queue(Run(c, NEW, ops).log, key) == Accepted(c, NEW, ops, key)
  {
    hide Run, Accepted;
    LogIsAccepted(c, NEW, ops, key);
    assert [] + Accepted(c, NEW, ops, key) == Accepted(c, NEW, ops, key);
  }

  /** Nor with the keys: after a sweep exactly those are held that were allowed a request in the window. */
  lemma SweepForgetsIdle(c: Rate, clock: int, ops: seq<Op>, now: int, key: string)
    requires c.limit > 0 && InOrder(clock, ops) && Latest(clock, ops) <= now
    ensures key in Swept(c, Run(c, NEW, ops).m, now) <==> Count(Accepted(c, NEW, ops, key), now - c.window, now) > 0
  {
    hide *;
    NewIsOk(c, clock);
    RunKeepsOk(c, NEW, clock, ops);
    NewLog(c, ops, key);
    BusyIff(c, Run(c, NEW, ops), Latest(clock, ops), now, key);
  }
}
