/** The certificate path of the broker: the two per-node limits, consulted only for a request that
    passed every other check. */
module Sign {
  import W = Window
  import D = Distinct

  datatype Limits = Limits(rate: W.Rate, cap: D.Cap)

  /** A request as the earlier checks leave it: refused, or attested for a node and an identity. */
  datatype Request = Refused | Attested(node: string, id: string)

  datatype Op = Sign(r: Request, now: int) | Sweep(now: int)

  datatype Books = Books(rate: W.World, seen: D.Seen)

  /** Whether a request reaches Vault. */
  predicate ReachesVault(c: Limits, b: Books, r: Request, now: int)
  {
    && r.Attested?
    && W.Fits(c.rate, b.rate.m, r.node, now) && D.Admits(c.cap, b.seen, r.node, r.id, now)
  }

  /** `sign` up to the call to Vault: the rate is checked, then the identity admitted, and only then
      the rate recorded. */
  function Signed(c: Limits, b: Books, r: Request, now: int): Books
  {
    if r.Refused? then b
    else
      var m := W.Checked(c.rate, b.rate.m, r.node, now);
      if !W.Fits(c.rate, b.rate.m, r.node, now) then b.(rate := b.rate.(m := m))
      else
        var seen := D.After(c.cap, b.seen, r.node, r.id, now);
        if !D.Admits(c.cap, b.seen, r.node, r.id, now) then Books(b.rate.(m := m), seen)
        else Books(W.World(W.Recorded(c.rate, m, r.node, now), W.Recorded(c.rate, b.rate.log, r.node, now)), seen)
  }

  function Apply(c: Limits, b: Books, op: Op): Books
  {
    match op
    case Sign(r, now) => Signed(c, b, r, now)
    case Sweep(now) => Books(b.rate.(m := W.Swept(c.rate, b.rate.m, now)), D.Swept(c.cap, b.seen, now))
  }

  predicate Answer(c: Limits, b: Books, op: Op)
  {
    op.Sweep? || ReachesVault(c, b, op.r, op.now)
  }

  function Answers(c: Limits, b: Books, ops: seq<Op>): seq<bool>
    decreases |ops|
  {
    if ops == [] then [] else [Answer(c, b, ops[0])] + Answers(c, Apply(c, b, ops[0]), ops[1..])
  }

  predicate InOrder(clock: int, ops: seq<Op>)
    decreases |ops|
  {
    ops == [] || (clock <= ops[0].now && InOrder(ops[0].now, ops[1..]))
  }

  class Signer {
    const rate: W.Limiter
    const identities: D.Limiter
    ghost var log: W.Queues

    constructor (ratePerMinute: nat, identitiesPerHour: nat)
      ensures rate.rate == W.Rate(ratePerMinute, 60) && identities.cap == D.Cap(identitiesPerHour, 3600)
      ensures Limiting() == Books(W.NEW, map[]) && fresh(rate) && fresh(identities)
    {
      rate := new W.Limiter(ratePerMinute, 60);
      identities := new D.Limiter(identitiesPerHour, 3600);
      log := map[];
    }

    ghost function Limiting(): Books
      reads this, rate, identities
    {
      Books(W.World(rate.events, log), identities.seen)
    }

    /** The limits of `sign`; `vault` says whether the request goes on to Vault. */
    method Admit(r: Request, now: int) returns (vault: bool)
      modifies this, rate, identities
      ensures vault == old(ReachesVault(Limits(rate.rate, identities.cap), Limiting(), r, now))
      ensures Limiting() == old(Signed(Limits(rate.rate, identities.cap), Limiting(), r, now))
    {
      if r.Refused? {
        return false;
      }
      vault := rate.Check(r.node, now);
      if !vault {
        return;
      }
      vault := identities.Allow(r.node, r.id, now);
      if !vault {
        return;
      }
      rate.Record(r.node, now);
      log := W.Recorded(rate.rate, log, r.node, now);
    }
  }

  // ---- Refused requests ----

  /** Books that answer alike from now on: the same recorded events, the same windows under way. */
  ghost predicate Alike(c: Limits, b: Books, b': Books, clock: int)
  {
    && W.Ok(c.rate, b.rate, clock) && W.Ok(c.rate, b'.rate, clock) && b.rate.log == b'.rate.log
    && D.Alike(c.cap, b.seen, b'.seen, clock)
  }

  lemma SignedKeepsRate(c: Limits, b: Books, clock: int, r: Request, now: int)
    requires W.Ok(c.rate, b.rate, clock) && clock <= now
    ensures W.Ok(c.rate, Signed(c, b, r, now).rate, now)
  {
    if r.Attested? {
      W.CheckKeepsOk(c.rate, b.rate, clock, r.node, now);
      W.RecordKeepsOk(c.rate, b.rate.(m := W.Checked(c.rate, b.rate.m, r.node, now)), r.node, now);
    } else {
      forall k ensures W.QueueOk(W.Queue(b.rate.log, k), W.Queue(b.rate.m, k), c.rate.window, now) {
        W.QueueLater(W.Queue(b.rate.log, k), W.Queue(b.rate.m, k), c.rate.window, clock, now);
      }
    }
  }

  lemma ApplyKeepsRate(c: Limits, b: Books, clock: int, op: Op)
    requires W.Ok(c.rate, b.rate, clock) && clock <= op.now
    ensures W.Ok(c.rate, Apply(c, b, op).rate, op.now)
  {
    match op
    case Sign(r, now) => SignedKeepsRate(c, b, clock, r, now);
    case Sweep(now) => W.SweepKeepsOk(c.rate, b.rate, clock, now);
  }

  /** What `sign` does to the identity limiter, in the limiter's own operations. */
  lemma SeenStep(c: Limits, b: Books, b': Books, clock: int, op: Op)
    requires Alike(c, b, b', clock) && clock <= op.now
    requires op.Sign? && op.r.Attested? ==>
               (W.Fits(c.rate, b.rate.m, op.r.node, op.now) <==> W.Fits(c.rate, b'.rate.m, op.r.node, op.now))
    ensures D.Alike(c.cap, Apply(c, b, op).seen, Apply(c, b', op).seen, op.now)
    ensures op.Sign? && op.r.Attested? ==>
              D.Admits(c.cap, b.seen, op.r.node, op.r.id, op.now)
              == D.Admits(c.cap, b'.seen, op.r.node, op.r.id, op.now)
  {
    match op
    case Sweep(now) => D.AlikeStep(c.cap, b.seen, b'.seen, clock, D.Sweep(now));
    case Sign(r, now) =>
      if r.Attested? {
        D.AlikeStep(c.cap, b.seen, b'.seen, clock, D.Allow(r.node, r.id, now));
      }
      AlikeLater(c.cap, b.seen, b'.seen, clock, now);
  }

  lemma AlikeLater(c: D.Cap, m: D.Seen, m': D.Seen, clock: int, now: int)
    requires D.Alike(c, m, m', clock) && clock <= now
    ensures D.Alike(c, m, m', now)
  {
    forall node ensures D.Live(c, m, node, now) == D.Live(c, m', node, now) {
      assert D.Live(c, m, node, clock) == D.Live(c, m', node, clock);
    }
  }

  lemma FitsAlike(c: Limits, b: Books, b': Books, clock: int, node: string, now: int)
    requires W.Ok(c.rate, b.rate, clock) && W.Ok(c.rate, b'.rate, clock) && b.rate.log == b'.rate.log && clock <= now
    ensures W.Fits(c.rate, b.rate.m, node, now) <==> W.Fits(c.rate, b'.rate.m, node, now)
  {
    W.CheckIsExact(c.rate, b.rate, clock, node, now);
    W.CheckIsExact(c.rate, b'.rate, clock, node, now);
  }

  lemma LogsAlike(c: Limits, b: Books, b': Books, op: Op)
    requires b.rate.log == b'.rate.log && Answer(c, b, op) == Answer(c, b', op)
    ensures Apply(c, b, op).rate.log == Apply(c, b', op).rate.log
  {
  }

  lemma AnswersAlike(c: Limits, b: Books, b': Books, clock: int, op: Op)
    requires Alike(c, b, b', clock) && clock <= op.now
    ensures Answer(c, b, op) == Answer(c, b', op)
    ensures D.Alike(c.cap, Apply(c, b, op).seen, Apply(c, b', op).seen, op.now)
  {
    if op.Sign? && op.r.Attested? {
      FitsAlike(c, b, b', clock, op.r.node, op.now);
    }
    SeenStep(c, b, b', clock, op);
  }

  lemma AlikeStep(c: Limits, b: Books, b': Books, clock: int, op: Op)
    requires Alike(c, b, b', clock) && clock <= op.now
    ensures Answer(c, b, op) == Answer(c, b', op) && Alike(c, Apply(c, b, op), Apply(c, b', op), op.now)
  {
    ApplyKeepsRate(c, b, clock, op);
    ApplyKeepsRate(c, b', clock, op);
    AnswersAlike(c, b, b', clock, op);
    LogsAlike(c, b, b', op);
  }

  lemma {:induction false} AlikeAnswers(c: Limits, b: Books, b': Books, clock: int, ops: seq<Op>)
    requires Alike(c, b, b', clock) && InOrder(clock, ops)
    ensures Answers(c, b, ops) == Answers(c, b', ops)
    decreases |ops|
  {
    if ops != [] {
      AlikeStep(c, b, b', clock, ops[0]);
      AlikeAnswers(c, Apply(c, b, ops[0]), Apply(c, b', ops[0]), ops[0].now, ops[1..]);
    }
  }

  /** A request refused before Vault is called changes no later decision of either limiter. */
  lemma RefusalIsInvisible(c: Limits, b: Books, clock: int, r: Request, now: int, ops: seq<Op>)
    requires W.Ok(c.rate, b.rate, clock) && clock <= now && InOrder(now, ops)
    requires !ReachesVault(c, b, r, now)
    ensures Answers(c, Signed(c, b, r, now), ops) == Answers(c, b, ops)
  {
    SignedKeepsRate(c, b, clock, r, now);
    SignedKeepsRate(c, b, clock, Refused, now);
    if r.Attested? && !D.Admits(c.cap, b.seen, r.node, r.id, now) {
      D.RefusalChangesNothing(c.cap, b.seen, r.node, r.id, now);
    }
    AlikeAnswers(c, Signed(c, b, r, now), b, now, ops);
  }

  // ---- Calls to Vault ----

  function Run(c: Limits, b: Books, ops: seq<Op>): Books
    decreases |ops|
  {
    if ops == [] then b else Run(c, Apply(c, b, ops[0]), ops[1..])
  }

  lemma RateIs(c: Limits, b: Books, op: Op)
    ensures var after := Apply(c, b, op).rate;
            if op.Sign? && ReachesVault(c, b, op.r, op.now)
            then op.r.Attested? && after == W.Apply(c.rate, b.rate, W.Allow(op.r.node, op.now))
            else after.log == b.rate.log
  {
    hide W.Checked, W.Recorded, W.Fits, W.Swept, D.After, D.Admits, D.Swept;
  }

  lemma SameLogIsBounded(c: W.Rate, w: W.World, w': W.World)
    requires W.AllBounded(c, w) && w'.log == w.log
    ensures W.AllBounded(c, w')
  {
  }

  lemma ApplyKeepsBounded(c: Limits, b: Books, clock: int, op: Op)
    requires c.rate.limit > 0 && W.Ok(c.rate, b.rate, clock) && W.AllBounded(c.rate, b.rate) && clock <= op.now
    ensures W.AllBounded(c.rate, Apply(c, b, op).rate)
  {
    hide *;
    RateIs(c, b, op);
    if op.Sign? && ReachesVault(c, b, op.r, op.now) {
      W.ApplyKeepsBounded(c.rate, b.rate, clock, W.Allow(op.r.node, op.now));
    } else {
      SameLogIsBounded(c.rate, b.rate, Apply(c, b, op).rate);
    }
  }

  lemma {:induction false} RunKeepsBounded(c: Limits, b: Books, clock: int, ops: seq<Op>)
    requires c.rate.limit > 0 && W.Ok(c.rate, b.rate, clock) && W.AllBounded(c.rate, b.rate) && InOrder(clock, ops)
    ensures W.AllBounded(c.rate, Run(c, b, ops).rate)
    decreases |ops|
  {
    if ops != [] {
      ApplyKeepsRate(c, b, clock, ops[0]);
      ApplyKeepsBounded(c, b, clock, ops[0]);
      RunKeepsBounded(c, Apply(c, b, ops[0]), ops[0].now, ops[1..]);
    }
  }

  /** The requests of a node that reach Vault: their identities and times. */
  function Reached(c: Limits, b: Books, ops: seq<Op>, node: string): seq<(string, int)>
    decreases |ops|
  {
    if ops == [] then []
    else
      var op := ops[0];
      (if op.Sign? && ReachesVault(c, b, op.r, op.now) && op.r.node == node then [(op.r.id, op.now)] else [])
      + Reached(c, Apply(c, b, op), ops[1..], node)
  }

  /** What one operation asks of the identity limiter. */
  function Asks(c: Limits, b: Books, op: Op): seq<D.Op>
  {
    match op
    case Sweep(now) => [D.Sweep(now)]
    case Sign(r, now) =>
      if r.Attested? && W.Fits(c.rate, b.rate.m, r.node, now) then [D.Allow(r.node, r.id, now)] else []
  }

  function AsksAll(c: Limits, b: Books, ops: seq<Op>): seq<D.Op>
    decreases |ops|
  {
    if ops == [] then [] else Asks(c, b, ops[0]) + AsksAll(c, Apply(c, b, ops[0]), ops[1..])
  }

  lemma {:induction false} AsksInOrder(c: Limits, b: Books, clock: int, ops: seq<Op>)
    requires InOrder(clock, ops)
    ensures D.InOrder(clock, AsksAll(c, b, ops))
    decreases |ops|
  {
    if ops != [] {
      var rest := AsksAll(c, Apply(c, b, ops[0]), ops[1..]);
      AsksInOrder(c, Apply(c, b, ops[0]), ops[0].now, ops[1..]);
      if Asks(c, b, ops[0]) == [] {
        assert AsksAll(c, b, ops) == rest;
        EarlierStart(clock, ops[0].now, rest);
      } else {
        assert AsksAll(c, b, ops)[1..] == rest;
      }
    }
  }

  lemma EarlierStart(clock: int, now: int, ops: seq<D.Op>)
    requires clock <= now && D.InOrder(now, ops)
    ensures D.InOrder(clock, ops)
  {
  }

  /** What one operation asks of the identity limiter, answered. */
  lemma AsksStep(c: Limits, b: Books, op: Op, node: string)
    ensures D.NextAll(c.cap, b.seen, Asks(c, b, op)) == Apply(c, b, op).seen
    ensures D.Accepted(c.cap, b.seen, Asks(c, b, op), node) == Reached(c, b, [op], node)
  {
    var asks := Asks(c, b, op);
    assert [op][1..] == [] && Reached(c, Apply(c, b, op), [], node) == [];
    if asks != [] {
      assert asks[1..] == [] && D.Accepted(c.cap, D.Next(c.cap, b.seen, asks[0]), [], node) == [];
    }
  }

  lemma {:induction false} AcceptedConcat(c: D.Cap, m: D.Seen, a: seq<D.Op>, b: seq<D.Op>, node: string)
    ensures D.NextAll(c, m, a + b) == D.NextAll(c, D.NextAll(c, m, a), b)
    ensures D.Accepted(c, m, a + b, node) == D.Accepted(c, m, a, node) + D.Accepted(c, D.NextAll(c, m, a), b, node)
    decreases |a|
  {
    if a == [] {
      assert a + b == b && [] + D.Accepted(c, m, b, node) == D.Accepted(c, m, b, node);
    } else {
      assert (a + b)[1..] == a[1..] + b;
      var next := D.Next(c, m, a[0]);
      AcceptedConcat(c, next, a[1..], b, node);
      var one := if a[0].Allow? && a[0].node == node && D.Answer(c, m, a[0]) then [(a[0].id, a[0].now)] else [];
      D.Associative(one, D.Accepted(c, next, a[1..], node), D.Accepted(c, D.NextAll(c, next, a[1..]), b, node));
    }
  }

  /** Driven by `sign`, the identity limiter admits exactly what reaches Vault. */
  lemma {:induction false} AdmittedReachVault(c: Limits, b: Books, ops: seq<Op>, node: string)
    ensures var asks := AsksAll(c, b, ops);
            && D.NextAll(c.cap, b.seen, asks) == Run(c, b, ops).seen
            && D.Accepted(c.cap, b.seen, asks, node) == Reached(c, b, ops, node)
    decreases |ops|
  {
    if ops != [] {
      var op, rest := ops[0], ops[1..];
      var asks, b' := Asks(c, b, op), Apply(c, b, op);
      AsksStep(c, b, op, node);
      ReachedFirst(c, b, ops, node);
      hide Asks, Apply, Reached, D.NextAll, D.Accepted;
      AcceptedConcat(c.cap, b.seen, asks, AsksAll(c, b', rest), node);
      AdmittedReachVault(c, b', rest, node);
    }
  }

  lemma ReachedFirst(c: Limits, b: Books, ops: seq<Op>, node: string)
    requires ops != []
    ensures Reached(c, b, ops, node)
         == Reached(c, b, [ops[0]], node) + Reached(c, Apply(c, b, ops[0]), ops[1..], node)
  {
    hide Apply, ReachesVault;
    assert [ops[0]][1..] == [] && Reached(c, Apply(c, b, ops[0]), [], node) == [];
  }

  /** Driven by `sign`, the rate limiter has recorded exactly what reached Vault. */
  lemma {:induction false} LogIsReached(c: Limits, b: Books, ops: seq<Op>, node: string)
    requires c.rate.limit > 0
    ensures W.Queue(Run(c, b, ops).rate.log, node) == W.Queue(b.rate.log, node) + Times(Reached(c, b, ops, node))
    decreases |ops|
  {
    if ops == [] {
      assert W.Queue(b.rate.log, node) + [] == W.Queue(b.rate.log, node);
    } else {
      LogStep(c, b, ops[0], node);
      ReachedFirst(c, b, ops, node);
      hide Apply, Reached, W.Queue, Times;
      var b' := Apply(c, b, ops[0]);
      var one, rest := Reached(c, b, [ops[0]], node), Reached(c, b', ops[1..], node);
      LogIsReached(c, b', ops[1..], node);
      TimesConcat(one, rest);
      AssociativeTimes(W.Queue(b.rate.log, node), Times(one), Times(rest));
    }
  }

  lemma AssociativeTimes(a: seq<int>, b: seq<int>, c: seq<int>)
    ensures a + b + c == a + (b + c)
  {
  }

  function Times(reached: seq<(string, int)>): (times: seq<int>)
    ensures |times| == |reached| && forall i :: 0 <= i < |times| ==> times[i] == reached[i].1
  {
    seq(|reached|, i requires 0 <= i < |reached| => reached[i].1)
  }

  lemma TimesConcat(a: seq<(string, int)>, b: seq<(string, int)>)
    ensures Times(a + b) == Times(a) + Times(b)
  {
  }

  lemma LogStep(c: Limits, b: Books, op: Op, node: string)
    requires c.rate.limit > 0
    ensures W.Queue(Apply(c, b, op).rate.log, node) == W.Queue(b.rate.log, node) + Times(Reached(c, b, [op], node))
  {
    assert [op][1..] == [] && Reached(c, Apply(c, b, op), [], node) == [];
    assert W.Queue(b.rate.log, node) + [] == W.Queue(b.rate.log, node);
  }

  // ---- The limits, over what reaches Vault ----

  const NEW := Books(W.NEW, map[])

  lemma NewIsOk(c: W.Rate, clock: int)
    ensures W.Ok(c, W.NEW, clock) && W.AllBounded(c, W.NEW)
  {
    forall x ensures W.InInterval([], c, x) == 0 {
      assert W.Count([], x, x + c.window) == 0;
    }
  }

  lemma NewLog(c: Limits, ops: seq<Op>, node: string)
    requires c.rate.limit > 0
    ensures W.Queue(Run(c, NEW, ops).rate.log, node) == Times(Reached(c, NEW, ops, node))
  {
    hide Run, Reached;
    LogIsReached(c, NEW, ops, node);
    assert [] + Times(Reached(c, NEW, ops, node)) == Times(Reached(c, NEW, ops, node));
  }

  lemma AllBoundedMeans(c: W.Rate, w: W.World, node: string, x: int)
    requires W.AllBounded(c, w)
    ensures W.Count(W.Queue(w.log, node), x, x + c.window) <= c.limit
  {
    assert W.Bounded(W.Queue(w.log, node), c);
    assert W.InInterval(W.Queue(w.log, node), c, x) <= c.limit;
  }

  /** Over any run from new books, requests of one node reach Vault at most `limit` times in any
      interval of the rate's window, whatever else is asked, refused or swept in between. */
  lemma VaultCallsAreBounded(c: Limits, clock: int, ops: seq<Op>, node: string, x: int)
    requires c.rate.limit > 0 && InOrder(clock, ops)
    ensures W.Count(Times(Reached(c, NEW, ops, node)), x, x + c.rate.window) <= c.rate.limit
  {
    hide Run, Reached, W.Ok, W.AllBounded, W.Count, InOrder;
    NewIsOk(c.rate, clock);
    RunKeepsBounded(c, NEW, clock, ops);
    NewLog(c, ops, node);
    AllBoundedMeans(c.rate, Run(c, NEW, ops).rate, node, x);
  }

  /** Over any run from new books, the distinct identities of one node that reach Vault in any interval of
      the cap's window are at most twice the cap. */
  lemma IdentitiesAreBounded(c: Limits, clock: int, ops: seq<Op>, node: string, x: int)
    requires c.cap.limit > 0 && c.cap.window > 0 && InOrder(clock, ops)
    ensures |D.Within(Reached(c, NEW, ops, node), x, x + c.cap.window)| <= 2 * c.cap.limit
  {
    AsksInOrder(c, NEW, clock, ops);
    AdmittedReachVault(c, NEW, ops, node);
    D.AtMostTwiceTheLimit(c.cap, clock, AsksAll(c, NEW, ops), node, x);
  }

  function End(clock: int, ops: seq<Op>): int
  {
    if ops == [] then clock else ops[|ops| - 1].now
  }

  lemma {:induction false} RunKeepsRate(c: Limits, b: Books, clock: int, ops: seq<Op>)
    requires W.Ok(c.rate, b.rate, clock) && InOrder(clock, ops)
    ensures W.Ok(c.rate, Run(c, b, ops).rate, End(clock, ops)) && clock <= End(clock, ops)
    decreases |ops|
  {
    hide W.Ok;
    if ops != [] {
      ApplyKeepsRate(c, b, clock, ops[0]);
      RunKeepsRate(c, Apply(c, b, ops[0]), ops[0].now, ops[1..]);
    }
  }

  lemma {:induction false} AsksEnd(c: Limits, b: Books, clock: int, ops: seq<Op>)
    requires InOrder(clock, ops)
    ensures D.End(clock, AsksAll(c, b, ops)) <= End(clock, ops) && clock <= End(clock, ops)
    decreases |ops|
  {
    if ops != [] {
      hide Apply;
      var rest := AsksAll(c, Apply(c, b, ops[0]), ops[1..]);
      AsksEnd(c, Apply(c, b, ops[0]), ops[0].now, ops[1..]);
      if rest == [] {
        assert AsksAll(c, b, ops) == Asks(c, b, ops[0]);
      } else {
        assert AsksAll(c, b, ops)[|AsksAll(c, b, ops)| - 1] == rest[|rest| - 1];
      }
    }
  }

  lemma FitsIff(c: Limits, clock: int, ops: seq<Op>, node: string, now: int)
    requires InOrder(clock, ops) && End(clock, ops) <= now
    ensures W.Fits(c.rate, Run(c, NEW, ops).rate.m, node, now) <==>
              || c.rate.limit == 0
              || W.Count(Times(Reached(c, NEW, ops, node)), now - c.rate.window, now) < c.rate.limit
  {
    hide Run, Reached, W.Ok, W.AllBounded, W.Count, W.Fits, InOrder, Times;
    NewIsOk(c.rate, clock);
    RunKeepsRate(c, NEW, clock, ops);
    W.CheckIsExact(c.rate, Run(c, NEW, ops).rate, End(clock, ops), node, now);
    if c.rate.limit > 0 {
      NewLog(c, ops, node);
    }
  }

  lemma WelcomeIff(c: Limits, clock: int, ops: seq<Op>, node: string, id: string, now: int)
    requires c.cap.window > 0 && InOrder(clock, ops) && End(clock, ops) <= now
    ensures D.Admits(c.cap, Run(c, NEW, ops).seen, node, id, now) <==>
              D.Welcome(c.cap, Reached(c, NEW, ops, node), id, now)
  {
    hide Run, Reached, AsksAll, D.Admits, D.Welcome, InOrder, D.InOrder, D.NextAll, D.Accepted, D.End;
    AsksInOrder(c, NEW, clock, ops);
    AsksEnd(c, NEW, clock, ops);
    AdmittedReachVault(c, NEW, ops, node);
    D.AdmitsIff(c.cap, clock, AsksAll(c, NEW, ops), node, id, now);
  }

  /** Exactly which requests reach Vault, in terms of those that did before: the attested ones of a node with
      fewer than `limit` in the last window whose identity is welcome. */
  lemma ReachesVaultIff(c: Limits, clock: int, ops: seq<Op>, r: Request, now: int)
    requires c.cap.window > 0 && InOrder(clock, ops) && End(clock, ops) <= now
    ensures ReachesVault(c, Run(c, NEW, ops), r, now) <==>
              && r.Attested?
              && var before := Reached(c, NEW, ops, r.node);
                 && (c.rate.limit == 0 || W.Count(Times(before), now - c.rate.window, now) < c.rate.limit)
                 && D.Welcome(c.cap, before, r.id, now)
  {
    hide W.Fits, D.Admits, D.Welcome, Run, Reached, InOrder;
    if r.Attested? {
      FitsIff(c, clock, ops, r.node, now);
      WelcomeIff(c, clock, ops, r.node, r.id, now);
    }
  }
}
