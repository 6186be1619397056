/** How often Vault is asked to mint, told from the requests and what they are answered. */
module TokenMints {
  import opened Text
  import opened Catalog
  import W = Window
  import opened Tokens
  import opened TokenRuns

  // ---- Turns ----

  /** One audience served: for which role and audience, when, whether the catalog approves it, what Vault would
      say, and the reply. */
  datatype Turn = Turn(
    role: string, audience: string, now: int, approved: bool, answer: Answer, reply: Result<Grant, Refusal>)

  function TurnOf(c: Config, b: Broker, caller: Caller, entry: Identity, audience: string, now: int, answer: Answer)
    : Turn
  {
    Turn(RoleOf(c, caller), audience, now, Approves(entry, audience), answer,
         One(c, b, caller, entry, audience, now, answer).1)
  }

  /** Turns of `all` from the `k`th on: up to the first that ends the request. */
  function TurnsFrom(c: Config, b: Broker, caller: Caller, entry: Identity, now: int, answers: nat -> Answer,
                     k: nat): seq<Turn>
    decreases |entry.audiences| - k
  {
    if k >= |entry.audiences| then []
    else
      var audience := entry.audiences[k].audience;
      var turn, after := TurnOf(c, b, caller, entry, audience, now, answers(k)),
                         One(c, b, caller, entry, audience, now, answers(k)).0;
      [turn] + if GoesOn(turn.reply) then TurnsFrom(c, after, caller, entry, now, answers, k + 1) else []
  }

  /** The audiences an operation serves, in turn. */
  function Turns(c: Config, b: Broker, op: Op): seq<Turn>
  {
    if !op.Ask? && !op.AskAll? then []
    else match CallerOf(c, op.cert, op.now)
      case Err(_) => []
      case Ok(caller) =>
        match Lookup(b.catalog, c.cluster, caller.namespace, caller.serviceAccount)
        case None => []
        case Some(entry) =>
          if op.Ask? then [TurnOf(c, b, caller, entry, op.audience, op.now, op.answer)]
          else TurnsFrom(c, b, caller, entry, op.now, op.answers, 0)
  }

  function AllTurns(c: Config, b: Broker, ops: seq<Op>): seq<Turn>
    decreases |ops|
  {
    if ops == [] then [] else Turns(c, b, ops[0]) + AllTurns(c, Apply(c, b, ops[0]), ops[1..])
  }

  predicate FromCache(t: Turn)
  {
    t.reply.Ok? && !t.reply.value.minted
  }

  /** Vault was asked: the audience is approved, the reply is not from the cache and not that there were too
      many. */
  predicate AskedVault(t: Turn)
  {
    t.approved && !FromCache(t) && t.reply != Err(TooMany)
  }

  /** When Vault was asked to mint for a role. */
  function AskedTimes(turns: seq<Turn>, role: string): seq<int>
  {
    if turns == [] then []
    else
      var last := turns[|turns| - 1];
      AskedTimes(turns[..|turns| - 1], role) + if AskedVault(last) && last.role == role then [last.now] else []
  }

  lemma AskedMore(turns: seq<Turn>, t: Turn, role: string)
    ensures AskedTimes(turns + [t], role)
         == AskedTimes(turns, role) + if AskedVault(t) && t.role == role then [t.now] else []
  {
    assert (turns + [t])[..|turns|] == turns;
  }

  // ---- One turn ----

  /** Tokens are cached only once keys are loaded. */
  predicate CacheLoaded(b: Broker)
  {
    b.cache != map[] ==> b.keys.kids.Some?
  }

  lemma OneKeepsLoaded(c: Config, b: Broker, caller: Caller, entry: Identity, audience: string, now: int,
                       answer: Answer)
    requires CacheLoaded(b)
    ensures CacheLoaded(One(c, b, caller, entry, audience, now, answer).0)
  {
  }

  /** A turn not from the cache asks the mint limiter, and is refused exactly if that does. */
  lemma OneAsks(c: Config, b: Broker, caller: Caller, entry: Identity, audience: string, now: int, answer: Answer)
    requires CacheLoaded(b)
    ensures var t := TurnOf(c, b, caller, entry, audience, now, answer);
            var rate := One(c, b, caller, entry, audience, now, answer).0.rate;
            if t.approved && !FromCache(t)
            then && rate == W.Apply(MintRate(c), b.rate, W.Allow(t.role, now))
                 && (t.reply == Err(TooMany) <==> !W.Fits(MintRate(c), b.rate.m, t.role, now))
            else rate == b.rate && t.reply != Err(TooMany)
  {
    hide W.Apply, W.Fits, RoleName, PastHalfLife, RefreshedIfStale;
  }

  /** The limiter's log is what the turns so far asked of Vault. */
  ghost predicate Agrees(c: Config, b: Broker, turns: seq<Turn>, clock: int)
  {
    && CacheLoaded(b) && W.Ok(MintRate(c), b.rate, clock)
    && forall role :: LoggedAs(c, b, turns, role)
  }

  ghost predicate LoggedAs(c: Config, b: Broker, turns: seq<Turn>, role: string)
  {
    c.mintRate > 0 ==> W.Queue(b.rate.log, role) == AskedTimes(turns, role)
  }

  /** A turn is refused for there being too many if and only if it is not from the cache and the limit was
      reached in the last sixty seconds. */
  ghost predicate LimitedRightly(c: Config, turns: seq<Turn>, t: Turn)
  {
    t.approved && !FromCache(t) ==>
      (t.reply == Err(TooMany) <==>
         c.mintRate > 0 && W.Count(AskedTimes(turns, t.role), t.now - 60, t.now) >= c.mintRate)
  }

  lemma LaterOk(c: Config, w: W.World, clock: int, now: int)
    requires W.Ok(MintRate(c), w, clock) && clock <= now
    ensures W.Ok(MintRate(c), w, now)
  {
  }

  lemma AllowLogs(c: Config, w: W.World, asked: string, role: string, now: int)
    requires c.mintRate > 0
    ensures W.Queue(W.Apply(MintRate(c), w, W.Allow(asked, now)).log, role) == W.Queue(w.log, role)
              + if role == asked && W.Fits(MintRate(c), w.m, asked, now) then [now] else []
  {
    assert W.Queue(w.log, role) + [] == W.Queue(w.log, role);
  }

  lemma TurnAgrees(c: Config, b: Broker, turns: seq<Turn>, clock: int, caller: Caller, entry: Identity,
                   audience: string, now: int, answer: Answer)
    requires Agrees(c, b, turns, clock) && clock <= now
    ensures var t := TurnOf(c, b, caller, entry, audience, now, answer);
            && LimitedRightly(c, turns, t)
            && Agrees(c, One(c, b, caller, entry, audience, now, answer).0, turns + [t], now)
  {
    hide One, W.Ok, W.Apply, W.Fits, W.Queue, AskedTimes, W.Count;
    var t, b' := TurnOf(c, b, caller, entry, audience, now, answer), One(c, b, caller, entry, audience, now, answer).0;
    OneKeepsLoaded(c, b, caller, entry, audience, now, answer);
    OneAsks(c, b, caller, entry, audience, now, answer);
    LaterOk(c, b.rate, clock, now);
    W.ApplyKeepsOk(MintRate(c), b.rate, clock, W.Allow(t.role, now));
    W.CheckIsExact(MintRate(c), b.rate, clock, t.role, now);
    assert LoggedAs(c, b, turns, t.role);
    forall role ensures LoggedAs(c, b', turns + [t], role) {
      assert LoggedAs(c, b, turns, role);
      AskedMore(turns, t, role);
      if c.mintRate > 0 {
        AllowLogs(c, b.rate, t.role, role, now);
        assert AskedTimes(turns, role) + [] == AskedTimes(turns, role);
      }
    }
  }

  // ---- Runs ----

  /** Every turn of `more` was limited rightly by those before it. */
  ghost predicate AllLimitedRightly(c: Config, turns: seq<Turn>, more: seq<Turn>)
  {
    forall i :: 0 <= i < |more| ==> LimitedRightly(c, turns + more[..i], more[i])
  }

  lemma OneMoreRightly(c: Config, turns: seq<Turn>, t: Turn, more: seq<Turn>)
    requires LimitedRightly(c, turns, t) && AllLimitedRightly(c, turns + [t], more)
    ensures AllLimitedRightly(c, turns, [t] + more) && turns + [t] + more == turns + ([t] + more)
  {
    hide LimitedRightly;
    var all := [t] + more;
    forall i | 0 <= i < |all| ensures LimitedRightly(c, turns + all[..i], all[i]) {
      if i == 0 {
        assert turns + all[..0] == turns;
      } else {
        assert turns + all[..i] == turns + [t] + more[..i - 1];
      }
    }
  }

  lemma ManyMoreRightly(c: Config, turns: seq<Turn>, some: seq<Turn>, more: seq<Turn>)
    requires AllLimitedRightly(c, turns, some) && AllLimitedRightly(c, turns + some, more)
    ensures AllLimitedRightly(c, turns, some + more) && turns + some + more == turns + (some + more)
  {
    hide LimitedRightly;
    var all := some + more;
    forall i | 0 <= i < |all| ensures LimitedRightly(c, turns + all[..i], all[i]) {
      if i < |some| {
        assert all[..i] == some[..i];
      } else {
        assert turns + all[..i] == turns + some + more[..i - |some|];
      }
    }
  }

  lemma NothingMore(c: Config, turns: seq<Turn>)
    ensures AllLimitedRightly(c, turns, []) && turns + [] == turns
  {
  }

  lemma {:induction false} AllAgrees(c: Config, b: Broker, turns: seq<Turn>, clock: int, caller: Caller,
                                     entry: Identity, k: nat, out: seq<Grant>, now: int, answers: nat -> Answer)
    requires Agrees(c, b, turns, clock) && clock <= now
    ensures var more := TurnsFrom(c, b, caller, entry, now, answers, k);
            && AllLimitedRightly(c, turns, more)
            && Agrees(c, AllFrom(c, b, caller, entry, k, out, now, answers).0, turns + more, now)
    decreases |entry.audiences| - k
  {
    hide One, Agrees, AllLimitedRightly, LimitedRightly;
    NothingMore(c, turns);
    if k >= |entry.audiences| {
      AgreesLater(c, b, turns, clock, now);
    } else {
      var audience := entry.audiences[k].audience;
      var (b', r) := One(c, b, caller, entry, audience, now, answers(k));
      var t := TurnOf(c, b, caller, entry, audience, now, answers(k));
      TurnAgrees(c, b, turns, clock, caller, entry, audience, now, answers(k));
      NothingMore(c, turns + [t]);
      if GoesOn(r) {
        var next := if r.Ok? then out + [r.value] else out;
        AllAgrees(c, b', turns + [t], now, caller, entry, k + 1, next, now, answers);
        OneMoreRightly(c, turns, t, TurnsFrom(c, b', caller, entry, now, answers, k + 1));
      } else {
        OneMoreRightly(c, turns, t, []);
      }
    }
  }

  lemma AgreesLater(c: Config, b: Broker, turns: seq<Turn>, clock: int, now: int)
    requires Agrees(c, b, turns, clock) && clock <= now
    ensures Agrees(c, b, turns, now)
  {
    LaterOk(c, b.rate, clock, now);
  }

  lemma UpkeepAgrees(c: Config, b: Broker, turns: seq<Turn>, clock: int, op: Op)
    requires Agrees(c, b, turns, clock) && clock <= Clock(clock, op) && !op.Ask? && !op.AskAll?
    ensures Agrees(c, Apply(c, b, op), turns, Clock(clock, op))
  {
    hide W.Ok, AskedTimes, Valid;
    LaterOk(c, b.rate, clock, Clock(clock, op));
    forall role ensures LoggedAs(c, Apply(c, b, op), turns, role) {
      assert LoggedAs(c, b, turns, role);
    }
  }

  lemma ApplyAgrees(c: Config, b: Broker, turns: seq<Turn>, clock: int, op: Op)
    requires Agrees(c, b, turns, clock) && clock <= Clock(clock, op)
    ensures AllLimitedRightly(c, turns, Turns(c, b, op))
    ensures Agrees(c, Apply(c, b, op), turns + Turns(c, b, op), Clock(clock, op))
  {
    hide One, AllFrom, Agrees, CallerOf, Lookup, LimitedRightly, AllLimitedRightly;
    NothingMore(c, turns);
    AgreesLater(c, b, turns, clock, Clock(clock, op));
    if !op.Ask? && !op.AskAll? {
      UpkeepAgrees(c, b, turns, clock, op);
    } else if CallerOf(c, op.cert, op.now).Ok? {
      var caller := CallerOf(c, op.cert, op.now).value;
      var found := Lookup(b.catalog, c.cluster, caller.namespace, caller.serviceAccount);
      if found.Some? && op.Ask? {
        TurnAgrees(c, b, turns, clock, caller, found.value, op.audience, op.now, op.answer);
        var t := TurnOf(c, b, caller, found.value, op.audience, op.now, op.answer);
        NothingMore(c, turns + [t]);
        OneMoreRightly(c, turns, t, []);
        assert [t] + [] == [t];
      } else if found.Some? {
        AllAgrees(c, b, turns, clock, caller, found.value, 0, [], op.now, op.answers);
      }
    }
  }

  lemma {:induction false} RunAgrees(c: Config, b: Broker, turns: seq<Turn>, clock: int, ops: seq<Op>)
    returns (end: int)
    requires Agrees(c, b, turns, clock) && InOrder(clock, ops)
    ensures AllLimitedRightly(c, turns, AllTurns(c, b, ops))
    ensures Agrees(c, Run(c, b, ops), turns + AllTurns(c, b, ops), end)
    decreases |ops|
  {
    hide Apply, Turns, Agrees, AllLimitedRightly;
    NothingMore(c, turns);
    if ops == [] {
      end := clock;
    } else {
      var some, b' := Turns(c, b, ops[0]), Apply(c, b, ops[0]);
      ApplyAgrees(c, b, turns, clock, ops[0]);
      end := RunAgrees(c, b', turns + some, Clock(clock, ops[0]), ops[1..]);
      ManyMoreRightly(c, turns, some, AllTurns(c, b', ops[1..]));
    }
  }

  lemma StartAgrees(c: Config, b: Broker, clock: int)
    requires Starting(b)
    ensures Agrees(c, b, [], clock)
  {
  }

  /** Over every run in order and for every audience served in it: one that is not served from the cache is
      refused for there being too many if and only if Vault was asked for its role `mintRate` times in the
      last sixty seconds. */
  lemma TooManyIff(c: Config, b: Broker, clock: int, ops: seq<Op>, i: nat)
    requires Starting(b) && InOrder(clock, ops) && i < |AllTurns(c, b, ops)|
    requires var t := AllTurns(c, b, ops)[i]; t.approved && !FromCache(t)
    ensures var turns := AllTurns(c, b, ops);
            turns[i].reply == Err(TooMany) <==>
              && c.mintRate > 0
              && W.Count(AskedTimes(turns[..i], turns[i].role), turns[i].now - 60, turns[i].now) >= c.mintRate
  {
    hide Run, Starting, AllTurns, AllLimitedRightly, Agrees, InOrder, AskedTimes, W.Count;
    StartAgrees(c, b, clock);
    var end := RunAgrees(c, b, [], clock, ops);
    RightlyMeans(c, AllTurns(c, b, ops), i);
  }

  lemma RightlyMeans(c: Config, turns: seq<Turn>, i: nat)
    requires AllLimitedRightly(c, [], turns) && i < |turns|
    ensures LimitedRightly(c, turns[..i], turns[i])
  {
    hide LimitedRightly;
    assert LimitedRightly(c, [] + turns[..i], turns[i]);
    assert [] + turns[..i] == turns[..i];
  }

  // ---- The bound ----

  lemma NothingIsBounded(c: Config)
    ensures W.Bounded([], MintRate(c))
  {
    forall x ensures W.InInterval([], MintRate(c), x) == 0 {
      assert W.Count([], x, x + 60) == 0;
    }
  }

  lemma SortedInit(l: seq<int>, now: int, clock: int)
    requires W.Sorted(l + [now], clock)
    ensures W.Sorted(l, now) && W.Sorted(l, clock)
  {
    var all := l + [now];
    assert all[|l|] == now && forall i :: 0 <= i < |l| ==> all[i] == l[i];
  }

  /** A turn that is limited rightly keeps the bound. */
  lemma TurnIsBounded(c: Config, init: seq<Turn>, t: Turn, role: string)
    requires c.mintRate > 0 && LimitedRightly(c, init, t) && AskedVault(t) && t.role == role
    requires W.Bounded(AskedTimes(init, role), MintRate(c)) && W.Sorted(AskedTimes(init, role), t.now)
    ensures W.Bounded(AskedTimes(init, role) + [t.now], MintRate(c))
  {
    hide AskedTimes, W.Bounded, W.Sorted, W.Count;
    W.RecordKeepsBounded(AskedTimes(init, role), MintRate(c), t.now);
  }

  lemma {:induction false} RightlyIsBounded(c: Config, turns: seq<Turn>, role: string, clock: int)
    requires c.mintRate > 0 && AllLimitedRightly(c, [], turns) && W.Sorted(AskedTimes(turns, role), clock)
    ensures W.Bounded(AskedTimes(turns, role), MintRate(c))
    decreases |turns|
  {
    if turns == [] {
      NothingIsBounded(c);
    } else {
      hide W.Bounded, W.Sorted, AllLimitedRightly, LimitedRightly, AskedVault, AskedTimes;
      var init, t := turns[..|turns| - 1], turns[|turns| - 1];
      assert turns == init + [t];
      AskedMore(init, t, role);
      InitRightly(c, init, t);
      if AskedVault(t) && t.role == role {
        SortedInit(AskedTimes(init, role), t.now, clock);
        RightlyIsBounded(c, init, role, clock);
        TurnIsBounded(c, init, t, role);
      } else {
        assert AskedTimes(init, role) + [] == AskedTimes(init, role);
        RightlyIsBounded(c, init, role, clock);
      }
    }
  }

  lemma InitRightly(c: Config, init: seq<Turn>, t: Turn)
    requires AllLimitedRightly(c, [], init + [t])
    ensures AllLimitedRightly(c, [], init) && LimitedRightly(c, init, t)
  {
    hide LimitedRightly;
    var turns := init + [t];
    forall i | 0 <= i < |init| ensures LimitedRightly(c, [] + init[..i], init[i]) {
      assert LimitedRightly(c, [] + turns[..i], turns[i]);
      assert turns[..i] == init[..i];
    }
    assert LimitedRightly(c, [] + turns[..|init|], turns[|init|]);
    assert [] + turns[..|init|] == init;
  }

  /** Over every run in order, Vault is asked to mint for one role at most `mintRate` times in any sixty
      seconds. */
  lemma MintsAreBounded(c: Config, b: Broker, clock: int, ops: seq<Op>, role: string, x: int)
    requires c.mintRate > 0 && Starting(b) && InOrder(clock, ops)
    ensures W.Count(AskedTimes(AllTurns(c, b, ops), role), x, x + 60) <= c.mintRate
  {
    StartAgrees(c, b, clock);
    var turns := AllTurns(c, b, ops);
    var end := RunAgrees(c, b, [], clock, ops);
    assert [] + turns == turns;
    AskedIsSorted(c, Run(c, b, ops), turns, end, role);
    hide AllTurns, Run, AllLimitedRightly, Agrees, AskedTimes, Starting;
    RightlyIsBounded(c, turns, role, end);
    assert W.InInterval(AskedTimes(turns, role), MintRate(c), x) <= c.mintRate;
  }

  lemma AskedIsSorted(c: Config, b: Broker, turns: seq<Turn>, clock: int, role: string)
    requires c.mintRate > 0 && Agrees(c, b, turns, clock)
    ensures W.Sorted(AskedTimes(turns, role), clock)
  {
    assert LoggedAs(c, b, turns, role);
    assert W.QueueOk(W.Queue(b.rate.log, role), W.Queue(b.rate.m, role), 60, clock);
  }
}
