/** What the upkeep of the broker leaves alone: a sweep of the cache changes no later answer, and the
    published keys are never lost. */
module TokenSweeps {
  import opened Text
  import opened Catalog
  import W = Window
  import opened Tokens
  import opened TokenRuns
  import opened TokenSubjects

  /** The token will not be served again: it is past half its life, or its key is retired for good. */
  predicate Dead(t: Unverified, clock: int, retired: set<string>)
  {
    PastHalfLife(t, clock) || t.kid in retired
  }

  /** No retired key is published, and there are retired keys only once keys are loaded. */
  predicate Retired(keys: Keys, retired: set<string>)
  {
    if keys.kids.None? then retired == {} else keys.kids.value !! retired
  }

  /** The second broker is the first one with some dead tokens dropped. */
  ghost predicate Thinner(b: Broker, thin: Broker, clock: int, retired: set<string>)
  {
    && thin == b.(cache := thin.cache) && Retired(b.keys, retired)
    && (forall k :: k in thin.cache ==> k in b.cache && thin.cache[k] == b.cache[k])
    && (forall k :: k in b.cache && k !in thin.cache ==> Dead(b.cache[k].parsed, clock, retired))
  }

  predicate Fresh(fetched: Option<set<string>>, retired: set<string>)
  {
    fetched.Some? ==> fetched.value !! retired
  }

  lemma DeadIsNotServed(keys: Keys, t: Unverified, caller: Caller, clock: int, now: int, retired: set<string>)
    requires Dead(t, clock, retired) && Retired(keys, retired) && clock <= now
    ensures Servable(keys, t, caller, now) == Ok(false)
  {
  }

  lemma AcceptThinner(c: Config, b: Broker, thin: Broker, clock: int, retired: set<string>, caller: Caller,
                      alias: string, audience: string,
                      now: int, token: string, fetched: Option<set<string>>)
    requires Thinner(b, thin, clock, retired) && Fresh(fetched, retired)
    ensures var (x, r) := Accept(c, b, caller, alias, audience, now, token, fetched);
            var (y, q) := Accept(c, thin, caller, alias, audience, now, token, fetched);
            r == q && Thinner(x, y, clock, retired)
  {
    hide PastHalfLife, RoleName;
  }

  lemma MintThinner(c: Config, b: Broker, thin: Broker, clock: int, retired: set<string>, caller: Caller,
                    alias: string, audience: string,
                    now: int, answer: Answer)
    requires Thinner(b, thin, clock, retired) && Fresh(answer.fetched, retired)
    ensures var (x, r) := Mint(c, b, caller, alias, audience, now, answer);
            var (y, q) := Mint(c, thin, caller, alias, audience, now, answer);
            r == q && Thinner(x, y, clock, retired)
  {
    hide Accept, PastHalfLife, RoleName, W.Apply, W.Fits;
    var rate := W.Apply(MintRate(c), b.rate, W.Allow(RoleOf(c, caller), now));
    if answer.mint.Ok? {
      AcceptThinner(c, b.(rate := rate), thin.(rate := rate), clock, retired, caller, alias, audience, now,
                    answer.mint.value, answer.fetched);
    }
  }

  lemma OneThinner(c: Config, b: Broker, thin: Broker, clock: int, retired: set<string>, caller: Caller,
                   entry: Identity, audience: string,
                   now: int, answer: Answer)
    requires Thinner(b, thin, clock, retired) && Fresh(answer.fetched, retired) && clock <= now
    ensures var (x, r) := One(c, b, caller, entry, audience, now, answer);
            var (y, q) := One(c, thin, caller, entry, audience, now, answer);
            r == q && Thinner(x, y, clock, retired)
  {
    hide Mint, PastHalfLife, RoleName, Servable;
    var alias, key := AliasOf(entry.audiences, audience), (RoleOf(c, caller), audience);
    if alias.Some? {
      MintThinner(c, b, thin, clock, retired, caller, alias.value, audience, now, answer);
      if key in b.cache && key !in thin.cache {
        DeadIsNotServed(b.keys, b.cache[key].parsed, caller, clock, now, retired);
      }
    }
  }

  lemma {:induction false} AllThinner(c: Config, b: Broker, thin: Broker, clock: int, retired: set<string>,
                                      caller: Caller, entry: Identity,
                                      k: nat, out: seq<Grant>, now: int, answers: nat -> Answer)
    requires Thinner(b, thin, clock, retired) && clock <= now && forall i :: Fresh(answers(i).fetched, retired)
    ensures var (x, r) := AllFrom(c, b, caller, entry, k, out, now, answers);
            var (y, q) := AllFrom(c, thin, caller, entry, k, out, now, answers);
            r == q && Thinner(x, y, clock, retired)
    decreases |entry.audiences| - k
  {
    hide One, Thinner;
    if k < |entry.audiences| {
      assert Fresh(answers(k).fetched, retired);
      OneThinner(c, b, thin, clock, retired, caller, entry, entry.audiences[k].audience, now, answers(k));
      var (x, r) := One(c, b, caller, entry, entry.audiences[k].audience, now, answers(k));
      var (y, q) := One(c, thin, caller, entry, entry.audiences[k].audience, now, answers(k));
      match r
      case Ok(g) => AllThinner(c, x, y, clock, retired, caller, entry, k + 1, out + [g], now, answers);
      case Err(_) => AllThinner(c, x, y, clock, retired, caller, entry, k + 1, out, now, answers);
    }
  }

  /** What a request is answered. */
  function Reply(c: Config, b: Broker, op: Op): Option<Result<seq<Grant>, Refusal>>
  {
    match op
    case Ask(cert, audience, now, answer) =>
      (match CallerOf(c, cert, now)
       case Err(e) => Some(Err(e))
       case Ok(caller) =>
         match Single(c, b, caller, audience, now, answer).1
         case Err(e) => Some(Err(e))
         case Ok(g) => Some(Ok([g])))
    case AskAll(cert, now, answers) =>
      (match CallerOf(c, cert, now)
       case Err(e) => Some(Err(e))
       case Ok(caller) => Some(All(c, b, caller, now, answers).1))
    case Refresh(_) => None
    case Reload(_) => None
    case Sweep(_) => None
  }

  function Replies(c: Config, b: Broker, ops: seq<Op>): seq<Option<Result<seq<Grant>, Refusal>>>
    decreases |ops|
  {
    if ops == [] then [] else [Reply(c, b, ops[0])] + Replies(c, Apply(c, b, ops[0]), ops[1..])
  }

  /** No retired key is fetched again. */
  ghost predicate NoReturn(op: Op, retired: set<string>)
  {
    match op
    case Ask(_, _, _, answer) => Fresh(answer.fetched, retired)
    case AskAll(_, _, answers) => forall i :: Fresh(answers(i).fetched, retired)
    case Refresh(fetched) => Fresh(fetched, retired)
    case Reload(_) => true
    case Sweep(_) => true
  }

  lemma ThinnerLater(b: Broker, thin: Broker, clock: int, now: int, retired: set<string>)
    requires Thinner(b, thin, clock, retired) && clock <= now
    ensures Thinner(b, thin, now, retired)
  {
  }

  lemma RequestThinner(c: Config, b: Broker, thin: Broker, clock: int, retired: set<string>, op: Op)
    requires Thinner(b, thin, clock, retired) && NoReturn(op, retired) && (op.Ask? || op.AskAll?) && clock <= op.now
    ensures Reply(c, b, op) == Reply(c, thin, op) && Thinner(Apply(c, b, op), Apply(c, thin, op), clock, retired)
  {
    hide One, AllFrom, CallerOf, Lookup, PastHalfLife;
    if CallerOf(c, op.cert, op.now).Ok? {
      var caller := CallerOf(c, op.cert, op.now).value;
      var found := Lookup(b.catalog, c.cluster, caller.namespace, caller.serviceAccount);
      if found.Some? && op.Ask? {
        OneThinner(c, b, thin, clock, retired, caller, found.value, op.audience, op.now, op.answer);
      } else if found.Some? {
        AllThinner(c, b, thin, clock, retired, caller, found.value, 0, [], op.now, op.answers);
      }
    }
  }

  lemma UpkeepThinner(c: Config, b: Broker, thin: Broker, clock: int, retired: set<string>, op: Op)
    requires Thinner(b, thin, clock, retired) && NoReturn(op, retired) && !op.Ask? && !op.AskAll?
    requires clock <= Clock(clock, op)
    ensures Thinner(Apply(c, b, op), Apply(c, thin, op), clock, retired)
  {
    hide PastHalfLife, Valid;
  }

  lemma {:induction false} ThinnerAnswersAlike(c: Config, b: Broker, thin: Broker, clock: int, retired: set<string>,
                                               ops: seq<Op>)
    requires Thinner(b, thin, clock, retired) && InOrder(clock, ops)
    requires forall i :: 0 <= i < |ops| ==> NoReturn(ops[i], retired)
    ensures Replies(c, b, ops) == Replies(c, thin, ops)
    decreases |ops|
  {
    hide Thinner, Apply, Reply, NoReturn;
    if ops != [] {
      var op := ops[0];
      if op.Ask? || op.AskAll? {
        RequestThinner(c, b, thin, clock, retired, op);
      } else {
        UpkeepThinner(c, b, thin, clock, retired, op);
        assert Reply(c, b, op) == Reply(c, thin, op) by { NoReply(c, b, thin, op); }
      }
      ThinnerLater(Apply(c, b, op), Apply(c, thin, op), clock, Clock(clock, op), retired);
      ThinnerAnswersAlike(c, Apply(c, b, op), Apply(c, thin, op), Clock(clock, op), retired, ops[1..]);
    }
  }

  lemma NoReply(c: Config, b: Broker, thin: Broker, op: Op)
    requires !op.Ask? && !op.AskAll?
    ensures Reply(c, b, op) == Reply(c, thin, op)
  {
  }

  /** The keys for whose sake a sweep drops tokens that are not past half their life. */
  function RetiredKids(b: Broker, now: int): set<string>
  {
    if b.keys.kids.None? then {}
    else (set k | k in b.cache && !PastHalfLife(b.cache[k].parsed, now) :: b.cache[k].parsed.kid) - b.keys.kids.value
  }

  /** A sweep never changes what a later request is answered, as long as no key for whose sake it dropped
      a token is published again. */
  lemma SweepIsInvisible(c: Config, b: Broker, now: int, ops: seq<Op>)
    requires InOrder(now, ops) && forall i :: 0 <= i < |ops| ==> NoReturn(ops[i], RetiredKids(b, now))
    ensures Replies(c, Apply(c, b, Sweep(now)), ops) == Replies(c, b, ops)
  {
    hide PastHalfLife, Replies, NoReturn, InOrder;
    var thin := Apply(c, b, Sweep(now));
    forall k | k in b.cache && k !in thin.cache ensures Dead(b.cache[k].parsed, now, RetiredKids(b, now)) {
    }
    ThinnerAnswersAlike(c, b, thin, now, RetiredKids(b, now), ops);
  }

  /** So a sweep that drops only tokens past half their life changes no later answer at all. */
  lemma OldTokensAreNotMissed(c: Config, b: Broker, now: int, ops: seq<Op>)
    requires InOrder(now, ops) && RetiredKids(b, now) == {}
    ensures Replies(c, Apply(c, b, Sweep(now)), ops) == Replies(c, b, ops)
  {
    hide Replies, InOrder, RetiredKids;
    forall i | 0 <= i < |ops| ensures NoReturn(ops[i], {}) {
    }
    SweepIsInvisible(c, b, now, ops);
  }

  /** A broker that served `id` and has seen its key retired. */
  function AfterRetirement(c: Config, id: string, namespace: string, account: string, token: string): Broker
  {
    var start := Broker(map[], Keys(None, I64_MIN), W.NEW, OneEntry(namespace, account));
    Apply(c, Run(c, start, ServedOnce(c, id, namespace, account, token)), Refresh(Some({"m"})))
  }

  /** The key is published again, and `id` asks again while Vault does not answer. */
  function Returns(id: string): seq<Op>
  {
    [Refresh(Some({"k"})), Ask(CertificateFor(id), "x", 0, Answer(Err(Broken), None))]
  }

  /** And if such a key does return, the sweep shows: without it the token is granted from the cache, with
      it the request is refused. */
  lemma SweepIsSeen(c: Config, id: string, namespace: string, account: string, token: string)
    requires SubjectOf(c, id, namespace, account)
    requires c.decode(token) == Some(Unverified("k", id, ["x"], 10, 0, ""))
    ensures var b := AfterRetirement(c, id, namespace, account, token);
            && InOrder(0, Returns(id)) && RetiredKids(b, 0) == {"k"}
            && Replies(c, Apply(c, b, Sweep(0)), Returns(id)) != Replies(c, b, Returns(id))
  {
    hide CallerOf, SubjectOf, Lookup, RoleName, Run, W.Apply, W.Fits;
    AfterServing(c, id, namespace, account, token, "");
    Accepted(c, id, namespace, account);
    SubjectMeans(c, id, namespace, account);
    OneEntryIsFound(c.cluster, namespace, account);
    var b := AfterRetirement(c, id, namespace, account, token);
    var swept := Apply(c, b, Sweep(0));
    var key := (RoleName(c.cluster, namespace, account), "x");
    assert b.cache == map[key := Cached(token, c.decode(token).value)];
    assert (set k | k in b.cache && !PastHalfLife(b.cache[k].parsed, 0) :: b.cache[k].parsed.kid) == {"k"} by {
      assert key in b.cache && !PastHalfLife(b.cache[key].parsed, 0);
    }
    assert {"k"} - {"m"} == {"k"};
    assert swept.cache == map[];
    assert Returns(id)[1..] == [Returns(id)[1]] && Returns(id)[1..][1..] == [] && InOrder(0, Returns(id)[1..][1..]);
    assert AliasOf(OneEntry(namespace, account)[0].audiences, "x") == Some("a");
    SecondReply(c, b, Returns(id));
    SecondReply(c, swept, Returns(id));
  }

  lemma SecondReply(c: Config, b: Broker, ops: seq<Op>)
    requires |ops| == 2
    ensures |Replies(c, b, ops)| == 2 && Replies(c, b, ops)[1] == Reply(c, Apply(c, b, ops[0]), ops[1])
  {
    hide Apply, Reply;
    assert ops[1..][0] == ops[1] && ops[1..][1..] == [];
    var mid := Apply(c, b, ops[0]);
    assert Replies(c, mid, ops[1..]) == [Reply(c, mid, ops[1])] + Replies(c, Apply(c, mid, ops[1]), []);
  }

  // ---- The published keys ----

  predicate Loaded(keys: Keys)
  {
    keys.kids.Some? && keys.kids.value != {}
  }

  lemma OneKeepsKeys(c: Config, b: Broker, caller: Caller, entry: Identity, audience: string, now: int, answer: Answer)
    requires Loaded(b.keys)
    ensures Loaded(One(c, b, caller, entry, audience, now, answer).0.keys)
  {
  }

  lemma {:induction false} AllKeepsKeys(c: Config, b: Broker, caller: Caller, entry: Identity, k: nat,
                                        out: seq<Grant>, now: int, answers: nat -> Answer)
    requires Loaded(b.keys)
    ensures Loaded(AllFrom(c, b, caller, entry, k, out, now, answers).0.keys)
    decreases |entry.audiences| - k
  {
    hide One;
    if k < |entry.audiences| {
      OneKeepsKeys(c, b, caller, entry, entry.audiences[k].audience, now, answers(k));
      var (x, r) := One(c, b, caller, entry, entry.audiences[k].audience, now, answers(k));
      match r
      case Ok(g) => AllKeepsKeys(c, x, caller, entry, k + 1, out + [g], now, answers);
      case Err(_) => AllKeepsKeys(c, x, caller, entry, k + 1, out, now, answers);
    }
  }

  /** Fail stale: once a JWKS has been loaded there is one, and never an empty one, however many
      refreshes fail, answer nothing readable or answer no keys. */
  lemma {:induction false} KeysAreNeverLost(c: Config, b: Broker, ops: seq<Op>)
    requires Loaded(b.keys)
    ensures Loaded(Run(c, b, ops).keys)
    decreases |ops|
  {
    if ops != [] {
      ApplyKeepsKeys(c, b, ops[0]);
      hide Apply;
      KeysAreNeverLost(c, Apply(c, b, ops[0]), ops[1..]);
    }
  }

  lemma ApplyKeepsKeys(c: Config, b: Broker, op: Op)
    requires Loaded(b.keys)
    ensures Loaded(Apply(c, b, op).keys)
  {
    hide One, AllFrom, CallerOf, Lookup, SweptCache, Valid;
    if (op.Ask? || op.AskAll?) && CallerOf(c, op.cert, op.now).Ok? {
      var caller := CallerOf(c, op.cert, op.now).value;
      var found := Lookup(b.catalog, c.cluster, caller.namespace, caller.serviceAccount);
      if found.Some? && op.Ask? {
        OneKeepsKeys(c, b, caller, found.value, op.audience, op.now, op.answer);
      } else if found.Some? {
        AllKeepsKeys(c, b, caller, found.value, 0, [], op.now, op.answers);
      }
    }
  }
}
