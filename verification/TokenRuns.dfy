/** Every token granted over any run of requests, JWKS refreshes, catalog reloads and sweeps. */
module TokenRuns {
  import opened Text
  import opened Catalog
  import W = Window
  import opened Tokens

  // ---- One grant ----

  /** A token was obtained for this identity: its subject is an ID of the cluster naming it, and the
      identity was catalogued. */
  predicate SubjectOf(c: Config, sub: string, namespace: string, account: string)
  {
    IsName(namespace) && IsName(account) && CallerId(c, sub, namespace, account)
  }

  ghost predicate KeyOk(c: Config, key: (string, string), t: Cached)
  {
    && c.decode(t.token) == Some(t.parsed) && key.1 in t.parsed.aud
    && exists namespace, account ::
         key.0 == RoleName(c.cluster, namespace, account) && SubjectOf(c, t.parsed.sub, namespace, account)
  }

  ghost predicate Sound(c: Config, b: Broker)
  {
    EntriesOk(b.catalog) && forall key :: key in b.cache ==> KeyOk(c, key, b.cache[key])
  }

  predicate IsCaller(c: Config, caller: Caller)
  {
    CallerId(c, caller.id, caller.namespace, caller.serviceAccount)
  }

  /** What holds of a grant: the catalog approves its audience for the caller under its alias; the
      token carries the audience, names the caller's namespace and account in this cluster, expires
      no later than the caller's certificate and has a published key; and a cached one is not past
      half its life. */
  predicate Good(c: Config, catalog: seq<Identity>, keys: Keys, caller: Caller, audience: string, now: int, g: Grant)
  {
    && g.audience == audience && Approved(catalog, c.cluster, caller.namespace, caller.serviceAccount, audience)
    && Audience(g.alias, audience)
       in Lookup(catalog, c.cluster, caller.namespace, caller.serviceAccount).value.audiences
    && c.decode(g.token).Some?
    && var t := c.decode(g.token).value;
       && audience in t.aud && SubjectOf(c, t.sub, caller.namespace, caller.serviceAccount)
       && g.exp == t.exp <= caller.notAfter && Published(keys, t.kid)
       && (!g.minted ==> !PastHalfLife(t, now))
       && (g.minted ==> t.sub == caller.id)
  }

  lemma CataloguedIsNamed(ids: seq<Identity>, cluster: string, namespace: string, account: string)
    requires EntriesOk(ids) && Lookup(ids, cluster, namespace, account).Some?
    ensures IsName(namespace) && IsName(account)
  {
  }

  /** A cached token was obtained for the very identity that asks: role names do not collide. */
  lemma CachedIsOurs(c: Config, b: Broker, caller: Caller, audience: string)
    requires Sound(c, b) && (RoleOf(c, caller), audience) in b.cache
    ensures SubjectOf(c, b.cache[(RoleOf(c, caller), audience)].parsed.sub, caller.namespace, caller.serviceAccount)
  {
    hide CallerId, IsName, RoleName, EntriesOk;
    var key := (RoleOf(c, caller), audience);
    assert KeyOk(c, key, b.cache[key]);
    var namespace, account :| key.0 == RoleName(c.cluster, namespace, account)
                              && SubjectOf(c, b.cache[key].parsed.sub, namespace, account);
    NameHasNoUnderscore(namespace);
    NameHasNoUnderscore(account);
    SameRole(c.cluster, caller.namespace, caller.serviceAccount, namespace, account);
  }

  lemma AcceptIsSound(c: Config, b: Broker, caller: Caller, alias: string, audience: string, now: int, token: string,
                      fetched: Option<set<string>>)
    requires Sound(c, b) && SubjectOf(c, caller.id, caller.namespace, caller.serviceAccount)
    ensures Sound(c, Accept(c, b, caller, alias, audience, now, token, fetched).0)
  {
  }

  lemma OneIsSound(c: Config, b: Broker, caller: Caller, audience: string, now: int, answer: Answer)
    requires Sound(c, b) && IsCaller(c, caller)
    ensures var (b', r) := Single(c, b, caller, audience, now, answer);
            && Sound(c, b') && b'.catalog == b.catalog
            && (r.Ok? ==> Good(c, b.catalog, b'.keys, caller, audience, now, r.value))
  {
    hide CallerId, IsName, RoleName, EntriesOk, Sound, Lookup;
    var found := Lookup(b.catalog, c.cluster, caller.namespace, caller.serviceAccount);
    if found.Some? {
      assert EntriesOk(b.catalog) by { SoundMeans(c, b); }
      CataloguedIsNamed(b.catalog, c.cluster, caller.namespace, caller.serviceAccount);
      EntryServed(c, b, caller, found.value, audience, now, answer);
    }
  }

  lemma SoundMeans(c: Config, b: Broker)
    requires Sound(c, b)
    ensures EntriesOk(b.catalog) && forall key :: key in b.cache ==> KeyOk(c, key, b.cache[key])
  {
  }

  lemma RateIsAside(c: Config, b: Broker, rate: W.World)
    requires Sound(c, b)
    ensures Sound(c, b.(rate := rate))
  {
  }

  lemma EntryServed(c: Config, b: Broker, caller: Caller, entry: Identity, audience: string, now: int, answer: Answer)
    requires Sound(c, b) && SubjectOf(c, caller.id, caller.namespace, caller.serviceAccount)
    requires Lookup(b.catalog, c.cluster, caller.namespace, caller.serviceAccount) == Some(entry)
    ensures var (b', r) := One(c, b, caller, entry, audience, now, answer);
            && Sound(c, b') && b'.catalog == b.catalog
            && (r.Ok? ==> Good(c, b.catalog, b'.keys, caller, audience, now, r.value))
  {
    hide SubjectOf, RoleName, Sound, Lookup, RefreshedIfStale;
    var key := (RoleOf(c, caller), audience);
    if key in b.cache {
      SoundMeans(c, b);
      CachedIsOurs(c, b, caller, audience);
      assert KeyOk(c, key, b.cache[key]);
    }
    var counted := b.(rate := W.Apply(MintRate(c), b.rate, W.Allow(key.0, now)));
    RateIsAside(c, b, counted.rate);
    var alias := AliasOf(entry.audiences, audience);
    if alias.Some? && answer.mint.Ok? {
      AcceptIsSound(c, counted, caller, alias.value, audience, now, answer.mint.value, answer.fetched);
    }
  }

  // ---- All audiences of an entry ----

  /** The broker after the first `j` audiences of an entry have been served. */
  function AfterFirst(c: Config, b: Broker, caller: Caller, entry: Identity, now: int, answers: nat -> Answer,
                      j: nat): Broker
    requires j <= |entry.audiences|
  {
    if j == 0 then b
    else
      var before, audience := AfterFirst(c, b, caller, entry, now, answers, j - 1), entry.audiences[j - 1].audience;
      One(c, before, caller, entry, audience, now, answers(j - 1)).0
  }

  /** What serving audience `j` in its turn answers. */
  function ReplyAt(c: Config, b: Broker, caller: Caller, entry: Identity, now: int, answers: nat -> Answer,
                   j: nat): Result<Grant, Refusal>
    requires j < |entry.audiences|
  {
    One(c, AfterFirst(c, b, caller, entry, now, answers, j), caller, entry, entry.audiences[j].audience, now,
        answers(j)).1
  }

  /** An audience after which the others are still served: granted, or denied by Vault. */
  predicate GoesOn(r: Result<Grant, Refusal>)
  {
    r.Ok? || r == Err(Forbidden(Vault))
  }

  /** The first audience that ends the request is the `j`th. */
  predicate EndsAt(c: Config, b: Broker, caller: Caller, entry: Identity, now: int, answers: nat -> Answer, j: nat)
  {
    && j < |entry.audiences| && !GoesOn(ReplyAt(c, b, caller, entry, now, answers, j))
    && forall i :: 0 <= i < j ==> GoesOn(ReplyAt(c, b, caller, entry, now, answers, i))
  }

  /** The grants of the first `j` turns, one for each that granted, in the order of the catalog. */
  function Granted(c: Config, b: Broker, caller: Caller, entry: Identity, now: int, answers: nat -> Answer,
                   j: nat): seq<Grant>
    requires j <= |entry.audiences|
  {
    if j == 0 then []
    else
      var r := ReplyAt(c, b, caller, entry, now, answers, j - 1);
      Granted(c, b, caller, entry, now, answers, j - 1) + (if r.Ok? then [r.value] else [])
  }

  /** What `all` answers, from the turns alone. */
  ghost predicate AnsweredInTurn(c: Config, b: Broker, caller: Caller, entry: Identity, now: int,
                                 answers: nat -> Answer, after: (Broker, Result<seq<Grant>, Refusal>))
  {
    var n := |entry.audiences|;
    && (after.1.Ok? <==> forall j :: 0 <= j < n ==> GoesOn(ReplyAt(c, b, caller, entry, now, answers, j)))
    && (after.1.Ok? ==> && after.1.value == Granted(c, b, caller, entry, now, answers, n)
                        && after.0 == AfterFirst(c, b, caller, entry, now, answers, n))
    && (after.1.Err? ==> exists j: nat :: && EndsAt(c, b, caller, entry, now, answers, j)
                                          && ReplyAt(c, b, caller, entry, now, answers, j) == Err(after.1.error)
                                          && after.0 == AfterFirst(c, b, caller, entry, now, answers, j + 1))
  }

  lemma {:induction false} AllFromIsInTurn(c: Config, b: Broker, caller: Caller, entry: Identity, now: int,
                                           answers: nat -> Answer, k: nat)
    requires k <= |entry.audiences|
    requires forall i :: 0 <= i < k ==> GoesOn(ReplyAt(c, b, caller, entry, now, answers, i))
    ensures var before, out := AfterFirst(c, b, caller, entry, now, answers, k),
                               Granted(c, b, caller, entry, now, answers, k);
            AnsweredInTurn(c, b, caller, entry, now, answers,
                           AllFrom(c, before, caller, entry, k, out, now, answers))
    decreases |entry.audiences| - k
  {
    hide One;
    if k < |entry.audiences| {
      var r := ReplyAt(c, b, caller, entry, now, answers, k);
      if GoesOn(r) {
        if r.Err? {
          assert Granted(c, b, caller, entry, now, answers, k + 1) == Granted(c, b, caller, entry, now, answers, k);
        }
        AllFromIsInTurn(c, b, caller, entry, now, answers, k + 1);
      } else {
        assert EndsAt(c, b, caller, entry, now, answers, k);
      }
    }
  }

  /** `all` answers with the grants of all its turns, or with the first refusal that is not a denial by
      Vault, exactly. */
  lemma AllIsInTurn(c: Config, b: Broker, caller: Caller, entry: Identity, now: int, answers: nat -> Answer)
    ensures AnsweredInTurn(c, b, caller, entry, now, answers, AllFrom(c, b, caller, entry, 0, [], now, answers))
  {
    AllFromIsInTurn(c, b, caller, entry, now, answers, 0);
  }

  /** The state it ends in is one of those between the turns. */
  lemma AllEndsBetween(c: Config, b: Broker, caller: Caller, entry: Identity, now: int, answers: nat -> Answer)
    returns (n: nat)
    ensures n <= |entry.audiences|
    ensures AllFrom(c, b, caller, entry, 0, [], now, answers).0 == AfterFirst(c, b, caller, entry, now, answers, n)
  {
    hide *;
    AllIsInTurn(c, b, caller, entry, now, answers);
    n := EndsBetween(c, b, caller, entry, now, answers, AllFrom(c, b, caller, entry, 0, [], now, answers));
  }

  lemma EndsBetween(c: Config, b: Broker, caller: Caller, entry: Identity, now: int, answers: nat -> Answer,
                    after: (Broker, Result<seq<Grant>, Refusal>)) returns (n: nat)
    requires AnsweredInTurn(c, b, caller, entry, now, answers, after)
    ensures n <= |entry.audiences| && after.0 == AfterFirst(c, b, caller, entry, now, answers, n)
  {
    hide ReplyAt, Granted, AfterFirst, One;
    if after.1.Ok? {
      n := |entry.audiences|;
    } else {
      var j: nat :| && EndsAt(c, b, caller, entry, now, answers, j)
                    && after.0 == AfterFirst(c, b, caller, entry, now, answers, j + 1);
      n := j + 1;
    }
  }

  lemma {:induction false} GrantedIsGiven(c: Config, b: Broker, caller: Caller, entry: Identity, now: int,
                                          answers: nat -> Answer, k: nat, g: Grant) returns (j: nat)
    requires k <= |entry.audiences| && g in Granted(c, b, caller, entry, now, answers, k)
    ensures j < k && ReplyAt(c, b, caller, entry, now, answers, j) == Ok(g)
    decreases k
  {
    hide ReplyAt;
    if ReplyAt(c, b, caller, entry, now, answers, k - 1) == Ok(g) {
      j := k - 1;
    } else {
      j := GrantedIsGiven(c, b, caller, entry, now, answers, k - 1, g);
    }
  }

  lemma {:induction false} TurnsAreSound(c: Config, b: Broker, caller: Caller, entry: Identity, now: int,
                                         answers: nat -> Answer, j: nat)
    requires Sound(c, b) && SubjectOf(c, caller.id, caller.namespace, caller.serviceAccount) && j <= |entry.audiences|
    requires Lookup(b.catalog, c.cluster, caller.namespace, caller.serviceAccount) == Some(entry)
    ensures var b' := AfterFirst(c, b, caller, entry, now, answers, j); Sound(c, b') && b'.catalog == b.catalog
    decreases j
  {
    hide One, Sound, SubjectOf, Good, Lookup;
    if j > 0 {
      TurnsAreSound(c, b, caller, entry, now, answers, j - 1);
      var mid := AfterFirst(c, b, caller, entry, now, answers, j - 1);
      EntryServed(c, mid, caller, entry, entry.audiences[j - 1].audience, now, answers(j - 1));
    }
  }

  /** What one audience in its turn gave is good in the state it was given in. */
  lemma TurnIsGood(c: Config, b: Broker, caller: Caller, entry: Identity, now: int, answers: nat -> Answer, j: nat,
                   g: Grant)
    requires Sound(c, b) && SubjectOf(c, caller.id, caller.namespace, caller.serviceAccount) && j < |entry.audiences|
    requires Lookup(b.catalog, c.cluster, caller.namespace, caller.serviceAccount) == Some(entry)
    requires ReplyAt(c, b, caller, entry, now, answers, j) == Ok(g)
    ensures var keys := AfterFirst(c, b, caller, entry, now, answers, j + 1).keys;
            Good(c, b.catalog, keys, caller, entry.audiences[j].audience, now, g)
  {
    hide One, Sound, SubjectOf, Good, Lookup;
    var mid := AfterFirst(c, b, caller, entry, now, answers, j);
    TurnsAreSound(c, b, caller, entry, now, answers, j);
    EntryServed(c, mid, caller, entry, entry.audiences[j].audience, now, answers(j));
  }

  // ---- Runs ----

  datatype Op =
    | Ask(cert: Certificate, audience: string, now: int, answer: Answer)
    | AskAll(cert: Certificate, now: int, answers: nat -> Answer)
    | Refresh(fetched: Option<set<string>>)
    | Reload(read: Option<Catalog>)
    | Sweep(now: int)

  function Apply(c: Config, b: Broker, op: Op): Broker
  {
    match op
    case Ask(cert, audience, now, answer) =>
      (match CallerOf(c, cert, now)
       case Err(_) => b
       case Ok(caller) => Single(c, b, caller, audience, now, answer).0)
    case AskAll(cert, now, answers) =>
      (match CallerOf(c, cert, now)
       case Err(_) => b
       case Ok(caller) => All(c, b, caller, now, answers).0)
    case Refresh(fetched) => b.(keys := Refreshed(b.keys, fetched))
    case Reload(read) => if read.Some? && Valid(read.value) then b.(catalog := read.value.identities) else b
    case Sweep(now) => b.(cache := SweptCache(b, now))
  }

  function Run(c: Config, b: Broker, ops: seq<Op>): Broker
    decreases |ops|
  {
    if ops == [] then b else Run(c, Apply(c, b, ops[0]), ops[1..])
  }

  /** The broker as it starts, with a catalog that passed validation and nothing cached. */
  predicate Starting(b: Broker)
  {
    b.cache == map[] && b.keys == Keys(None, I64_MIN) && b.rate == W.NEW && EntriesOk(b.catalog)
  }

  lemma CallerIsCaller(c: Config, cert: Certificate, now: int)
    requires CallerOf(c, cert, now).Ok?
    ensures IsCaller(c, CallerOf(c, cert, now).value)
  {
  }

  lemma AllIsSound(c: Config, b: Broker, caller: Caller, now: int, answers: nat -> Answer)
    requires Sound(c, b) && IsCaller(c, caller)
    ensures Sound(c, All(c, b, caller, now, answers).0)
  {
    hide Sound, One, Lookup, CallerId, IsName, AllFrom;
    var found := Lookup(b.catalog, c.cluster, caller.namespace, caller.serviceAccount);
    if found.Some? {
      SoundMeans(c, b);
      CataloguedIsNamed(b.catalog, c.cluster, caller.namespace, caller.serviceAccount);
      var n := AllEndsBetween(c, b, caller, found.value, now, answers);
      TurnsAreSound(c, b, caller, found.value, now, answers, n);
    }
  }

  lemma ApplyIsSound(c: Config, b: Broker, op: Op)
    requires Sound(c, b)
    ensures Sound(c, Apply(c, b, op))
  {
    match op
    case Ask(cert, audience, now, answer) =>
      hide Single, Sound, CallerOf, IsCaller, Good;
      if CallerOf(c, cert, now).Ok? {
        CallerIsCaller(c, cert, now);
        OneIsSound(c, b, CallerOf(c, cert, now).value, audience, now, answer);
      }
    case AskAll(cert, now, answers) =>
      hide All, Sound, CallerOf, IsCaller;
      if CallerOf(c, cert, now).Ok? {
        CallerIsCaller(c, cert, now);
        AllIsSound(c, b, CallerOf(c, cert, now).value, now, answers);
      }
    case Refresh(_) =>
      hide KeyOk, EntriesOk;
    case Reload(_) =>
      hide KeyOk, EntriesOk;
    case Sweep(_) =>
      hide KeyOk, EntriesOk;
  }

  lemma {:induction false} RunIsSound(c: Config, b: Broker, ops: seq<Op>)
    requires Sound(c, b)
    ensures Sound(c, Run(c, b, ops))
    decreases |ops|
  {
    hide Apply, Sound;
    if ops != [] {
      ApplyIsSound(c, b, ops[0]);
      RunIsSound(c, Apply(c, b, ops[0]), ops[1..]);
    }
  }

  lemma StartIsSound(c: Config, b: Broker)
    requires Starting(b)
    ensures Sound(c, b)
  {
  }

  /** Over every run: whatever a request for one audience is granted is good under the catalog in
      force and the keys published when it was answered. */
  lemma EveryGrantIsGood(c: Config, b: Broker, ops: seq<Op>, cert: Certificate, audience: string, now: int,
                         answer: Answer)
    requires Starting(b) && CallerOf(c, cert, now).Ok?
    ensures var before := Run(c, b, ops);
            var caller := CallerOf(c, cert, now).value;
            var (after, r) := Single(c, before, caller, audience, now, answer);
            r.Ok? ==> Good(c, before.catalog, after.keys, caller, audience, now, r.value)
  {
    hide Run, Starting, Sound, CallerOf, Single, Good;
    StartIsSound(c, b);
    RunIsSound(c, b, ops);
    CallerIsCaller(c, cert, now);
    OneIsSound(c, Run(c, b, ops), CallerOf(c, cert, now).value, audience, now, answer);
  }

  /** And whatever a request for all audiences is granted was given to one of them in its turn, good
      when it was. */
  lemma EveryGrantOfAllIsGood(c: Config, b: Broker, ops: seq<Op>, cert: Certificate, now: int, answers: nat -> Answer,
                              g: Grant)
    returns (entry: Identity, j: nat)
    requires Starting(b) && CallerOf(c, cert, now).Ok?
    requires var r := All(c, Run(c, b, ops), CallerOf(c, cert, now).value, now, answers).1; r.Ok? && g in r.value
    ensures var before := Run(c, b, ops);
            var caller := CallerOf(c, cert, now).value;
            && Lookup(before.catalog, c.cluster, caller.namespace, caller.serviceAccount) == Some(entry)
            && j < |entry.audiences|
            && Good(c, before.catalog, AfterFirst(c, before, caller, entry, now, answers, j + 1).keys, caller,
                    entry.audiences[j].audience, now, g)
  {
    hide Run, Starting, Sound, CallerOf, One, Good, AllFrom, Lookup, IsName, CallerId;
    var before, caller := Run(c, b, ops), CallerOf(c, cert, now).value;
    StartIsSound(c, b);
    RunIsSound(c, b, ops);
    CallerIsCaller(c, cert, now);
    entry := Lookup(before.catalog, c.cluster, caller.namespace, caller.serviceAccount).value;
    SoundMeans(c, before);
    CataloguedIsNamed(before.catalog, c.cluster, caller.namespace, caller.serviceAccount);
    AllIsInTurn(c, before, caller, entry, now, answers);
    j := GrantedIsGiven(c, before, caller, entry, now, answers, |entry.audiences|, g);
    TurnIsGood(c, before, caller, entry, now, answers, j, g);
  }

  // ---- Time ----

  function Clock(clock: int, op: Op): int
  {
    if op.Refresh? || op.Reload? then clock else op.now
  }

  /** Timestamps do not go back. */
  predicate InOrder(clock: int, ops: seq<Op>)
    decreases |ops|
  {
    ops == [] || (clock <= Clock(clock, ops[0]) && InOrder(Clock(clock, ops[0]), ops[1..]))
  }
}
