/** What a request for a token is answered: from the cache as long as that may be, and else exactly what
    becomes of the token Vault mints. */
module TokenServing {
  import opened Text
  import TemplateCompile
  import opened Catalog
  import opened Tokens
  import opened TokenRuns
  import opened TokenMints

  // ---- Refused before anything else ----

  /** T3 is the answer exactly where the catalog has no entry for the caller or does not approve the audience. */
  lemma NotApprovedIff(c: Config, b: Broker, caller: Caller, audience: string, now: int, answer: Answer)
    ensures Single(c, b, caller, audience, now, answer).1 == Err(Forbidden(T3)) <==>
              !Approved(b.catalog, c.cluster, caller.namespace, caller.serviceAccount, audience)
    ensures !Approved(b.catalog, c.cluster, caller.namespace, caller.serviceAccount, audience) ==>
              Single(c, b, caller, audience, now, answer).0 == b
  {
    hide Lookup, RoleName, PastHalfLife, RefreshedIfStale;
    var found := Lookup(b.catalog, c.cluster, caller.namespace, caller.serviceAccount);
    if found.Some? {
      var alias := AliasOf(found.value.audiences, audience);
    }
  }

  // ---- What becomes of a minted token ----

  /** The key of a token is published, or is found to be by a refresh that may be forced now. */
  predicate KeyAppears(keys: Keys, kid: string, now: int, fetched: Option<set<string>>)
  {
    || (keys.kids.Some? && kid in keys.kids.value)
    || (now >= keys.forcedAt + 10 && fetched.Some? && kid in fetched.value)
  }

  /** A token fit to be handed out: Vault minted it for this very caller and audience, it does not outlive the
      certificate, and its key is published. */
  predicate FitToGrant(c: Config, keys: Keys, caller: Caller, audience: string, now: int, answer: Answer)
  {
    && answer.mint.Ok? && c.decode(answer.mint.value).Some?
    && var t := c.decode(answer.mint.value).value;
       && t.sub == caller.id && audience in t.aud && t.exp <= caller.notAfter
       && KeyAppears(keys, t.kid, now, answer.fetched)
  }

  /** When Vault was asked: the token is granted if and only if it is fit to be, and then as it was minted;
      otherwise the refusal says whose fault it was. */
  lemma MintedIff(c: Config, b: Broker, caller: Caller, entry: Identity, audience: string, now: int, answer: Answer)
    requires CacheLoaded(b)
    requires AskedVault(TurnOf(c, b, caller, entry, audience, now, answer))
    ensures var (b', r) := One(c, b, caller, entry, audience, now, answer);
            && (r.Ok? <==> FitToGrant(c, b.keys, caller, audience, now, answer))
            && (r.Ok? ==> && r.value.minted && r.value.token == answer.mint.value && r.value.audience == audience
                          && Audience(r.value.alias, audience) in entry.audiences)
            && (answer.mint.Err? ==> r == Err(FromVault(answer.mint.error)))
    ensures var r := One(c, b, caller, entry, audience, now, answer).1;
            answer.mint.Ok? && r.Err? ==>
              var read := c.decode(answer.mint.value);
              if read.Some? && read.value.sub == caller.id && audience in read.value.aud then r == Err(Unavailable)
              else r == Err(Internal)
  {
    hide RoleName, PastHalfLife;
  }

  // ---- From the cache ----

  /** The cache holds this token under a role and audience, and its key is published. */
  predicate Holds(b: Broker, key: (string, string), t: Cached)
  {
    key in b.cache && b.cache[key] == t && Published(b.keys, t.parsed.kid)
  }

  /** No key set is fetched without this key, other than an empty one. */
  predicate KeepsKey(fetched: Option<set<string>>, kid: string)
  {
    fetched.Some? && fetched.value != {} ==> kid in fetched.value
  }

  ghost predicate OpKeepsKey(op: Op, kid: string)
  {
    match op
    case Ask(_, _, _, answer) => KeepsKey(answer.fetched, kid)
    case AskAll(_, _, answers) => forall i :: KeepsKey(answers(i).fetched, kid)
    case Refresh(fetched) => KeepsKey(fetched, kid)
    case Reload(_) => true
    case Sweep(_) => true
  }

  /** A turn that puts another token in the place of this one. */
  predicate Replaces(t: Turn, key: (string, string))
  {
    (t.role, t.audience) == key && t.reply.Ok? && t.reply.value.minted
  }

  /** What is granted is held. */
  lemma GrantedIsHeld(c: Config, b: Broker, caller: Caller, audience: string, now: int, answer: Answer)
    requires Sound(c, b) && Single(c, b, caller, audience, now, answer).1.Ok?
    ensures var (b', r) := Single(c, b, caller, audience, now, answer);
            && c.decode(r.value.token).Some?
            && Holds(b', (RoleOf(c, caller), audience), Cached(r.value.token, c.decode(r.value.token).value))
            && r.value.exp == c.decode(r.value.token).value.exp && r.value.jti == c.decode(r.value.token).value.jti
  {
    hide Lookup, RoleName, PastHalfLife, RefreshedIfStale, EntriesOk, SubjectOf;
    var key := (RoleOf(c, caller), audience);
    if key in b.cache {
      assert KeyOk(c, key, b.cache[key]);
    }
  }

  lemma OneHolds(c: Config, b: Broker, key: (string, string), t: Cached, caller: Caller, entry: Identity,
                 audience: string, now: int, answer: Answer)
    requires Holds(b, key, t) && KeepsKey(answer.fetched, t.parsed.kid)
    requires !Replaces(TurnOf(c, b, caller, entry, audience, now, answer), key)
    ensures Holds(One(c, b, caller, entry, audience, now, answer).0, key, t)
  {
    hide RoleName, PastHalfLife;
  }

  lemma {:induction false} AllHolds(c: Config, b: Broker, key: (string, string), t: Cached, caller: Caller,
                                    entry: Identity, k: nat, out: seq<Grant>, now: int, answers: nat -> Answer)
    requires Holds(b, key, t) && forall i :: KeepsKey(answers(i).fetched, t.parsed.kid)
    requires forall x :: x in TurnsFrom(c, b, caller, entry, now, answers, k) ==> !Replaces(x, key)
    ensures Holds(AllFrom(c, b, caller, entry, k, out, now, answers).0, key, t)
    decreases |entry.audiences| - k
  {
    hide One, Replaces, Holds, KeepsKey;
    if k < |entry.audiences| {
      var audience := entry.audiences[k].audience;
      var (b', r) := One(c, b, caller, entry, audience, now, answers(k));
      var turn := TurnOf(c, b, caller, entry, audience, now, answers(k));
      var turns := TurnsFrom(c, b, caller, entry, now, answers, k);
      assert turns[0] == turn && turn in turns;
      assert KeepsKey(answers(k).fetched, t.parsed.kid);
      OneHolds(c, b, key, t, caller, entry, audience, now, answers(k));
      if GoesOn(r) {
        assert forall x :: x in TurnsFrom(c, b', caller, entry, now, answers, k + 1) ==> x in turns;
        AllHolds(c, b', key, t, caller, entry, k + 1, if r.Ok? then out + [r.value] else out, now, answers);
      }
    }
  }

  /** Half of a token's life is over once no more of it is left than has gone by, but for a second of rounding. */
  lemma HalfLifeIs(t: Unverified, now: int)
    ensures PastHalfLife(t, now) <==> now >= t.iat && t.exp - now <= now - t.iat + 1
  {
  }

  lemma HalfLifeLater(t: Unverified, now: int, later: int)
    requires now <= later && PastHalfLife(t, now)
    ensures PastHalfLife(t, later)
  {
  }

  lemma ApplyHolds(c: Config, b: Broker, key: (string, string), t: Cached, clock: int, op: Op)
    requires Holds(b, key, t) && OpKeepsKey(op, t.parsed.kid) && clock <= Clock(clock, op)
    requires !PastHalfLife(t.parsed, Clock(clock, op)) && forall x :: x in Turns(c, b, op) ==> !Replaces(x, key)
    ensures Holds(Apply(c, b, op), key, t)
  {
    hide One, AllFrom, CallerOf, Lookup, Valid, PastHalfLife, Replaces;
    if (op.Ask? || op.AskAll?) && CallerOf(c, op.cert, op.now).Ok? {
      hide Holds, KeepsKey;
      var caller := CallerOf(c, op.cert, op.now).value;
      var found := Lookup(b.catalog, c.cluster, caller.namespace, caller.serviceAccount);
      if found.Some? && op.Ask? {
        var turn := TurnOf(c, b, caller, found.value, op.audience, op.now, op.answer);
        assert turn in Turns(c, b, op);
        OneHolds(c, b, key, t, caller, found.value, op.audience, op.now, op.answer);
      } else if found.Some? {
        AllHolds(c, b, key, t, caller, found.value, 0, [], op.now, op.answers);
      }
    }
  }

  /** The time of the last operation that has one. */
  function EndOf(clock: int, ops: seq<Op>): int
    decreases |ops|
  {
    if ops == [] then clock else EndOf(Clock(clock, ops[0]), ops[1..])
  }

  lemma {:induction false} EndIsLast(clock: int, ops: seq<Op>)
    requires InOrder(clock, ops)
    ensures clock <= EndOf(clock, ops)
    decreases |ops|
  {
    if ops != [] {
      EndIsLast(Clock(clock, ops[0]), ops[1..]);
    }
  }

  /** Nothing that happens to a token's place in the cache. */
  ghost predicate Undisturbed(c: Config, b: Broker, key: (string, string), kid: string, ops: seq<Op>)
  {
    && (forall i :: 0 <= i < |ops| ==> OpKeepsKey(ops[i], kid))
    && (forall x :: x in AllTurns(c, b, ops) ==> !Replaces(x, key))
  }

  lemma {:induction false} RunHolds(c: Config, b: Broker, key: (string, string), t: Cached, clock: int, ops: seq<Op>,
                                    later: int)
    requires Holds(b, key, t) && InOrder(clock, ops) && EndOf(clock, ops) <= later && !PastHalfLife(t.parsed, later)
    requires Undisturbed(c, b, key, t.parsed.kid, ops)
    ensures Holds(Run(c, b, ops), key, t)
    decreases |ops|
  {
    hide Apply, Holds, PastHalfLife, Replaces, OpKeepsKey, Turns;
    if ops != [] {
      var op, b' := ops[0], Apply(c, b, ops[0]);
      EndIsLast(Clock(clock, op), ops[1..]);
      if PastHalfLife(t.parsed, Clock(clock, op)) {
        HalfLifeLater(t.parsed, Clock(clock, op), later);
      }
      assert forall x :: x in Turns(c, b, op) ==> x in AllTurns(c, b, ops);
      assert forall x :: x in AllTurns(c, b', ops[1..]) ==> x in AllTurns(c, b, ops);
      ApplyHolds(c, b, key, t, clock, op);
      RunHolds(c, b', key, t, Clock(clock, op), ops[1..], later);
    }
  }

  /** Over every run: a token that was granted is granted again, from the cache and without a word to Vault,
      to every caller of the account whose certificate outlives it, until half its life is over, whatever is
      asked, swept or reloaded in between; unless its key is retired or another is minted in its place. */
  lemma GrantedAgain(c: Config, b: Broker, caller: Caller, audience: string, now: int, answer: Answer, ops: seq<Op>,
                     caller': Caller, later: int, answer': Answer)
    requires Sound(c, b) && Single(c, b, caller, audience, now, answer).1.Ok?
    requires var (b', r) := Single(c, b, caller, audience, now, answer);
             && c.decode(r.value.token).Some?
             && var t := c.decode(r.value.token).value;
                && InOrder(now, ops) && EndOf(now, ops) <= later && !PastHalfLife(t, later)
                && Undisturbed(c, b', (RoleOf(c, caller), audience), t.kid, ops)
                && t.exp <= caller'.notAfter && RoleOf(c, caller') == RoleOf(c, caller)
                && Approved(Run(c, b', ops).catalog, c.cluster, caller'.namespace, caller'.serviceAccount, audience)
    ensures var (b', r) := Single(c, b, caller, audience, now, answer);
            var again := Single(c, Run(c, b', ops), caller', audience, later, answer');
            && again.0 == Run(c, b', ops) && again.1.Ok?
            && again.1.value == r.value.(alias := again.1.value.alias, minted := false)
  {
    hide Run, PastHalfLife, RoleName, Sound, Undisturbed, Lookup;
    var (b', r) := Single(c, b, caller, audience, now, answer);
    var key, t := (RoleOf(c, caller), audience), Cached(r.value.token, c.decode(r.value.token).value);
    GrantedAudience(c, b, caller, audience, now, answer);
    GrantedIsHeld(c, b, caller, audience, now, answer);
    RunHolds(c, b', key, t, now, ops, later);
    HeldIsServed(c, Run(c, b', ops), t, caller', audience, later, answer');
  }

  lemma GrantedAudience(c: Config, b: Broker, caller: Caller, audience: string, now: int, answer: Answer)
    requires Single(c, b, caller, audience, now, answer).1.Ok?
    ensures Single(c, b, caller, audience, now, answer).1.value.audience == audience
  {
    hide Lookup, RoleName, PastHalfLife, RefreshedIfStale;
  }

  lemma HeldIsServed(c: Config, b: Broker, t: Cached, caller: Caller, audience: string, now: int, answer: Answer)
    requires Holds(b, (RoleOf(c, caller), audience), t) && !PastHalfLife(t.parsed, now)
    requires t.parsed.exp <= caller.notAfter
    requires Approved(b.catalog, c.cluster, caller.namespace, caller.serviceAccount, audience)
    ensures var (b', r) := Single(c, b, caller, audience, now, answer);
            && b' == b && r.Ok?
            && r.value == Grant(r.value.alias, audience, t.token, t.parsed.exp, t.parsed.jti, false)
  {
    hide Lookup, RoleName, PastHalfLife, Mint;
  }

  // ---- Which rule refuses a caller ----

  /** A certificate of another cluster is refused under T2, and only that: a current leaf with one well-formed
      ID that matches and belongs to this trust domain, and names another cluster. */
  lemma OtherClusterIff(c: Config, cert: Certificate, now: int)
    ensures CallerOf(c, cert, now) == Err(Forbidden(T2)) <==>
              && !cert.isCa && cert.notBefore <= now < cert.notAfter && cert.uris.Some? && |cert.uris.value| == 1
              && TemplateCompile.IdOk(cert.uris.value[0]) && c.pattern(cert.uris.value[0])
              && var attrs := TemplateCompile.AttributesOf(c.parts, cert.uris.value[0]);
                 && attrs.Some? && (attrs.value.trustDomain == c.trustDomain || attrs.value.trustDomain == "")
                 && attrs.value.cluster != c.cluster
  {
  }

  /** Unauthenticated means that the certificate itself will not do. */
  lemma UnauthenticatedIff(c: Config, cert: Certificate, now: int)
    ensures CallerOf(c, cert, now) == Err(Unauthenticated(T1)) <==>
              || cert.isCa || now < cert.notBefore || now >= cert.notAfter
              || cert.uris.None? || |cert.uris.value| != 1 || !TemplateCompile.IdOk(cert.uris.value[0])
  {
  }
}
