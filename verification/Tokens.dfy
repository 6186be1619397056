/** The broker's token path: who is calling, which audiences they may have, and the shared cache in
    front of Vault. */
module Tokens {
  import opened Text
  import opened Template
  import opened TemplateCompile
  import opened Catalog
  import W = Window

  /** The claims and key ID a token is read to carry, unverified. */
  datatype Unverified = Unverified(kid: string, sub: string, aud: seq<string>, exp: int, iat: int, jti: string)

  /** The broker's settings. Decoding a token and matching the ID pattern belong to libraries. */
  datatype Config = Config(
    cluster: string,
    trustDomain: string,
    parts: seq<Part>,
    pattern: string -> bool,
    mintRate: nat,
    decode: string -> Option<Unverified>)

  datatype Rule = T1 | T2 | T3 | Vault | Other

  datatype Refusal =
    | Unauthenticated(rule: Rule) | Forbidden(rule: Rule) | BadRequest | TooMany | Unavailable | Internal

  /** A client certificate that chains to the pinned root; `uris` is absent without a readable SAN. */
  datatype Certificate = Certificate(isCa: bool, notBefore: int, notAfter: int, uris: Option<seq<string>>)

  datatype Caller = Caller(id: string, namespace: string, serviceAccount: string, notAfter: int)

  datatype Grant = Grant(alias: string, audience: string, token: string, exp: int, jti: string, minted: bool)

  datatype Cached = Cached(token: string, parsed: Unverified)

  // ---- Tokens ----

  function Lifetime(t: Unverified): nat
  {
    if t.exp - t.iat < 0 then 0 else t.exp - t.iat
  }

  predicate PastHalfLife(t: Unverified, now: int)
  {
    now >= t.iat + Lifetime(t) / 2
  }

  // ---- The caller ----

  /** T1 and T2 of an ID: it is well formed, matches, and its attributes are this cluster's. */
  predicate CallerId(c: Config, id: string, namespace: string, serviceAccount: string)
  {
    && IdOk(id) && c.pattern(id)
    && var attrs := AttributesOf(c.parts, id);
       && attrs.Some? && (attrs.value.trustDomain == c.trustDomain || attrs.value.trustDomain == "")
       && attrs.value.cluster == c.cluster
       && attrs.value.namespace == namespace != "" && attrs.value.serviceAccount == serviceAccount != ""
  }

  /** `caller`, after the certificate is parsed. */
  function CallerOf(c: Config, cert: Certificate, now: int): Result<Caller, Refusal>
  {
    if cert.isCa || now < cert.notBefore || now >= cert.notAfter then Err(Unauthenticated(T1))
    else if cert.uris.None? || |cert.uris.value| != 1 then Err(Unauthenticated(T1))
    else
      var id := cert.uris.value[0];
      if !IdOk(id) then Err(Unauthenticated(T1))
      else if !c.pattern(id) then Err(Forbidden(T1))
      else match AttributesOf(c.parts, id)
        case None => Err(Forbidden(T1))
        case Some(a) =>
          if a.trustDomain != c.trustDomain && a.trustDomain != "" then Err(Forbidden(T1))
          else if a.cluster != c.cluster then Err(Forbidden(T2))
          else if a.namespace == "" || a.serviceAccount == "" then Err(Forbidden(T1))
          else Ok(Caller(id, a.namespace, a.serviceAccount, cert.notAfter))
  }

  /** A caller is accepted exactly for a current leaf certificate with one URI that is this cluster's. */
  lemma CallerIsExact(c: Config, cert: Certificate, now: int, caller: Caller)
    ensures CallerOf(c, cert, now) == Ok(caller) <==>
              && !cert.isCa && cert.notBefore <= now < cert.notAfter == caller.notAfter
              && cert.uris == Some([caller.id]) && CallerId(c, caller.id, caller.namespace, caller.serviceAccount)
  {
    hide IdOk, AttributesOf;
    if cert.uris.Some? && |cert.uris.value| == 1 {
      assert cert.uris.value == [cert.uris.value[0]];
    }
  }

  // ---- The JWKS ----

  const I64_MIN := -0x8000_0000_0000_0000
  const I64_MAX := 0x7FFF_FFFF_FFFF_FFFF

  function SaturatingSub(a: int, b: int): int
  {
    if a - b < I64_MIN then I64_MIN else if a - b > I64_MAX then I64_MAX else a - b
  }

  /** The published key IDs, once loaded, and when a refresh was last forced. */
  datatype Keys = Keys(kids: Option<set<string>>, forcedAt: int)

  predicate Published(keys: Keys, kid: string)
  {
    keys.kids.Some? && kid in keys.kids.value
  }

  /** `refresh`: a failed, unreadable or empty answer leaves the last good set. */
  function Refreshed(keys: Keys, fetched: Option<set<string>>): Keys
  {
    if fetched.Some? && fetched.value != {} then keys.(kids := fetched) else keys
  }

  function RefreshedIfStale(keys: Keys, now: int, fetched: Option<set<string>>): Keys
  {
    if SaturatingSub(now, keys.forcedAt) < 10 then keys else Refreshed(keys.(forcedAt := now), fetched)
  }

  // ---- Serving one audience ----

  /** Why Vault does not mint: a 403, a 400, something worth a retry, an identity or policy error, or
      anything else. */
  datatype VaultError = Denied | Rejected | Retryable | Disallowed | Broken

  /** `from_vault`. */
  function FromVault(e: VaultError): Refusal
  {
    match e
    case Denied => Forbidden(Vault)
    case Rejected => BadRequest
    case Retryable => Unavailable
    case Disallowed => Forbidden(Other)
    case Broken => Internal
  }

  /** What Vault and the JWKS endpoint would answer during a request. */
  datatype Answer = Answer(mint: Result<string, VaultError>, fetched: Option<set<string>>)

  type Cache = map<(string, string), Cached>

  /** Everything a request reads and writes. */
  datatype Broker = Broker(cache: Cache, keys: Keys, rate: W.World, catalog: seq<Identity>)

  function MintRate(c: Config): W.Rate
  {
    W.Rate(c.mintRate, 60)
  }

  function RoleOf(c: Config, caller: Caller): string
  {
    RoleName(c.cluster, caller.namespace, caller.serviceAccount)
  }

  function GrantOf(alias: string, audience: string, t: Cached, minted: bool): Grant
  {
    Grant(alias, audience, t.token, t.parsed.exp, t.parsed.jti, minted)
  }

  function AliasOf(audiences: seq<Audience>, audience: string): (r: Option<string>)
    ensures r.Some? <==> exists i :: 0 <= i < |audiences| && audiences[i].audience == audience
    ensures r.Some? ==> Audience(r.value, audience) in audiences
  {
    if audiences == [] then None
    else if audiences[0].audience == audience then Some(audiences[0].alias)
    else
      assert forall i :: 1 <= i < |audiences| ==> audiences[i] == audiences[1..][i - 1];
      AliasOf(audiences[1..], audience)
  }

  /** `servable`: T5 and T6 of a cached token. */
  function Servable(keys: Keys, t: Unverified, caller: Caller, now: int): Result<bool, Refusal>
  {
    if PastHalfLife(t, now) || t.exp > caller.notAfter then Ok(false)
    else if keys.kids.None? then Err(Unavailable)
    else Ok(Published(keys, t.kid))
  }

  /** The checks on a token Vault minted, and what becomes of it. */
  function Accept(c: Config, b: Broker, caller: Caller, alias: string, audience: string, now: int, token: string,
                  fetched: Option<set<string>>): (Broker, Result<Grant, Refusal>)
  {
    var read := c.decode(token);
    if read.None? || read.value.sub != caller.id || audience !in read.value.aud then (b, Err(Internal))
    else
      var t := read.value;
      var keys := if Published(b.keys, t.kid) then b.keys else RefreshedIfStale(b.keys, now, fetched);
      if !Published(keys, t.kid) || t.exp > caller.notAfter then (b.(keys := keys), Err(Unavailable))
      else
        var got := Cached(token, t);
        (b.(keys := keys, cache := b.cache[(RoleOf(c, caller), audience) := got]),
         Ok(GrantOf(alias, audience, got, true)))
  }

  function Mint(c: Config, b: Broker, caller: Caller, alias: string, audience: string, now: int, answer: Answer)
    : (Broker, Result<Grant, Refusal>)
  {
    var role := RoleOf(c, caller);
    var counted := b.(rate := W.Apply(MintRate(c), b.rate, W.Allow(role, now)));
    if !W.Fits(MintRate(c), b.rate.m, role, now) then (counted, Err(TooMany))
    else match answer.mint
      case Err(e) => (counted, Err(FromVault(e)))
      case Ok(token) => Accept(c, counted, caller, alias, audience, now, token, answer.fetched)
  }

  /** `one`. */
  function One(c: Config, b: Broker, caller: Caller, entry: Identity, audience: string, now: int, answer: Answer)
    : (Broker, Result<Grant, Refusal>)
  {
    var alias := AliasOf(entry.audiences, audience);
    var key := (RoleOf(c, caller), audience);
    if alias.None? then (b, Err(Forbidden(T3)))
    else if key !in b.cache then Mint(c, b, caller, alias.value, audience, now, answer)
    else match Servable(b.keys, b.cache[key].parsed, caller, now)
      case Err(e) => (b, Err(e))
      case Ok(fine) =>
        if fine then (b, Ok(GrantOf(alias.value, audience, b.cache[key], false)))
        else Mint(c, b, caller, alias.value, audience, now, answer)
  }

  /** `single`. */
  function Single(c: Config, b: Broker, caller: Caller, audience: string, now: int, answer: Answer)
    : (Broker, Result<Grant, Refusal>)
  {
    match Lookup(b.catalog, c.cluster, caller.namespace, caller.serviceAccount)
    case None => (b, Err(Forbidden(T3)))
    case Some(entry) => One(c, b, caller, entry, audience, now, answer)
  }

  /** `all` from the `k`th audience on, with the grants so far. */
  function AllFrom(c: Config, b: Broker, caller: Caller, entry: Identity, k: nat, out: seq<Grant>, now: int,
                   answers: nat -> Answer): (Broker, Result<seq<Grant>, Refusal>)
    decreases |entry.audiences| - k
  {
    if k >= |entry.audiences| then (b, Ok(out))
    else
      var (b', r) := One(c, b, caller, entry, entry.audiences[k].audience, now, answers(k));
      match r
      case Ok(g) => AllFrom(c, b', caller, entry, k + 1, out + [g], now, answers)
      case Err(e) =>
        if e == Forbidden(Vault) then AllFrom(c, b', caller, entry, k + 1, out, now, answers) else (b', Err(e))
  }

  function All(c: Config, b: Broker, caller: Caller, now: int, answers: nat -> Answer)
    : (Broker, Result<seq<Grant>, Refusal>)
  {
    match Lookup(b.catalog, c.cluster, caller.namespace, caller.serviceAccount)
    case None => (b, Err(Forbidden(T3)))
    case Some(entry) => AllFrom(c, b, caller, entry, 0, [], now, answers)
  }

  /** `sweep`. */
  function SweptCache(b: Broker, now: int): Cache
  {
    map k | k in b.cache && !PastHalfLife(b.cache[k].parsed, now)
            && (b.keys.kids.None? || b.cache[k].parsed.kid in b.keys.kids.value) :: b.cache[k]
  }

  // ---- The service ----

  class Service {
    const config: Config
    const mintRate: W.Limiter
    var cache: Cache
    var keys: Keys
    var catalog: seq<Identity>
    ghost var minted: W.Queues

    constructor (config: Config, catalog: seq<Identity>)
      ensures this.config == config && mintRate.rate == MintRate(config) && fresh(mintRate)
      ensures Value() == Broker(map[], Keys(None, I64_MIN), W.NEW, catalog)
    {
      this.config := config;
      mintRate := new W.Limiter(config.mintRate, 60);
      cache, keys, this.catalog := map[], Keys(None, I64_MIN), catalog;
      minted := map[];
    }

    ghost function Value(): Broker
      reads this, mintRate
    {
      Broker(cache, keys, W.World(mintRate.events, minted), catalog)
    }

    method Refresh(fetched: Option<set<string>>)
      modifies this
      ensures Value() == old(Value()).(keys := Refreshed(old(keys), fetched))
    {
      if fetched.Some? && fetched.value != {} {
        keys := keys.(kids := fetched);
      }
    }

    method RefreshIfStale(now: int, fetched: Option<set<string>>)
      modifies this
      ensures Value() == old(Value()).(keys := RefreshedIfStale(old(keys), now, fetched))
    {
      if SaturatingSub(now, keys.forcedAt) < 10 {
        return;
      }
      keys := keys.(forcedAt := now);
      Refresh(fetched);
    }

    method Check(caller: Caller, alias: string, audience: string, now: int, token: string, fetched: Option<set<string>>)
      returns (r: Result<Grant, Refusal>)
      modifies this
      ensures (Value(), r) == old(Accept(config, Value(), caller, alias, audience, now, token, fetched))
    {
      var read := config.decode(token);
      if read.None? || read.value.sub != caller.id || audience !in read.value.aud {
        return Err(Internal);
      }
      if !Published(keys, read.value.kid) {
        RefreshIfStale(now, fetched);
        if !Published(keys, read.value.kid) {
          return Err(Unavailable);
        }
      }
      if read.value.exp > caller.notAfter {
        return Err(Unavailable);
      }
      var got := Cached(token, read.value);
      cache := cache[(RoleOf(config, caller), audience) := got];
      r := Ok(GrantOf(alias, audience, got, true));
    }

    method Serve(caller: Caller, entry: Identity, audience: string, now: int,
                 answer: Answer) returns (r: Result<Grant, Refusal>)
      requires mintRate.rate == MintRate(config)
      modifies this, mintRate
      ensures (Value(), r) == old(One(config, Value(), caller, entry, audience, now, answer))
    {
      hide Accept;
      var alias := AliasOf(entry.audiences, audience);
      if alias.None? {
        return Err(Forbidden(T3));
      }
      var role := RoleOf(config, caller);
      if (role, audience) in cache {
        var cached := cache[(role, audience)];
        var servable := Servable(keys, cached.parsed, caller, now);
        if servable.Err? {
          return Err(servable.error);
        }
        if servable.value {
          return Ok(GrantOf(alias.value, audience, cached, false));
        }
      }
      var allowed := mintRate.Allow(role, now);
      if !allowed {
        return Err(TooMany);
      }
      minted := W.Recorded(mintRate.rate, minted, role, now);
      if answer.mint.Err? {
        return Err(FromVault(answer.mint.error));
      }
      r := Check(caller, alias.value, audience, now, answer.mint.value, answer.fetched);
    }

    /** `all`: the entry is read once; an audience Vault denies is left out, any other refusal ends it. */
    method ServeAll(caller: Caller, now: int, answers: nat -> Answer) returns (r: Result<seq<Grant>, Refusal>)
      requires mintRate.rate == MintRate(config)
      modifies this, mintRate
      ensures (Value(), r) == old(All(config, Value(), caller, now, answers))
    {
      hide One;
      var found := Lookup(catalog, config.cluster, caller.namespace, caller.serviceAccount);
      if found.None? {
        return Err(Forbidden(T3));
      }
      var entry, out := found.value, [];
      for k := 0 to |entry.audiences|
        invariant old(All(config, Value(), caller, now, answers))
                  == AllFrom(config, Value(), caller, entry, k, out, now, answers)
      {
        var one := Serve(caller, entry, entry.audiences[k].audience, now, answers(k));
        if one.Ok? {
          out := out + [one.value];
        } else if one.error != Forbidden(Vault) {
          return Err(one.error);
        }
      }
      r := Ok(out);
    }

    method Sweep(now: int)
      modifies this
      ensures Value() == old(Value()).(cache := SweptCache(old(Value()), now))
    {
      cache := map k | k in cache && !PastHalfLife(cache[k].parsed, now)
                       && (keys.kids.None? || cache[k].parsed.kid in keys.kids.value) :: cache[k];
    }
  }
}
