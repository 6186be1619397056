/** The published keys the broker goes by, told from the refreshes and from the tokens it was handed: which
    set is in force, and when a refresh is forced. */
module TokenKeys {
  import opened Text
  import opened Catalog
  import W = Window
  import opened Tokens
  import opened TokenRuns
  import opened TokenMints

  /** The periodic refresh and what it fetched, or one audience served. */
  datatype Event = Fetched(kids: Option<set<string>>) | Served(turn: Turn)

  function EventsOf(turns: seq<Turn>): (events: seq<Event>)
    ensures |events| == |turns| && forall i :: 0 <= i < |turns| ==> events[i] == Served(turns[i])
  {
    seq(|turns|, i requires 0 <= i < |turns| => Served(turns[i]))
  }

  function Events(c: Config, b: Broker, op: Op): seq<Event>
  {
    if op.Refresh? then [Fetched(op.fetched)] else EventsOf(Turns(c, b, op))
  }

  function AllEvents(c: Config, b: Broker, ops: seq<Op>): seq<Event>
    decreases |ops|
  {
    if ops == [] then [] else Events(c, b, ops[0]) + AllEvents(c, Apply(c, b, ops[0]), ops[1..])
  }

  /** The key set last fetched that has any, and the times at which a refresh was forced. */
  datatype Known = Known(kids: Option<set<string>>, forced: seq<int>)

  function LastForced(k: Known): int
  {
    if k.forced == [] then I64_MIN else k.forced[|k.forced| - 1]
  }

  function Better(kids: Option<set<string>>, fetched: Option<set<string>>): Option<set<string>>
  {
    if fetched.Some? && fetched.value != {} then fetched else kids
  }

  /** Vault minted the token that was asked for, and its key is not known. */
  predicate Unknown(c: Config, k: Known, t: Turn)
  {
    && AskedVault(t) && t.answer.mint.Ok? && t.reply != Err(Internal) && c.decode(t.answer.mint.value).Some?
    && !(k.kids.Some? && c.decode(t.answer.mint.value).value.kid in k.kids.value)
  }

  /** A token with an unknown key forces a refresh, unless one was forced in the last ten seconds. */
  function Learned(c: Config, k: Known, e: Event): Known
  {
    match e
    case Fetched(kids) => k.(kids := Better(k.kids, kids))
    case Served(t) =>
      if Unknown(c, k, t) && t.now >= LastForced(k) + 10
      then Known(Better(k.kids, t.answer.fetched), k.forced + [t.now]) else k
  }

  function LearnedAll(c: Config, k: Known, events: seq<Event>): Known
    decreases |events|
  {
    if events == [] then k else LearnedAll(c, Learned(c, k, events[0]), events[1..])
  }

  lemma {:induction false} LearnedConcat(c: Config, k: Known, a: seq<Event>, b: seq<Event>)
    ensures LearnedAll(c, k, a + b) == LearnedAll(c, LearnedAll(c, k, a), b)
    decreases |a|
  {
    if a == [] {
      assert a + b == b;
    } else {
      assert (a + b)[1..] == a[1..] + b;
      LearnedConcat(c, Learned(c, k, a[0]), a[1..], b);
    }
  }

  predicate Knows(b: Broker, k: Known)
  {
    b.keys.kids == k.kids && b.keys.forcedAt == LastForced(k) && CacheLoaded(b)
  }

  lemma OneLearns(c: Config, b: Broker, k: Known, caller: Caller, entry: Identity, audience: string, now: int,
                  answer: Answer)
    requires Knows(b, k)
    ensures Knows(One(c, b, caller, entry, audience, now, answer).0,
                  Learned(c, k, Served(TurnOf(c, b, caller, entry, audience, now, answer))))
  {
    hide W.Apply, W.Fits, RoleName, PastHalfLife;
  }

  lemma EventsFirst(turn: Turn, rest: seq<Turn>)
    ensures EventsOf([turn] + rest) == [Served(turn)] + EventsOf(rest)
  {
  }

  lemma LearnedFirst(c: Config, k: Known, e: Event, rest: seq<Event>)
    ensures LearnedAll(c, k, [e] + rest) == LearnedAll(c, Learned(c, k, e), rest)
  {
  }

  lemma {:induction false} AllLearns(c: Config, b: Broker, k: Known, caller: Caller, entry: Identity, i: nat,
                                     out: seq<Grant>, now: int, answers: nat -> Answer)
    requires Knows(b, k)
    ensures Knows(AllFrom(c, b, caller, entry, i, out, now, answers).0,
                  LearnedAll(c, k, EventsOf(TurnsFrom(c, b, caller, entry, now, answers, i))))
    decreases |entry.audiences| - i
  {
    hide One, Knows, Learned;
    if i < |entry.audiences| {
      var audience := entry.audiences[i].audience;
      var turn := TurnOf(c, b, caller, entry, audience, now, answers(i));
      var (b', r) := One(c, b, caller, entry, audience, now, answers(i));
      OneLearns(c, b, k, caller, entry, audience, now, answers(i));
      var k' := Learned(c, k, Served(turn));
      if GoesOn(r) {
        AllLearns(c, b', k', caller, entry, i + 1, if r.Ok? then out + [r.value] else out, now, answers);
        var rest := TurnsFrom(c, b', caller, entry, now, answers, i + 1);
        EventsFirst(turn, rest);
        LearnedFirst(c, k, Served(turn), EventsOf(rest));
      } else {
        EventsFirst(turn, []);
        LearnedFirst(c, k, Served(turn), EventsOf([]));
      }
    }
  }

  lemma ApplyLearns(c: Config, b: Broker, k: Known, op: Op)
    requires Knows(b, k)
    ensures Knows(Apply(c, b, op), LearnedAll(c, k, Events(c, b, op)))
  {
    hide One, AllFrom, CallerOf, Lookup, Valid, Learned, TurnsFrom;
    if op.Refresh? {
      RefreshLearns(c, b, k, op.fetched);
    } else if op.Sweep? {
      SweepLearns(c, b, k, op.now);
    } else if (op.Ask? || op.AskAll?) && CallerOf(c, op.cert, op.now).Ok? {
      var caller := CallerOf(c, op.cert, op.now).value;
      var found := Lookup(b.catalog, c.cluster, caller.namespace, caller.serviceAccount);
      if found.Some? && op.Ask? {
        OneLearns(c, b, k, caller, found.value, op.audience, op.now, op.answer);
        var turn := TurnOf(c, b, caller, found.value, op.audience, op.now, op.answer);
        assert [turn] + [] == [turn];
        EventsFirst(turn, []);
        LearnedFirst(c, k, Served(turn), EventsOf([]));
      } else if found.Some? {
        AllLearns(c, b, k, caller, found.value, 0, [], op.now, op.answers);
      }
    }
  }

  lemma RefreshLearns(c: Config, b: Broker, k: Known, fetched: Option<set<string>>)
    requires Knows(b, k)
    ensures Knows(Apply(c, b, Refresh(fetched)), LearnedAll(c, k, [Fetched(fetched)]))
  {
    assert [Fetched(fetched)] + [] == [Fetched(fetched)];
    LearnedFirst(c, k, Fetched(fetched), []);
  }

  lemma SweepLearns(c: Config, b: Broker, k: Known, now: int)
    requires Knows(b, k)
    ensures Knows(Apply(c, b, Sweep(now)), LearnedAll(c, k, Events(c, b, Sweep(now))))
  {
    assert SweptCache(b, now) != map[] ==> b.cache != map[];
  }

  /** Over every run of requests, refreshes, reloads and sweeps: the keys in force are those last fetched,
      by the periodic refresh or by one that was forced, that were any; and a refresh is forced exactly for a
      token Vault minted under a key not among them, ten seconds after the one before at the earliest. */
  lemma {:induction false} KeysAreHistory(c: Config, b: Broker, k: Known, ops: seq<Op>)
    requires Knows(b, k)
    ensures Knows(Run(c, b, ops), LearnedAll(c, k, AllEvents(c, b, ops)))
    decreases |ops|
  {
    if ops != [] {
      hide Apply, Events, Knows;
      ApplyLearns(c, b, k, ops[0]);
      var k', b' := LearnedAll(c, k, Events(c, b, ops[0])), Apply(c, b, ops[0]);
      KeysAreHistory(c, b', k', ops[1..]);
      LearnedConcat(c, k, Events(c, b, ops[0]), AllEvents(c, b', ops[1..]));
    }
  }

  predicate Apart(times: seq<int>)
  {
    forall i, j :: 0 <= i < j < |times| ==> times[j] >= times[i] + 10
  }

  lemma {:induction false} LearnedApart(c: Config, k: Known, events: seq<Event>)
    requires Apart(k.forced)
    ensures Apart(LearnedAll(c, k, events).forced)
    decreases |events|
  {
    if events != [] {
      LearnedApart(c, Learned(c, k, events[0]), events[1..]);
    }
  }

  /** So forced refreshes are at least ten seconds apart, whatever the clock does. */
  lemma ForcedApart(c: Config, b: Broker, ops: seq<Op>)
    requires b.keys == Keys(None, I64_MIN) && b.cache == map[]
    ensures var k := LearnedAll(c, Known(None, []), AllEvents(c, b, ops));
            Knows(Run(c, b, ops), k) && Apart(k.forced)
  {
    KeysAreHistory(c, b, Known(None, []), ops);
    LearnedApart(c, Known(None, []), AllEvents(c, b, ops));
  }

  /** A sweep leaves exactly the tokens that have more than half their life before them, but for a second of
      rounding, and whose key is not known to be retired. */
  lemma SweepIsExact(c: Config, b: Broker, now: int, key: (string, string))
    ensures key in Apply(c, b, Sweep(now)).cache <==>
              && key in b.cache
              && var t := b.cache[key].parsed;
                 && (now < t.iat || t.exp - now > now - t.iat + 1)
                 && (b.keys.kids.Some? ==> t.kid in b.keys.kids.value)
    ensures key in Apply(c, b, Sweep(now)).cache ==> Apply(c, b, Sweep(now)).cache[key] == b.cache[key]
  {
  }
}
