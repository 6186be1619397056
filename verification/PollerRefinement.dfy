/** The poller that sends ETags against the one that never does: on the same history of manifests,
    failed fetches and version directories deleted from outside, both go through the same states. */
module PollerRefinement {
  import opened Text
  import R = Rollout
  import opened BundleStore
  import opened Poller
  import opened PollerFacts

  /** What one poll meets, whether it is one that goes out without an ETag, and the version
      directories someone deleted before it. */
  datatype Turn = Turn(env: Env, full: bool, deleted: set<string>)

  function Deleting(disk: Disk, gone: set<string>): Disk
  {
    disk.(versions := disk.versions - gone)
  }

  function Step(c: Config, m: Machine, t: Turn, useEtag: bool): Machine
  {
    var disk := Deleting(m.disk, t.deleted);
    var o := Poll(c, t.full || !useEtag, disk, m.state, t.env);
    Machine(o.state, ApplyAll(disk, o.effects))
  }

  function Run(c: Config, m: Machine, turns: seq<Turn>, useEtag: bool): Machine
    decreases |turns|
  {
    if turns == [] then m else Run(c, Step(c, m, turns[0], useEtag), turns[1..], useEtag)
  }

  /** Every full answer carries an ETag, and the ETag determines the manifest. */
  ghost predicate Determined(meaning: string -> Result<R.Manifest, Error>, t: Turn)
  {
    t.env.served.Serving? ==> t.env.served.etag.Some? && t.env.served.content == meaning(t.env.served.etag.value)
  }

  ghost predicate AllDetermined(meaning: string -> Result<R.Manifest, Error>, turns: seq<Turn>)
  {
    forall i :: 0 <= i < |turns| ==> Determined(meaning, turns[i])
  }

  // ---- Alike up to the ETag ----

  ghost predicate AlikeState(a: State, b: State)
  {
    a.ring == b.ring && a.digest == b.digest && a.lastSequence == b.lastSequence
  }

  ghost predicate AlikeDisk(a: Disk, b: Disk)
  {
    a.versions == b.versions && a.staging == b.staging && a.current == b.current && AlikeState(a.saved, b.saved)
  }

  ghost predicate AlikeEffect(a: Effect, b: Effect)
  {
    if a.Save? then b.Save? && AlikeState(a.state, b.state) else a == b
  }

  ghost predicate AlikeEffects(a: seq<Effect>, b: seq<Effect>)
  {
    |a| == |b| && forall i :: 0 <= i < |a| ==> AlikeEffect(a[i], b[i])
  }

  ghost predicate Alike(a: Machine, b: Machine)
  {
    AlikeState(a.state, b.state) && AlikeDisk(a.disk, b.disk)
  }

  lemma {:induction false} AlikeApply(a: Disk, b: Disk, es: seq<Effect>, fs: seq<Effect>)
    requires AlikeDisk(a, b) && AlikeEffects(es, fs)
    ensures AlikeDisk(ApplyAll(a, es), ApplyAll(b, fs))
    decreases |es|
  {
    if es != [] {
      assert AlikeEffect(es[0], fs[0]);
      assert AlikeDisk(Apply(a, es[0]), Apply(b, fs[0]));
      assert forall i :: 0 <= i < |es| - 1 ==> es[1..][i] == es[i + 1] && fs[1..][i] == fs[i + 1];
      AlikeApply(Apply(a, es[0]), Apply(b, fs[0]), es[1..], fs[1..]);
    }
  }

  lemma AlikeConcat(a: seq<Effect>, b: seq<Effect>, c: seq<Effect>, d: seq<Effect>)
    requires AlikeEffects(a, b) && AlikeEffects(c, d)
    ensures AlikeEffects(a + c, b + d)
  {
  }

  ghost predicate AlikeOutcome(a: Outcome, b: Outcome)
  {
    AlikeState(a.state, b.state) && AlikeEffects(a.effects, b.effects) && a.ended == b.ended
  }

  // ---- A poll's outcome does not depend on the ETag held ----

  lemma AlikeSwitching(c: Config, d: Disk, e: Disk, s: State, u: State, env: Env, ring: R.Ring, etag: Option<string>)
    requires AlikeState(s, u) && d.versions == e.versions
    ensures AlikeOutcome(Switching(c, d, s, env, ring, etag), Switching(c, e, u, env, ring, etag))
  {
    var prune := Pruning(env.listing, Kept(c.keep, ring.bundle, s.digest), env.removals);
    var s', u' := s.(ring := ring.name, digest := ring.bundle), u.(ring := ring.name, digest := ring.bundle);
    AlikeConcat([Save(s')], [Save(u')], prune, prune);
    AlikeConcat([Save(s')] + prune, [Save(u')] + prune, SaveEtag(s', etag), SaveEtag(u', etag));
    AlikeConcat([Link(ring.bundle)], [Link(ring.bundle)], Finishing(c, s, env, ring, etag),
                Finishing(c, u, env, ring, etag));
  }

  lemma AlikeReplace(c: Config, d: Disk, e: Disk, s: State, u: State, env: Env, ring: R.Ring, etag: Option<string>)
    requires AlikeState(s, u) && AlikeDisk(d, e)
    ensures AlikeOutcome(Replace(c, d, s, env, ring, etag), Replace(c, e, u, env, ring, etag))
  {
    hide Switching, Installing;
    var es := Installing(c, d, env, ring.bundle).0;
    InstallingDepends(c, d, e, env, ring.bundle);
    AlikeApply(d, e, es, es);
    AlikeSwitching(c, ApplyAll(d, es), ApplyAll(e, es), s, u, env, ring, etag);
    AlikeConcat(es, es, Switching(c, ApplyAll(d, es), s, env, ring, etag).effects,
                Switching(c, ApplyAll(e, es), u, env, ring, etag).effects);
  }

  lemma AlikeActing(c: Config, d: Disk, e: Disk, s: State, u: State, env: Env, m: R.Manifest, etag: Option<string>)
    requires AlikeState(s, u) && AlikeDisk(d, e)
    ensures AlikeOutcome(Acting(c, d, s, env, m, etag), Acting(c, e, u, env, m, etag))
  {
    hide Replace, R.TargetIndex;
    var target := R.Target(m.rings, c.node);
    if target.Some? {
      AlikeReplace(c, d, e, s, u, env, target.value, etag);
      var save := SaveEtag(s, etag);
      AlikeConcat(save, SaveEtag(u, etag), [Save(Remember(s, etag).(ring := target.value.name))],
                  [Save(Remember(u, etag).(ring := target.value.name))]);
    }
  }

  lemma AlikeProcess(c: Config, d: Disk, e: Disk, s: State, u: State, env: Env, m: R.Manifest, etag: Option<string>)
    requires AlikeState(s, u) && AlikeDisk(d, e)
    ensures AlikeOutcome(Process(c, d, s, env, m, etag), Process(c, e, u, env, m, etag))
  {
    hide Acting;
    AlikeActing(c, d, e, Sequenced(s, m), Sequenced(u, m), env, m, etag);
    AlikeConcat([Save(s)], [Save(u)], SaveSequence(s, m), SaveSequence(u, m));
    AlikeConcat(Counting(s, m), Counting(u, m), Acting(c, d, Sequenced(s, m), env, m, etag).effects,
                Acting(c, e, Sequenced(u, m), env, m, etag).effects);
  }

  // ---- A manifest that has been acted on ----

  /** Acting on the manifest again would change nothing: its sequence is recorded, and it is frozen,
      or names no ring for this node, or this node runs what it names. */
  ghost predicate Settled(c: Config, s: State, m: R.Manifest)
  {
    && (m.sequence.Some? ==> m.sequence.value <= s.lastSequence)
    && var target := R.Target(m.rings, c.node);
       m.freeze || target.None? || (target.value.bundle == s.digest && target.value.name == s.ring)
  }

  /** The ETag held belongs to a manifest that has been acted on. */
  ghost predicate CacheOk(c: Config, meaning: string -> Result<R.Manifest, Error>, s: State)
  {
    s.etag != "" ==> meaning(s.etag).Ok? && Settled(c, s, meaning(s.etag).value)
  }

  /** Acting on a manifest settles it, or fails and leaves the state as it was. */
  lemma ActingSettles(c: Config, disk: Disk, s: State, env: Env, m: R.Manifest, etag: string)
    requires m.sequence.Some? ==> m.sequence.value <= s.lastSequence
    ensures var o := Acting(c, disk, s, env, m, Some(etag));
            o.state == s || (o.state.etag == etag && Settled(c, o.state, m))
  {
  }

  lemma PollKeepsCacheOk(c: Config, meaning: string -> Result<R.Manifest, Error>, full: bool, disk: Disk, s: State,
                         t: Turn)
    requires CacheOk(c, meaning, s) && Determined(meaning, t)
    ensures CacheOk(c, meaning, Poll(c, full, disk, s, t.env).state)
  {
    hide Acting, R.Target, Counting;
    match Answer(t.env.served, if full then None else CurrentEtag(disk, s))
    case Failed(_) =>
    case Unchanged =>
    case Changed(content, etag) =>
      match Verified(s, t.env, content)
      case Err(_) =>
      case Ok(m) => ActingSettles(c, disk, Sequenced(s, m), t.env, m, etag.value);
  }

  // ---- The poll a 304 saves ----

  lemma {:induction false} OnlySaves(disk: Disk, es: seq<Effect>, s: State)
    requires AlikeState(disk.saved, s) && forall i :: 0 <= i < |es| ==> es[i].Save? && AlikeState(es[i].state, s)
    ensures AlikeDisk(ApplyAll(disk, es), disk)
    decreases |es|
  {
    if es != [] {
      OnlySaves(Apply(disk, es[0]), es[1..], s);
    }
  }

  lemma SettledActsQuietly(c: Config, disk: Disk, s: State, env: Env, m: R.Manifest, etag: Option<string>)
    requires Settled(c, s, m) && Has(disk, s.digest)
    ensures var o := Acting(c, disk, s, env, m, etag);
            && AlikeState(o.state, s)
            && forall i :: 0 <= i < |o.effects| ==> o.effects[i].Save? && AlikeState(o.effects[i].state, s)
  {
  }

  /** Polling without an ETag for a settled manifest changes nothing but the ETag. */
  lemma SettledPollIsQuiet(c: Config, disk: Disk, s: State, env: Env, etag: Option<string>, m: R.Manifest)
    requires Settled(c, s, m) && Has(disk, s.digest) && AlikeState(disk.saved, s)
    ensures var o := Process(c, disk, s, env, m, etag);
            AlikeState(o.state, s) && AlikeDisk(ApplyAll(disk, o.effects), disk)
  {
    hide Acting, R.Target;
    assert Sequenced(s, m) == s && SaveSequence(s, m) == [];
    SettledActsQuietly(c, disk, s, env, m, etag);
    OnlySaves(disk, Process(c, disk, s, env, m, etag).effects, s);
  }

  // ---- Step by step ----

  /** The cached machine's memory and disk agree, and so do both machines up to the ETag. */
  ghost predicate Coupled(c: Config, meaning: string -> Result<R.Manifest, Error>, cached: Machine, plain: Machine)
  {
    && Alike(cached, plain) && CacheOk(c, meaning, cached.state)
    && cached.disk.saved == cached.state && plain.disk.saved == plain.state
  }

  lemma DeletingAlike(a: Disk, b: Disk, gone: set<string>)
    requires AlikeDisk(a, b)
    ensures AlikeDisk(Deleting(a, gone), Deleting(b, gone))
  {
  }

  /** Both machines get the full answer. */
  lemma FullStep(c: Config, d: Disk, e: Disk, s: State, u: State, env: Env, content: Result<R.Manifest, Error>,
                 etag: Option<string>)
    requires AlikeState(s, u) && AlikeDisk(d, e)
    requires Verified(s, env, content).Ok?
    ensures Verified(u, env, content) == Verified(s, env, content)
    ensures var m := Verified(s, env, content).value;
            var o, p := Process(c, d, s, env, m, etag), Process(c, e, u, env, m, etag);
            AlikeState(o.state, p.state) && AlikeDisk(ApplyAll(d, o.effects), ApplyAll(e, p.effects))
  {
    hide Process;
    var m := Verified(s, env, content).value;
    AlikeProcess(c, d, e, s, u, env, m, etag);
    AlikeApply(d, e, Process(c, d, s, env, m, etag).effects, Process(c, e, u, env, m, etag).effects);
  }

  /** The cached machine is told that nothing changed; the other one does the work, to no effect. */
  lemma ConfirmedStep(c: Config, meaning: string -> Result<R.Manifest, Error>, d: Disk, e: Disk, s: State, u: State,
                      env: Env)
    requires AlikeState(s, u) && AlikeDisk(d, e) && CacheOk(c, meaning, s) && d.saved == s && e.saved == u
    requires env.served.Serving? && env.served.etag.Some? && env.served.content == meaning(env.served.etag.value)
    requires CurrentEtag(d, s).Some? && CurrentEtag(d, s) == env.served.etag
    ensures var p := Poll(c, true, e, u, env);
            AlikeState(p.state, u) && AlikeDisk(ApplyAll(e, p.effects), e)
  {
    hide Process, R.Target;
    var verified := Verified(u, env, env.served.content);
    if verified.Ok? {
      assert Settled(c, u, verified.value);
      SettledPollIsQuiet(c, e, u, env, env.served.etag, verified.value);
    }
  }

  lemma AlikeTransitive(a: Disk, b: Disk, c: Disk)
    requires AlikeDisk(a, b) && AlikeDisk(b, c)
    ensures AlikeDisk(a, c) && AlikeDisk(c, a)
  {
  }

  lemma StepAlike(c: Config, meaning: string -> Result<R.Manifest, Error>, d: Disk, e: Disk, s: State, u: State,
                  t: Turn)
    requires AlikeState(s, u) && AlikeDisk(d, e) && CacheOk(c, meaning, s) && d.saved == s && e.saved == u
    requires Determined(meaning, t)
    ensures var o, p := Poll(c, t.full, d, s, t.env), Poll(c, true, e, u, t.env);
            AlikeState(o.state, p.state) && AlikeDisk(ApplyAll(d, o.effects), ApplyAll(e, p.effects))
  {
    hide Process, Settled, CacheOk;
    var env := t.env;
    match Answer(env.served, if t.full then None else CurrentEtag(d, s))
    case Failed(_) =>
    case Unchanged =>
      ConfirmedStep(c, meaning, d, e, s, u, env);
      ApplyOne(d, Save(s));
      AlikeTransitive(ApplyAll(e, Poll(c, true, e, u, env).effects), e, ApplyAll(d, [Save(s)]));
    case Changed(content, etag) =>
      if Verified(s, env, content).Ok? {
        FullStep(c, d, e, s, u, env, content, etag);
      }
  }

  lemma StepKeepsCoupled(c: Config, meaning: string -> Result<R.Manifest, Error>, cached: Machine, plain: Machine,
                         t: Turn)
    requires Coupled(c, meaning, cached, plain) && Determined(meaning, t)
    ensures Coupled(c, meaning, Step(c, cached, t, true), Step(c, plain, t, false))
  {
    hide Poll, Settled;
    var d, e := Deleting(cached.disk, t.deleted), Deleting(plain.disk, t.deleted);
    DeletingAlike(cached.disk, plain.disk, t.deleted);
    StepAlike(c, meaning, d, e, cached.state, plain.state, t);
    PollKeepsCacheOk(c, meaning, t.full, d, cached.state, t);
    PollSaves(c, t.full, d, cached.state, t.env);
    PollSaves(c, true, e, plain.state, t.env);
  }

  /** The ETag poller refines the poller that never sends one: after every history both run the same
      ring and bundle, have the same versions unpacked and the same sequence recorded. */
  lemma {:induction false} EtagsChangeNothing(c: Config, meaning: string -> Result<R.Manifest, Error>,
                                              cached: Machine, plain: Machine, turns: seq<Turn>)
    requires Coupled(c, meaning, cached, plain) && AllDetermined(meaning, turns)
    ensures var a, b := Run(c, cached, turns, true), Run(c, plain, turns, false);
            && a.state.ring == b.state.ring && a.state.digest == b.state.digest
            && a.state.lastSequence == b.state.lastSequence
            && a.disk.versions == b.disk.versions && a.disk.current == b.disk.current
    decreases |turns|
  {
    hide Poll, Settled;
    if turns != [] {
      assert Determined(meaning, turns[0]);
      StepKeepsCoupled(c, meaning, cached, plain, turns[0]);
      assert AllDetermined(meaning, turns[1..]);
      EtagsChangeNothing(c, meaning, Step(c, cached, turns[0], true), Step(c, plain, turns[0], false), turns[1..]);
    }
  }

  /** In particular from a first start on an empty disk. */
  lemma EtagsChangeNothingFromStart(c: Config, meaning: string -> Result<R.Manifest, Error>, turns: seq<Turn>)
    requires AllDetermined(meaning, turns)
    ensures var start := Machine(BLANK, EMPTY);
            var a, b := Run(c, start, turns, true), Run(c, start, turns, false);
            a.state.ring == b.state.ring && a.state.digest == b.state.digest && a.disk.versions == b.disk.versions
  {
    EtagsChangeNothing(c, meaning, Machine(BLANK, EMPTY), Machine(BLANK, EMPTY), turns);
  }
}
