/** The pull-based policy source as an object: polling updates the state it holds and the disk, call
    by call. The trail of effects is what a stop could cut short. */
module BundleSource {
  import opened Text
  import T = Tar
  import R = Rollout
  import opened BundleStore
  import opened Poller
  import F = PollerFacts

  /** The unpacking one call longer. */
  lemma BuildingStep(digest: string, entries: seq<T.Entry>, i: nat)
    requires i < |entries|
    ensures var build := Building(digest, entries);
            && |build| == |entries| + 2
            && build[..1 + i + 1] == build[..1 + i] + [WriteStaged(digest, entries[i].path, entries[i].content)]
  {
    BuildingShape(digest, entries);
  }

  lemma BuildingEnds(digest: string, entries: seq<T.Entry>)
    ensures var build := Building(digest, entries);
            && |build| == |entries| + 2 && build[..0] == [] && build[..1] == [MakeStaging(digest)]
            && build == build[..|entries| + 1] + [Promote(digest)]
  {
    BuildingShape(digest, entries);
  }

  class Source {
    const cfg: Config
    var state: State
    var disk: Disk
    var polls: nat
    ghost const base: Disk
    ghost var trail: seq<Effect>

    /** The disk is what the effects so far made of the one found at start-up. */
    ghost predicate Valid()
      reads this
    {
      disk == ApplyAll(base, trail)
    }

    /** A start: the state is the one on disk. */
    constructor (cfg: Config, found: Disk)
      ensures this.cfg == cfg && disk == found && state == found.saved && polls == 0 && trail == [] && Valid()
    {
      this.cfg := cfg;
      disk, state, polls := found, found.saved, 0;
      base, trail := found, [];
    }

    /** One filesystem call. */
    method Do(e: Effect)
      requires Valid()
      modifies this`disk, this`trail
      ensures Valid() && trail == old(trail) + [e] && disk == Apply(old(disk), e)
    {
      ApplyConcat(base, trail, [e]);
      ApplyOne(disk, e);
      disk := Apply(disk, e);
      trail := trail + [e];
    }

    /** `remember_etag`. */
    method RememberEtag(etag: Option<string>)
      requires Valid()
      modifies this`disk, this`trail, this`state
      ensures Valid() && state == Remember(old(state), etag) && trail == old(trail) + SaveEtag(old(state), etag)
    {
      if etag.None? {
        return;
      }
      state := state.(etag := etag.value);
      Do(Save(state));
    }

    /** `record_success` and `record_sequence`. */
    method Count(m: R.Manifest)
      requires Valid()
      modifies this`disk, this`trail, this`state
      ensures Valid() && state == Sequenced(old(state), m) && trail == old(trail) + Counting(old(state), m)
      ensures disk.versions == old(disk).versions && disk.staging == old(disk).staging
    {
      Do(Save(state));
      if m.sequence.Some? && m.sequence.value > state.lastSequence {
        state := state.(lastSequence := m.sequence.value);
        Do(Save(state));
      }
    }

    /** `remove_dir_all` on a staging directory, its failure ignored. */
    method Clear(digest: string, r: Removal)
      requires Valid()
      modifies this`disk, this`trail
      ensures Valid() && trail == old(trail) + Clearing(digest, r)
    {
      Do(TearStaging(digest, r.gone));
      if !r.fails {
        Do(ClearStaging(digest));
      }
    }

    /** `write_version`: stage, write every entry, rename. `fault` is the call that fails, if one does. */
    method WriteVersion(env: Env, digest: string, entries: seq<T.Entry>) returns (error: Option<Error>)
      requires Valid()
      modifies this`disk, this`trail
      ensures Valid() && error == WritingVersion(old(disk), env, digest, entries).1
      ensures trail == old(trail) + WritingVersion(old(disk), env, digest, entries).0
    {
      hide Building, Clearing, Leftover, Blocked, Unpacked, ApplyAll, Apply, RemovalOf;
      ghost var build, before := Building(digest, entries), trail;
      var r := RemovalOf(env.removals, Staging(digest));
      var base := Leftover(disk, digest, r);
      BuildingEnds(digest, entries);
      BlockedRange(base, entries, 0);
      Clear(digest, r);
      ghost var cleared := Clearing(digest, r);
      if env.fault == Some(0) {
        assert trail == before + (cleared + build[..0]);
        return Some(Io);
      }
      Do(MakeStaging(digest));
      assert trail == before + (cleared + build[..1]);
      for i := 0 to |entries|
        invariant Valid() && trail == before + (cleared + build[..1 + i])
        invariant env.fault.Some? ==> env.fault.value >= 1 + i
        invariant FirstBlocked(base, entries, 0) == FirstBlocked(base, entries, i)
      {
        BuildingStep(digest, entries, i);
        BlockedRange(base, entries, i);
        if env.fault == Some(1 + i) || Blocked(base + Unpacked(entries[..i]), entries[i].path) {
          return Some(Io);
        }
        Do(WriteStaged(digest, entries[i].path, entries[i].content));
        assert trail == before + (cleared + build[..1 + i + 1]);
      }
      if env.fault == Some(|entries| + 1) {
        Clear(digest, r);
        assert trail == before + (cleared + build[..|entries| + 1] + cleared);
        return Some(Io);
      }
      Do(Promote(digest));
      assert trail == before + (cleared + build);
      error := None;
    }

    /** `prune` about one directory: a failed removal is ignored. */
    method PruneOne(x: Listed, keep: set<string>, r: Removal)
      requires Valid()
      modifies this`disk, this`trail
      ensures Valid() && trail == old(trail) + PruningOf(x, keep, r)
    {
      match x {
        case Staging(d) => Clear(d, r);
        case Version(d) =>
          if d !in keep {
            Do(Tear(d, r.gone));
            if !r.fails {
              Do(RemoveVersion(d));
            }
          }
      }
    }

    /** `prune`, over the listing it reads. */
    method Prune(listing: seq<Listed>, keep: set<string>, removals: map<Listed, Removal>)
      requires Valid()
      modifies this`disk, this`trail
      ensures Valid() && trail == old(trail) + Pruning(listing, keep, removals)
    {
      hide PruningOf, RemovalOf, ApplyAll;
      var rest := listing;
      while rest != []
        invariant Valid() && trail + Pruning(rest, keep, removals) == old(trail) + Pruning(listing, keep, removals)
        decreases |rest|
      {
        ghost var here, tail := trail, Pruning(rest[1..], keep, removals);
        ghost var first := PruningOf(rest[0], keep, RemovalOf(removals, rest[0]));
        PruneOne(rest[0], keep, RemovalOf(removals, rest[0]));
        assert (here + first) + tail == here + (first + tail);
        rest := rest[1..];
      }
      assert trail + [] == trail;
    }

    /** The bundle is fetched, checked against its digest, read and unpacked. */
    method InstallBundle(env: Env, bundle: string) returns (error: Option<Error>)
      requires Valid()
      modifies this`disk, this`trail
      ensures Valid() && error == Install(cfg, old(disk), env, bundle).1
      ensures trail == old(trail) + Install(cfg, old(disk), env, bundle).0
    {
      assert trail + [] == trail;
      if env.blob.None? {
        return Some(Fetch);
      }
      if cfg.sha(env.blob.value) != bundle {
        return Some(Signature);
      }
      var extracted := T.Extract(env.blob.value, cfg.maxBytes);
      if extracted.Err? {
        return Some(if extracted.error.Malformed? then Malformed else Rejected);
      }
      if !cfg.valid(extracted.value) {
        return Some(Rejected);
      }
      error := WriteVersion(env, bundle, extracted.value);
    }

    /** The bundle stays; the ring's name may change. */
    method StayOn(ring: R.Ring, etag: Option<string>)
      requires Valid()
      modifies this`disk, this`trail, this`state
      ensures Valid() && state == Stay(old(state), ring, etag).state
      ensures trail == old(trail) + Stay(old(state), ring, etag).effects
    {
      ghost var s0 := state;
      RememberEtag(etag);
      if state.ring != ring.name {
        state := state.(ring := ring.name);
        Do(Save(state));
        assert trail == old(trail) + (SaveEtag(s0, etag) + [Save(state)]);
      }
    }

    /** Unpack the bundle unless it is already there. */
    method EnsureUnpacked(env: Env, bundle: string) returns (error: Option<Error>)
      requires Valid()
      modifies this`disk, this`trail
      ensures Valid() && error == Installing(cfg, old(disk), env, bundle).1
      ensures trail == old(trail) + Installing(cfg, old(disk), env, bundle).0
      ensures disk == ApplyAll(old(disk), Installing(cfg, old(disk), env, bundle).0)
    {
      if Has(disk, bundle) {
        assert trail + [] == trail;
        return None;
      }
      error := InstallBundle(env, bundle);
      ApplyConcat(base, old(trail), Install(cfg, old(disk), env, bundle).0);
    }

    /** The swap of `current` and what follows it. */
    method SwitchTo(env: Env, ring: R.Ring, etag: Option<string>) returns (ended: Ended)
      requires Valid()
      modifies this`disk, this`trail, this`state
      ensures Valid()
      ensures var o := Switching(cfg, old(disk), old(state), env, ring, etag);
              trail == old(trail) + o.effects && state == o.state && ended == o.ended
    {
      if env.linkFails {
        assert trail + [] == trail;
        return Refused(Io);
      }
      Do(Link(ring.bundle));
      if !Readable(disk, env, ring.bundle) {
        return Refused(if env.readFails then Io else Rejected);
      }
      ghost var s0 := state;
      var previous := state.digest;
      state := state.(ring := ring.name, digest := ring.bundle);
      Finish(env, ring, etag, previous, s0);
      assert trail == old(trail) + ([Link(ring.bundle)] + Finishing(cfg, s0, env, ring, etag));
      ended := Applied(ring.bundle);
    }

    /** The part of `poll` that changes what this node runs. */
    method ReplaceBundle(env: Env, ring: R.Ring, etag: Option<string>) returns (ended: Ended)
      requires Valid()
      modifies this`disk, this`trail, this`state
      ensures Valid()
      ensures var o := Replace(cfg, old(disk), old(state), env, ring, etag);
              trail == old(trail) + o.effects && state == o.state && ended == o.ended
    {
      hide Install, Switching, ApplyAll;
      var error := EnsureUnpacked(env, ring.bundle);
      if error.Some? {
        return Refused(error.value);
      }
      ghost var unpacked := trail;
      ghost var switch := Switching(cfg, disk, state, env, ring, etag);
      ended := SwitchTo(env, ring, etag);
      assert trail == old(trail) + (Installing(cfg, old(disk), env, ring.bundle).0 + switch.effects);
    }

    /** Record, prune, and only then remember the ETag. */
    method Finish(env: Env, ring: R.Ring, etag: Option<string>, previous: string, ghost s0: State)
      requires Valid() && previous == s0.digest && state == s0.(ring := ring.name, digest := ring.bundle)
      modifies this`disk, this`trail, this`state
      ensures Valid() && state == Remember(s0.(ring := ring.name, digest := ring.bundle), etag)
      ensures trail == old(trail) + Finishing(cfg, s0, env, ring, etag)
    {
      hide Pruning, Kept, ApplyAll;
      ghost var next := state;
      Do(Save(state));
      Prune(env.listing, Kept(cfg.keep, ring.bundle, previous), env.removals);
      RememberEtag(etag);
      ghost var pruning := Pruning(env.listing, Kept(cfg.keep, ring.bundle, previous), env.removals);
      assert trail == old(trail) + ([Save(next)] + pruning + SaveEtag(next, etag));
    }

    /** `poll`. Every `fullFetchEvery`-th one goes out without an ETag. */
    method PollOnce(env: Env) returns (ended: Ended)
      requires Valid()
      modifies this
      ensures Valid() && polls == old(polls) + 1
      ensures var full := cfg.fullFetchEvery > 0 && polls % cfg.fullFetchEvery == 0;
              var o := Poll(cfg, full, old(disk), old(state), env);
              trail == old(trail) + o.effects && state == o.state && ended == o.ended
    {
      ghost var t0, s0, d0 := trail, state, disk;
      polls := polls + 1;
      var sent := if cfg.fullFetchEvery > 0 && polls % cfg.fullFetchEvery == 0 then None else CurrentEtag(disk, state);
      var fetched := Answer(env.served, sent);
      if fetched.Failed? {
        return Refused(fetched.error);
      }
      if fetched.Unchanged? {
        Do(Save(state));
        return NoChange;
      }
      var verified := Verified(state, env, fetched.content);
      if verified.Err? {
        return Refused(verified.error);
      }
      ended := ActOn(env, verified.value, fetched.etag);
    }

    /** `poll` from a verified manifest on. */
    method ActOn(env: Env, m: R.Manifest, etag: Option<string>) returns (ended: Ended)
      requires Valid()
      modifies this`disk, this`trail, this`state
      ensures Valid()
      ensures var o := Process(cfg, old(disk), old(state), env, m, etag);
              trail == old(trail) + o.effects && state == o.state && ended == o.ended
    {
      hide R.Target, Replace, Sequenced, SaveSequence;
      Count(m);
      ActingDependsOnVersions(cfg, old(disk), disk, state, env, m, etag);
      ghost var act := Acting(cfg, old(disk), state, env, m, etag);
      ghost var counted := trail;
      var target := R.Target(m.rings, cfg.node);
      if m.freeze || target.None? {
        RememberEtag(etag);
        ended := NoChange;
      } else if state.digest == target.value.bundle && Has(disk, target.value.bundle) {
        StayOn(target.value, etag);
        ended := NoChange;
      } else {
        ended := ReplaceBundle(env, target.value, etag);
      }
      assert trail == counted + act.effects;
      assert trail == old(trail) + (Counting(old(state), m) + act.effects);
    }
  }

  lemma {:induction false} BlockedRange(base: Files, entries: seq<T.Entry>, from: nat)
    requires from <= |entries|
    ensures from + 1 <= FirstBlocked(base, entries, from) <= |entries| + 2
    ensures FirstBlocked(base, entries, from) != |entries| + 1
    decreases |entries| - from
  {
    if from < |entries| {
      BlockedRange(base, entries, from + 1);
    }
  }

  lemma SwitchingDependsOnVersions(c: Config, a: Disk, b: Disk, s: State, env: Env, ring: R.Ring, etag: Option<string>)
    requires a.versions == b.versions
    ensures Switching(c, a, s, env, ring, etag) == Switching(c, b, s, env, ring, etag)
  {
    hide Finishing;
  }

  lemma ReplaceDependsOnVersions(c: Config, a: Disk, b: Disk, s: State, env: Env, ring: R.Ring, etag: Option<string>)
    requires a.versions == b.versions && a.staging == b.staging
    ensures Replace(c, a, s, env, ring, etag) == Replace(c, b, s, env, ring, etag)
  {
    hide Installing, Switching;
    F.InstallingDepends(c, a, b, env, ring.bundle);
    ApplyVersions(a, b, Installing(c, a, env, ring.bundle).0);
    SwitchingDependsOnVersions(c, ApplyAll(a, Installing(c, a, env, ring.bundle).0),
                               ApplyAll(b, Installing(c, a, env, ring.bundle).0), s, env, ring, etag);
  }

  /** What is done about a manifest depends on the disk only through versions and staging. */
  lemma ActingDependsOnVersions(c: Config, a: Disk, b: Disk, s: State, env: Env, m: R.Manifest, etag: Option<string>)
    requires a.versions == b.versions && a.staging == b.staging
    ensures Acting(c, a, s, env, m, etag) == Acting(c, b, s, env, m, etag)
  {
    var target := R.Target(m.rings, c.node);
    if target.Some? {
      ReplaceDependsOnVersions(c, a, b, s, env, target.value, etag);
    }
  }
}
