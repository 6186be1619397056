/** What a whole poll leaves behind, by how it ended, and what holds at every point of a run. */
module PollerEnds {
  import opened Text
  import T = Tar
  import R = Rollout
  import opened BundleStore
  import opened Poller
  import opened PollerFacts
  import opened PollerRuns
  import opened PollerVersions

  /** No removal gets stuck, nobody deletes, and the registry serves one blob per digest. */
  ghost predicate Undisturbed(c: Config, blobs: Blobs, m: Machine, ev: Event)
  {
    && !ev.Deleted? && !HalfRemoved(m.disk.versions, Calls(c, m, ev))
    && (ev.Polled? || ev.Stopped? ==> Agrees(c, blobs, ev.env))
  }

  /** At every point of such a run, stops included: each version is the extraction of the blob of its
      digest, and the recorded one is there. */
  lemma {:induction false} RunKeepsVersions(c: Config, blobs: Blobs, ms: seq<Machine>, evs: seq<Event>, i: nat)
    requires IsRun(c, ms, evs) && i <= |evs|
    requires Authentic(c, blobs, ms[0].disk.versions) && Partial(c, blobs, ms[0].disk.staging)
    requires Recorded(ms[0].state, ms[0].disk.versions)
    requires forall j :: 0 <= j < i ==> Undisturbed(c, blobs, ms[j], evs[j])
    ensures Authentic(c, blobs, ms[i].disk.versions) && Partial(c, blobs, ms[i].disk.staging)
    ensures Recorded(ms[i].state, ms[i].disk.versions)
    decreases i
  {
    hide After, Authentic, Partial, Calls, HalfRemoved, Agrees;
    if i > 0 {
      RunKeepsVersions(c, blobs, ms, evs, i - 1);
      RunFacts(c, ms, evs, i - 1, i - 1);
      assert FollowsAt(c, ms, evs, i - 1);
      assert Undisturbed(c, blobs, ms[i - 1], evs[i - 1]);
      AuthenticIffNotHalfRemoved(c, blobs, ms[i - 1], evs[i - 1]);
      EventKeepsRecorded(c, ms[i - 1], evs[i - 1]);
    }
  }

  // ---- What a poll is about ----

  /** The verified manifest of a poll, with its ETag. */
  function Accepted(full: bool, disk: Disk, s: State, env: Env): Option<(R.Manifest, Option<string>)>
  {
    match Answer(env.served, if full then None else CurrentEtag(disk, s))
    case Failed(_) => None
    case Unchanged => None
    case Changed(content, etag) =>
      match Verified(s, env, content)
      case Err(_) => None
      case Ok(man) => Some((man, etag))
  }

  /** The ring whose bundle a poll sets out to put in place. */
  function Sought(c: Config, full: bool, disk: Disk, s: State, env: Env): Option<R.Ring>
  {
    match Accepted(full, disk, s, env)
    case None => None
    case Some((man, _)) =>
      var target := R.Target(man.rings, c.node);
      if man.freeze || target.None? || (s.digest == target.value.bundle && Has(disk, target.value.bundle))
      then None
      else target
  }

  /** The sequence recorded with the manifest. */
  function Numbered(s: State, accepted: Option<(R.Manifest, Option<string>)>): State
  {
    if accepted.Some? then Sequenced(s, accepted.value.0) else s
  }

  /** A poll that sets out to replace the bundle does nothing else but count the manifest. */
  lemma SoughtIsReplaced(c: Config, full: bool, disk: Disk, s: State, env: Env)
    requires Sought(c, full, disk, s, env).Some?
    ensures var accepted := Accepted(full, disk, s, env);
            && accepted.Some?
            && var o, r := Poll(c, full, disk, s, env),
                           Replace(c, disk, Numbered(s, accepted), env, Sought(c, full, disk, s, env).value,
                                   accepted.value.1);
               && o.effects == Counting(s, accepted.value.0) + r.effects && o.state == r.state && o.ended == r.ended
               && ApplyAll(disk, o.effects).versions == ApplyAll(disk, r.effects).versions
               && ApplyAll(disk, o.effects).current == ApplyAll(disk, r.effects).current
    ensures var numbered := Numbered(s, Accepted(full, disk, s, env));
            numbered == s.(lastSequence := numbered.lastSequence)
  {
    hide Replace, R.TargetIndex, ApplyAll, R.Fresh;
    var (man, etag) := Accepted(full, disk, s, env).value;
    var r := Replace(c, disk, Sequenced(s, man), env, Sought(c, full, disk, s, env).value, etag);
    ApplyConcat(disk, Counting(s, man), r.effects);
    SavesOnly(disk, Counting(s, man));
    SavedIsSeparate(disk, ApplyAll(disk, Counting(s, man)).saved, r.effects);
  }

  /** Any other poll only saves, and applies nothing. */
  lemma UnsoughtIsQuiet(c: Config, full: bool, disk: Disk, s: State, env: Env)
    requires Sought(c, full, disk, s, env).None?
    ensures var o := Poll(c, full, disk, s, env);
            && !o.ended.Applied? && (forall i :: 0 <= i < |o.effects| ==> o.effects[i].Save?)
            && ApplyAll(disk, o.effects) == disk.(saved := ApplyAll(disk, o.effects).saved)
            && (o.ended.Refused? ==> o.state == s && o.effects == [])
  {
    hide Replace, R.TargetIndex, ApplyAll, R.Fresh;
    var o := Poll(c, full, disk, s, env);
    assert forall i :: 0 <= i < |o.effects| ==> o.effects[i].Save?;
    SavesOnly(disk, o.effects);
  }

  // ---- The `current` link ----

  /** The bundle a poll points `current` at: the one it seeks, once unpacked, unless the link fails. */
  function Linked(c: Config, full: bool, disk: Disk, s: State, env: Env): Option<string>
  {
    match Sought(c, full, disk, s, env)
    case None => None
    case Some(ring) =>
      if Installing(c, disk, env, ring.bundle).1.Some? || env.linkFails then None else Some(ring.bundle)
  }

  /** And that could not be read back from disk. */
  predicate Unreadable(c: Config, full: bool, disk: Disk, s: State, env: Env)
  {
    var linked := Linked(c, full, disk, s, env);
    linked.Some? && !Readable(ApplyAll(disk, Installing(c, disk, env, linked.value).0), env, linked.value)
  }

  predicate HasBundle(c: Config, env: Env)
  {
    env.blob.Some? && T.Extracted(env.blob.value, c.maxBytes).Ok?
  }

  /** The files of a bundle unpacked now. */
  function Unpacking(c: Config, disk: Disk, env: Env, bundle: string): Files
    requires HasBundle(c, env)
  {
    Leftover(disk, bundle, RemovalOf(env.removals, Staging(bundle)))
    + Unpacked(T.Extracted(env.blob.value, c.maxBytes).value)
  }

  lemma InstallingWhole(c: Config, disk: Disk, env: Env, bundle: string)
    requires Installing(c, disk, env, bundle).1.None?
    ensures var after := ApplyAll(disk, Installing(c, disk, env, bundle).0);
            && bundle in after.versions && after.current == disk.current
            && after.versions == disk.versions[bundle := after.versions[bundle]]
            && (bundle in disk.versions ==> after.versions[bundle] == disk.versions[bundle])
            && (bundle !in disk.versions ==>
                  HasBundle(c, env) && after.versions[bundle] == Unpacking(c, disk, env, bundle))
  {
    hide T.Extracted, WritingVersion, Unpacked, Building, Clearing, Leftover;
    if !Has(disk, bundle) {
      var entries := T.Extracted(env.blob.value, c.maxBytes).value;
      WritingShape(disk, env, bundle, entries);
      UnpackingAdds(disk, bundle, entries, RemovalOf(env.removals, Staging(bundle)));
    }
  }

  lemma InstallingAdds(c: Config, disk: Disk, env: Env, bundle: string)
    ensures var after := ApplyAll(disk, Installing(c, disk, env, bundle).0);
            Sub(disk.versions, after.versions) && after.current == disk.current
  {
    hide ApplyAll, Installing;
    var (es, error) := Installing(c, disk, env, bundle);
    if error.None? {
      InstallingWhole(c, disk, env, bundle);
    } else {
      InstallingShape(c, disk, env, bundle);
      StagingLeavesRest(disk, es);
    }
  }

  predicate Sub(versions: map<string, Files>, more: map<string, Files>)
  {
    forall d :: d in versions ==> d in more && more[d] == versions[d]
  }

  lemma {:induction false} LinkStays(disk: Disk, es: seq<Effect>)
    requires forall i :: 0 <= i < |es| ==> !es[i].Link?
    ensures ApplyAll(disk, es).current == disk.current
    decreases |es|
  {
    if es != [] {
      LinkStays(Apply(disk, es[0]), es[1..]);
    }
  }

  lemma SwitchingLinks(c: Config, disk: Disk, s: State, env: Env, ring: R.Ring, etag: Option<string>)
    ensures var o := Switching(c, disk, s, env, ring, etag);
            && ApplyAll(disk, o.effects).current == (if env.linkFails then disk.current else Some(ring.bundle))
            && (o.ended.Refused? <==> env.linkFails || !Readable(disk, env, ring.bundle)) && !o.ended.NoChange?
            && (o.ended.Refused? ==> o.state == s && ApplyAll(disk, o.effects).versions == disk.versions)
            && (o.ended.Applied? ==> o.ended.digest == ring.bundle == o.state.digest)
  {
    hide Pruning, Kept;
    ApplyOne(disk, Link(ring.bundle));
    if !env.linkFails && Readable(disk, env, ring.bundle) {
      var rest := Finishing(c, s, env, ring, etag);
      PruningShape(env.listing, Kept(c.keep, ring.bundle, s.digest), env.removals);
      ApplyConcat(disk, [Link(ring.bundle)], rest);
      LinkStays(Apply(disk, Link(ring.bundle)), rest);
    }
  }

  /** Exactly where `current` points after any poll, and exactly when a poll that got so far is refused. */
  lemma CurrentIsExact(c: Config, full: bool, disk: Disk, s: State, env: Env)
    ensures var o := Poll(c, full, disk, s, env);
            var linked := Linked(c, full, disk, s, env);
            && ApplyAll(disk, o.effects).current == (if linked.Some? then linked else disk.current)
            && (linked.Some? ==> (o.ended.Refused? <==> Unreadable(c, full, disk, s, env)))
            && (o.ended.Applied? <==> linked.Some? && !Unreadable(c, full, disk, s, env))
            && (o.ended.Applied? ==> linked == Some(o.ended.digest))
  {
    hide Poll, Installing, Switching, ApplyAll, Accepted, Readable, R.Target;
    var sought := Sought(c, full, disk, s, env);
    if sought.None? {
      UnsoughtIsQuiet(c, full, disk, s, env);
    } else {
      hide Sought;
      var ring := sought.value;
      SoughtIsReplaced(c, full, disk, s, env);
      var accepted := Accepted(full, disk, s, env);
      var s' := Numbered(s, accepted);
      var (es, error) := Installing(c, disk, env, ring.bundle);
      var mid := ApplyAll(disk, es);
      InstallingAdds(c, disk, env, ring.bundle);
      SwitchingLinks(c, mid, s', env, ring, accepted.value.1);
      ApplyConcat(disk, es, Switching(c, mid, s', env, ring, accepted.value.1).effects);
    }
  }

  /** A refused poll changes neither ring, digest nor ETag, and removes and alters no version. It leaves
      `current` alone if and only if it did not get to link a bundle that then could not be read. */
  lemma RefusedChangesLittle(c: Config, full: bool, disk: Disk, s: State, env: Env)
    requires Poll(c, full, disk, s, env).ended.Refused?
    ensures var o := Poll(c, full, disk, s, env);
            var after := ApplyAll(disk, o.effects);
            && o.state == s.(lastSequence := o.state.lastSequence) && Sub(disk.versions, after.versions)
            && after.current ==
                  (if Unreadable(c, full, disk, s, env) then Linked(c, full, disk, s, env) else disk.current)
  {
    hide Poll, Installing, Switching, ApplyAll, Accepted, Readable, R.Target;
    CurrentIsExact(c, full, disk, s, env);
    var sought := Sought(c, full, disk, s, env);
    if sought.None? {
      UnsoughtIsQuiet(c, full, disk, s, env);
    } else {
      hide Sought;
      var ring := sought.value;
      SoughtIsReplaced(c, full, disk, s, env);
      var accepted := Accepted(full, disk, s, env);
      var s' := Numbered(s, accepted);
      var es := Installing(c, disk, env, ring.bundle).0;
      var mid := ApplyAll(disk, es);
      InstallingAdds(c, disk, env, ring.bundle);
      SwitchingLinks(c, mid, s', env, ring, accepted.value.1);
      ApplyConcat(disk, es, Switching(c, mid, s', env, ring, accepted.value.1).effects);
    }
  }

  // ---- A poll that applied a bundle ----

  /** Of the versions, a switch changes exactly what its prune changes. */
  lemma SwitchingPrunes(c: Config, disk: Disk, s: State, env: Env, ring: R.Ring, etag: Option<string>)
    requires Switching(c, disk, s, env, ring, etag).ended.Applied?
    ensures ApplyAll(disk, Switching(c, disk, s, env, ring, etag).effects).versions
         == ApplyAll(disk, Pruning(env.listing, Kept(c.keep, ring.bundle, s.digest), env.removals)).versions
  {
    hide Pruning, Kept;
    var next := s.(ring := ring.name, digest := ring.bundle);
    var prune := Pruning(env.listing, Kept(c.keep, ring.bundle, s.digest), env.removals);
    var linked := disk.(current := Some(ring.bundle));
    ApplyOne(disk, Link(ring.bundle));
    ApplyConcat(disk, [Link(ring.bundle)], Finishing(c, s, env, ring, etag));
    ApplyConcat(linked, [Save(next)] + prune, SaveEtag(next, etag));
    ApplyConcat(linked, [Save(next)], prune);
    ApplyOne(linked, Save(next));
    SavesOnly(ApplyAll(linked, [Save(next)] + prune), SaveEtag(next, etag));
    ApplyVersions(linked.(saved := next), disk, prune);
  }

  /** Version `d` is out of reach of the prune: the one just applied, the one before, or not listed. */
  predicate Spared(s: State, env: Env, applied: string, d: string)
  {
    d == applied || (s.digest != "" && d == s.digest) || Version(d) !in env.listing
  }

  lemma KeptIs(keep: nat, bundle: string, previous: string, d: string)
    ensures d in Kept(keep, bundle, previous) <==> d == bundle || (previous != "" && d == previous)
  {
    KeptBoth(keep, bundle, previous);
  }

  /** Exactly which versions an applied bundle leaves, and which of them whole. */
  lemma AppliedVersions(c: Config, full: bool, disk: Disk, s: State, env: Env, d: string)
    requires Poll(c, full, disk, s, env).ended.Applied?
    ensures var o := Poll(c, full, disk, s, env);
            var after, applied := ApplyAll(disk, o.effects).versions, o.ended.digest;
            var r := RemovalOf(env.removals, Version(d));
            && o.state.digest == applied && applied in after && after[applied] != map[]
            && !(s.digest == applied && Has(disk, applied))
            && (applied in disk.versions ==> after[applied] == disk.versions[applied])
            && (applied !in disk.versions ==> HasBundle(c, env) && after[applied] == Unpacking(c, disk, env, applied))
            && (d != applied ==> (d in after <==> d in disk.versions && (Spared(s, env, applied, d) || r.fails)))
            && (d != applied && d in after ==>
                  (after[d] == disk.versions[d] <==>
                    Spared(s, env, applied, d) || r.gone * disk.versions[d].Keys == {}))
  {
    hide Poll, Installing, Switching, ApplyAll, Accepted, R.Target, RemovalOf, Pruning, Kept, Unpacking, HasBundle;
    CurrentIsExact(c, full, disk, s, env);
    var ring := Sought(c, full, disk, s, env).value;
    SoughtIsReplaced(c, full, disk, s, env);
    var accepted := Accepted(full, disk, s, env);
    var s' := Numbered(s, accepted);
    var es := Installing(c, disk, env, ring.bundle).0;
    var mid := ApplyAll(disk, es);
    InstallingWhole(c, disk, env, ring.bundle);
    SwitchingLinks(c, mid, s', env, ring, accepted.value.1);
    SwitchingPrunes(c, mid, s', env, ring, accepted.value.1);
    ApplyConcat(disk, es, Switching(c, mid, s', env, ring, accepted.value.1).effects);
    var keep := Kept(c.keep, ring.bundle, s.digest);
    KeptIs(c.keep, ring.bundle, s.digest, d);
    KeptIs(c.keep, ring.bundle, s.digest, ring.bundle);
    PruningKeeps(mid, env.listing, keep, env.removals, ring.bundle);
    if d in mid.versions {
      PruningKeeps(mid, env.listing, keep, env.removals, d);
    } else {
      PruningDamages(map[], env.listing, keep, env.removals, d);
      StaysGone(mid, Pruning(env.listing, keep, env.removals), d);
    }
  }

  /** Pruning: with a complete listing and no removal failing, an applied bundle leaves itself and the
      one recorded before, whatever `keep` says; the previous one keeps its files, and `current`
      points at the new one. */
  lemma AppliedLeavesTwo(c: Config, full: bool, disk: Disk, s: State, env: Env)
    requires Poll(c, full, disk, s, env).ended.Applied?
    requires forall d :: d in disk.versions ==> Version(d) in env.listing && !RemovalOf(env.removals, Version(d)).fails
    ensures var o := Poll(c, full, disk, s, env);
            var after := ApplyAll(disk, o.effects);
            var applied := o.ended.digest;
            && o.state.digest == applied && after.current == Some(applied)
            && after.versions.Keys == {applied} + (if s.digest == "" then {} else {s.digest} * disk.versions.Keys)
    ensures var o := Poll(c, full, disk, s, env);
            var after := ApplyAll(disk, o.effects).versions;
            && o.ended.digest in after && after[o.ended.digest] != map[]
            && (s.digest != "" && s.digest in disk.versions ==>
                  s.digest != o.ended.digest && s.digest in after && after[s.digest] == disk.versions[s.digest])
  {
    hide Poll, ApplyAll, Linked, Unreadable, RemovalOf;
    var o := Poll(c, full, disk, s, env);
    var after := ApplyAll(disk, o.effects);
    CurrentIsExact(c, full, disk, s, env);
    AppliedVersions(c, full, disk, s, env, s.digest);
    forall d
      ensures d in after.versions.Keys <==>
                d == o.ended.digest || (s.digest != "" && d == s.digest && d in disk.versions)
    {
      AppliedVersions(c, full, disk, s, env, d);
    }
  }

  /** In a whole poll a removal gets stuck half way exactly if a bundle is applied and the removal of a
      listed version, neither that bundle nor the one before, fails with files of it deleted. */
  lemma HalfRemovedWhole(c: Config, full: bool, disk: Disk, s: State, env: Env)
    ensures var o := Poll(c, full, disk, s, env);
            HalfRemoved(disk.versions, o.effects) <==>
              && o.ended.Applied?
              && exists d :: && d in disk.versions && !Spared(s, env, o.ended.digest, d)
                             && RemovalOf(env.removals, Version(d)).fails
                             && RemovalOf(env.removals, Version(d)).gone * disk.versions[d].Keys != {}
  {
    hide Poll, ApplyAll, RemovalOf;
    var o := Poll(c, full, disk, s, env);
    if o.ended.Applied? {
      forall d | d in disk.versions
        ensures Damaged(disk.versions[d], d, o.effects) && RemoveVersion(d) !in o.effects <==>
                  && !Spared(s, env, o.ended.digest, d) && RemovalOf(env.removals, Version(d)).fails
                  && RemovalOf(env.removals, Version(d)).gone * disk.versions[d].Keys != {}
      {
        AppliedHalfRemoves(c, full, disk, s, env, d);
      }
    } else {
      UnappliedRemovesNothing(c, full, disk, s, env);
      forall d | d in disk.versions ensures !Damaged(disk.versions[d], d, o.effects) {
      }
    }
  }

  /** A poll that applies nothing removes nothing. */
  lemma UnappliedRemovesNothing(c: Config, full: bool, disk: Disk, s: State, env: Env)
    requires !Poll(c, full, disk, s, env).ended.Applied?
    ensures var es := Poll(c, full, disk, s, env).effects;
            forall i :: 0 <= i < |es| ==> !es[i].Tear? && !es[i].RemoveVersion?
  {
    hide Poll, Installing, ApplyAll, Accepted, R.Target, Finishing;
    if Sought(c, full, disk, s, env).None? {
      UnsoughtIsQuiet(c, full, disk, s, env);
    } else {
      var ring := Sought(c, full, disk, s, env).value;
      hide Sought;
      SoughtIsReplaced(c, full, disk, s, env);
      InstallingShape(c, disk, env, ring.bundle);
    }
  }

  lemma AppliedHalfRemoves(c: Config, full: bool, disk: Disk, s: State, env: Env, d: string)
    requires Poll(c, full, disk, s, env).ended.Applied? && d in disk.versions
    ensures var o := Poll(c, full, disk, s, env);
            Damaged(disk.versions[d], d, o.effects) && RemoveVersion(d) !in o.effects <==>
              && !Spared(s, env, o.ended.digest, d) && RemovalOf(env.removals, Version(d)).fails
              && RemovalOf(env.removals, Version(d)).gone * disk.versions[d].Keys != {}
  {
    hide Poll, ApplyAll, RemovalOf, Damaged;
    var o := Poll(c, full, disk, s, env);
    AppliedVersions(c, full, disk, s, env, d);
    AppliedVersions(c, full, disk, s, env, o.ended.digest);
    if Promote(d) in o.effects {
      PromotesOnlyNew(c, full, disk, s, env, d);
    }
    OneVersion(disk, o.effects, d);
  }

  lemma PromotesOnlyNew(c: Config, full: bool, disk: Disk, s: State, env: Env, d: string)
    requires d in disk.versions
    ensures Promote(d) !in Poll(c, full, disk, s, env).effects
  {
    hide Poll, Installing, Switching, ApplyAll, Accepted, R.Target;
    if Sought(c, full, disk, s, env).None? {
      UnsoughtIsQuiet(c, full, disk, s, env);
    } else {
      var ring := Sought(c, full, disk, s, env).value;
      hide Sought;
      SoughtIsReplaced(c, full, disk, s, env);
      var accepted := Accepted(full, disk, s, env);
      InstallingShape(c, disk, env, ring.bundle);
      InstallingNothing(c, disk, env, ring.bundle);
      SwitchingIsAbout(c, ApplyAll(disk, Installing(c, disk, env, ring.bundle).0), Numbered(s, accepted), env, ring,
                       accepted.value.1);
    }
  }

  // ---- Rolling back ----

  /** The poll's manifest sends this node to `bundle`. */
  predicate Wants(c: Config, env: Env, bundle: string)
  {
    && env.served.Serving? && env.served.content.Ok?
    && R.Target(env.served.content.value.rings, c.node).Some?
    && R.Target(env.served.content.value.rings, c.node).value.bundle == bundle
  }

  lemma InstalledNeedsNoBlob(c: Config, disk: Disk, s: State, env: Env, ring: R.Ring, etag: Option<string>,
                             blob: Option<T.Bytes>)
    requires Has(disk, ring.bundle)
    ensures Replace(c, disk, s, env, ring, etag) == Replace(c, disk, s, env.(blob := blob), ring, etag)
  {
    hide Install;
  }

  lemma UnpackedNeedsNoBlob(c: Config, full: bool, disk: Disk, s: State, env: Env, bundle: string,
                            blob: Option<T.Bytes>)
    requires Wants(c, env, bundle) && Has(disk, bundle)
    ensures Poll(c, full, disk, s, env) == Poll(c, full, disk, s, env.(blob := blob))
  {
    hide Replace, R.TargetIndex, R.Fresh;
    var man := env.served.content.value;
    InstalledNeedsNoBlob(c, disk, Sequenced(s, man), env, R.Target(man.rings, c.node).value, env.served.etag, blob);
  }

  /** Rolling back never downloads: after an applied bundle, a poll that sends the node back to the
      previous one goes the same whatever a request for the blob would answer. */
  lemma RollbackNeedsNoBlob(c: Config, full: bool, disk: Disk, s: State, env: Env, full': bool, env': Env,
                            blob: Option<T.Bytes>)
    requires Poll(c, full, disk, s, env).ended.Applied?
    requires s.digest != "" && s.digest in disk.versions && Wants(c, env', s.digest)
    ensures var o := Poll(c, full, disk, s, env);
            var after := ApplyAll(disk, o.effects);
            Poll(c, full', after, o.state, env') == Poll(c, full', after, o.state, env'.(blob := blob))
  {
    hide Poll, ApplyAll;
    var o := Poll(c, full, disk, s, env);
    AppliedVersions(c, full, disk, s, env, s.digest);
    UnpackedNeedsNoBlob(c, full', ApplyAll(disk, o.effects), o.state, env', s.digest, blob);
  }

  // ---- Removals that stop half way ----

  /** The effects of a poll that switches, up to the first removal of its prune. */
  lemma SwitchingStarts(c: Config, disk: Disk, s: State, env: Env, ring: R.Ring, etag: Option<string>, stale: string)
    requires !env.linkFails && Readable(disk, env, ring.bundle)
    requires env.listing != [] && env.listing[0] == Version(stale) && stale != ring.bundle && stale != s.digest
    ensures [Link(ring.bundle), Save(s.(ring := ring.name, digest := ring.bundle)),
             Tear(stale, RemovalOf(env.removals, Version(stale)).gone)]
              <= Switching(c, disk, s, env, ring, etag).effects
  {
    KeptIs(c.keep, ring.bundle, s.digest, stale);
    hide Kept, RemovalOf;
    var first := PruningOf(Version(stale), Kept(c.keep, ring.bundle, s.digest),
                           RemovalOf(env.removals, Version(stale)));
    assert first[0] == Tear(stale, RemovalOf(env.removals, Version(stale)).gone);
  }

  /** How many calls a poll makes up to and including the deletion of the first files of the prune. */
  function CallsToTear(c: Config, full: bool, disk: Disk, s: State, env: Env): nat
    requires Sought(c, full, disk, s, env).Some?
  {
    var bundle := Sought(c, full, disk, s, env).value.bundle;
    |Counting(s, Accepted(full, disk, s, env).value.0)| + |Installing(c, disk, env, bundle).0| + 3
  }

  lemma ThreeMore(disk: Disk, d: string, t: State, e: Effect)
    ensures ApplyAll(disk, [Link(d), Save(t), e]) == Apply(disk.(current := Some(d), saved := t), e)
  {
    var es := [Link(d), Save(t), e];
    assert es[1..] == [Save(t), e] && es[1..][1..] == [e];
    ApplyOne(Apply(Apply(disk, Link(d)), Save(t)), e);
  }

  /** A stop right there leaves the version torn under its own name, and the new bundle recorded. */
  lemma StopTears(c: Config, full: bool, m: Machine, env: Env, stale: string)
    requires Linked(c, full, m.disk, m.state, env).Some? && !Unreadable(c, full, m.disk, m.state, env)
    requires env.listing != [] && env.listing[0] == Version(stale) && stale in m.disk.versions
    requires stale != Linked(c, full, m.disk, m.state, env).value && stale != m.state.digest
    ensures var after := After(c, m, Stopped(env, full, CallsToTear(c, full, m.disk, m.state, env)));
            && after.state.digest == Linked(c, full, m.disk, m.state, env).value
            && after.state.lastSequence == Numbered(m.state, Accepted(full, m.disk, m.state, env)).lastSequence
            && stale in after.disk.versions
            && after.disk.versions[stale] == m.disk.versions[stale] - RemovalOf(env.removals, Version(stale)).gone
  {
    hide Poll, Installing, Switching, ApplyAll, Apply, Counting, Readable, R.Target;
    hide RemovalOf, Sequenced, Accepted, Cut;
    var s, disk := m.state, m.disk;
    var ring := Sought(c, full, disk, s, env).value;
    hide Sought;
    var accepted := Accepted(full, disk, s, env);
    SoughtIsReplaced(c, full, disk, s, env);
    var s', a := Numbered(s, accepted), Counting(s, accepted.value.0);
    var es := Installing(c, disk, env, ring.bundle).0;
    var mid := ApplyAll(disk, es);
    var b := Switching(c, mid, s', env, ring, accepted.value.1).effects;
    SwitchingStarts(c, mid, s', env, ring, accepted.value.1, stale);
    var gone := RemovalOf(env.removals, Version(stale)).gone;
    var next := s'.(ring := ring.name, digest := ring.bundle);
    CutAtThree(a, es, b, [Link(ring.bundle), Save(next), Tear(stale, gone)]);
    CountingOnlySaves(s, accepted.value.0);
    InstallingWhole(c, disk, env, ring.bundle);
    TornAfter(disk, a, es, ring.bundle, next, stale, gone);
  }

  lemma CutAtThree(a: seq<Effect>, es: seq<Effect>, b: seq<Effect>, start: seq<Effect>)
    requires start <= b && |start| == 3
    ensures Cut(a + (es + b), |a| + |es| + 3) == a + (es + start)
  {
  }

  lemma TornAfter(disk: Disk, a: seq<Effect>, es: seq<Effect>, d: string, next: State, stale: string, gone: set<string>)
    requires forall i :: 0 <= i < |a| ==> a[i].Save?
    requires stale in ApplyAll(disk, es).versions
    ensures var after := ApplyAll(disk, a + (es + [Link(d), Save(next), Tear(stale, gone)]));
            && after.saved == next && stale in after.versions
            && after.versions[stale] == ApplyAll(disk, es).versions[stale] - gone
  {
    hide ApplyAll;
    var start := [Link(d), Save(next), Tear(stale, gone)];
    SavesOnly(disk, a);
    ApplyConcat(disk, a, es + start);
    ApplyConcat(ApplyAll(disk, a), es, start);
    SavedIsSeparate(disk, ApplyAll(disk, a).saved, es);
    ThreeMore(ApplyAll(ApplyAll(disk, a), es), d, next, Tear(stale, gone));
  }

  lemma CountingOnlySaves(s: State, man: R.Manifest)
    ensures forall i :: 0 <= i < |Counting(s, man)| ==> Counting(s, man)[i].Save?
  {
  }

  /** A version under its own name is taken for unpacked, whole or not: a poll that seeks it applies it
      as it is, whatever a request for the blob would answer. */
  lemma FoundIsApplied(c: Config, full: bool, disk: Disk, s: State, env: Env, d: string, blob: Option<T.Bytes>)
    requires Sought(c, full, disk, s, env).Some? && Sought(c, full, disk, s, env).value.bundle == d
    requires d in disk.versions && disk.versions[d] != map[] && !env.linkFails && !env.readFails
    ensures var o := Poll(c, full, disk, s, env);
            && o.ended == Applied(d) && d in ApplyAll(disk, o.effects).versions
            && ApplyAll(disk, o.effects).versions[d] == disk.versions[d]
            && Poll(c, full, disk, s, env.(blob := blob)) == o
  {
    hide Poll, ApplyAll, R.Target, R.Fresh;
    InstallingNothing(c, disk, env, d);
    assert ApplyAll(disk, []) == disk by { Nothing(disk); }
    CurrentIsExact(c, full, disk, s, env);
    AppliedVersions(c, full, disk, s, env, d);
    UnpackedNeedsNoBlob(c, full, disk, s, env, d, blob);
  }

  /** A version of which nothing is left but its directory is taken for unpacked too: every poll that seeks
      it is refused and leaves it empty, whatever a request for the blob would answer. */
  lemma EmptyIsRefused(c: Config, full: bool, disk: Disk, s: State, env: Env, d: string, blob: Option<T.Bytes>)
    requires Sought(c, full, disk, s, env).Some? && Sought(c, full, disk, s, env).value.bundle == d
    requires d in disk.versions && disk.versions[d] == map[]
    ensures var o := Poll(c, full, disk, s, env);
            && o.ended.Refused? && d in ApplyAll(disk, o.effects).versions
            && ApplyAll(disk, o.effects).versions[d] == map[]
            && Poll(c, full, disk, s, env.(blob := blob)) == o
  {
    hide Poll, ApplyAll, R.Target, R.Fresh;
    InstallingNothing(c, disk, env, d);
    assert ApplyAll(disk, []) == disk by { Nothing(disk); }
    SoughtEnds(c, full, disk, s, env);
    CurrentIsExact(c, full, disk, s, env);
    RefusedChangesLittle(c, full, disk, s, env);
    UnpackedNeedsNoBlob(c, full, disk, s, env, d, blob);
  }

  lemma SoughtEnds(c: Config, full: bool, disk: Disk, s: State, env: Env)
    requires Sought(c, full, disk, s, env).Some?
    ensures var o := Poll(c, full, disk, s, env); o.ended.Refused? || o.ended.Applied?
  {
    hide Poll, Installing, ApplyAll, R.Target, Readable, Finishing, Accepted, Sought;
    SoughtIsReplaced(c, full, disk, s, env);
  }

  /** Nothing repairs a version: what is there after an event of one that was there before has no file it
      did not have. */
  lemma NothingRepairs(c: Config, m: Machine, ev: Event, d: string)
    requires d in m.disk.versions && d in After(c, m, ev).disk.versions
    ensures After(c, m, ev).disk.versions[d].Keys <= m.disk.versions[d].Keys
  {
    hide Poll, ApplyAll, Damaged;
    if ev.Polled? || ev.Stopped? {
      var es := Poll(c, ev.full, m.disk, m.state, ev.env).effects;
      PromotesOnlyNew(c, ev.full, m.disk, m.state, ev.env, d);
      var k := if ev.Polled? then |es| else ev.calls;
      CutSubset(es, k);
      WholeIsCut(es);
      OneVersion(m.disk, Cut(es, k), d);
    }
  }

  /** Not over a run either, until it is removed. */
  lemma {:induction false} NeverRepaired(c: Config, ms: seq<Machine>, evs: seq<Event>, i: nat, j: nat, d: string)
    requires IsRun(c, ms, evs) && i <= j <= |evs| && forall k :: i <= k <= j ==> d in ms[k].disk.versions
    ensures ms[j].disk.versions[d].Keys <= ms[i].disk.versions[d].Keys
    decreases j
  {
    hide After;
    if i < j {
      NeverRepaired(c, ms, evs, i, j - 1, d);
      assert FollowsAt(c, ms, evs, j - 1);
      NothingRepairs(c, ms[j - 1], evs[j - 1], d);
    }
  }

  lemma Nothing(disk: Disk)
    ensures ApplyAll(disk, []) == disk
  {
  }
}
