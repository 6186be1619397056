/** What a poll does to the saved state, to the `current` link and to the versions, for every prefix
    of its effects as well as for all of them. */
module PollerFacts {
  import opened Text
  import T = Tar
  import R = Rollout
  import opened BundleStore
  import opened Poller

  // ---- The saved state ----

  /** The state on disk after some effects: the last one saved. */
  function LastSave(s: State, es: seq<Effect>): State
    decreases |es|
  {
    if es == [] then s else LastSave(if es[0].Save? then es[0].state else s, es[1..])
  }

  lemma {:induction false} SavedAfter(disk: Disk, es: seq<Effect>)
    ensures ApplyAll(disk, es).saved == LastSave(disk.saved, es)
    decreases |es|
  {
    if es != [] {
      SavedAfter(Apply(disk, es[0]), es[1..]);
    }
  }

  lemma {:induction false} LastSaveConcat(s: State, a: seq<Effect>, b: seq<Effect>)
    ensures LastSave(s, a + b) == LastSave(LastSave(s, a), b)
    decreases |a|
  {
    if a == [] {
      assert a + b == b;
    } else {
      assert (a + b)[1..] == a[1..] + b;
      LastSaveConcat(if a[0].Save? then a[0].state else s, a[1..], b);
    }
  }

  predicate NoSaves(es: seq<Effect>)
  {
    forall i :: 0 <= i < |es| ==> !es[i].Save?
  }

  lemma {:induction false} NoSavesNoChange(s: State, es: seq<Effect>)
    requires NoSaves(es)
    ensures LastSave(s, es) == s
    decreases |es|
  {
    if es != [] {
      NoSavesNoChange(s, es[1..]);
    }
  }

  lemma {:induction false} PruningShape(listing: seq<Listed>, keep: set<string>, removals: map<Listed, Removal>)
    ensures forall i :: 0 <= i < |Pruning(listing, keep, removals)| ==>
              var e := Pruning(listing, keep, removals)[i];
              StagingOnly(e) || ((e.Tear? || e.RemoveVersion?) && e.digest !in keep)
    decreases |listing|
  {
    if listing != [] {
      PruningShape(listing[1..], keep, removals);
    }
  }

  /** The effects of the unpacking touch only staging, but for a last one that puts the version in
      place when nothing failed. */
  lemma InstallingShape(c: Config, disk: Disk, env: Env, bundle: string)
    ensures var (es, error) := Installing(c, disk, env, bundle);
            && (forall i :: 0 <= i < |es| ==>
                  StagingOnly(es[i]) || (es[i] == Promote(bundle) && i == |es| - 1 && error.None?))
  {
    hide T.Extracted, WritingVersion;
    if !Has(disk, bundle) && env.blob.Some? && T.Extracted(env.blob.value, c.maxBytes).Ok? {
      WritingShape(disk, env, bundle, T.Extracted(env.blob.value, c.maxBytes).value);
    }
  }

  lemma WritingShape(disk: Disk, env: Env, bundle: string, entries: seq<T.Entry>)
    ensures var (es, error) := WritingVersion(disk, env, bundle, entries);
            && (forall i :: 0 <= i < |es| ==>
                  StagingOnly(es[i]) || (es[i] == Promote(bundle) && i == |es| - 1 && error.None?))
            && (error.None? ==>
                  es == Clearing(bundle, RemovalOf(env.removals, Staging(bundle))) + Building(bundle, entries))
  {
    hide Stop, Building, Leftover, RemovalOf, Clearing;
    var build, clear := Building(bundle, entries), Clearing(bundle, RemovalOf(env.removals, Staging(bundle)));
    BuildingShape(bundle, entries);
    assert forall i :: 0 <= i < |clear| ==> StagingOnly(clear[i]) by {
      ClearingIsStaging(bundle, RemovalOf(env.removals, Staging(bundle)));
    }
  }

  lemma ClearingIsStaging(digest: string, r: Removal)
    ensures forall i :: 0 <= i < |Clearing(digest, r)| ==> StagingOnly(Clearing(digest, r)[i])
  {
  }

  /** What is unpacked depends on the disk only through versions and staging. */
  lemma InstallingDepends(c: Config, a: Disk, b: Disk, env: Env, bundle: string)
    requires a.versions == b.versions && a.staging == b.staging
    ensures Installing(c, a, env, bundle) == Installing(c, b, env, bundle)
  {
    hide T.Extracted, Stop, Building, Clearing;
    var r := RemovalOf(env.removals, Staging(bundle));
    assert Leftover(a, bundle, r) == Leftover(b, bundle, r);
  }

  lemma OneSave(s: State, t: State)
    ensures LastSave(s, [Save(t)]) == t && LastSave(s, []) == s
  {
  }

  lemma SwitchingSaves(c: Config, disk: Disk, s: State, env: Env, ring: R.Ring, etag: Option<string>)
    ensures var o := Switching(c, disk, s, env, ring, etag); LastSave(s, o.effects) == o.state
  {
    var keep := Kept(c.keep, ring.bundle, s.digest);
    hide Pruning, Kept;
    var next := s.(ring := ring.name, digest := ring.bundle);
    var prune := Pruning(env.listing, keep, env.removals);
    assert LastSave(s, [Link(ring.bundle)]) == s by { assert [Link(ring.bundle)][1..] == []; }
    PruningShape(env.listing, keep, env.removals);
    NoSavesNoChange(next, prune);
    OneSave(s, next);
    OneSave(next, Remember(next, etag));
    LastSaveConcat(s, [Save(next)], prune);
    LastSaveConcat(s, [Save(next)] + prune, SaveEtag(next, etag));
    LastSaveConcat(s, [Link(ring.bundle)], Finishing(c, s, env, ring, etag));
  }

  lemma ReplaceSaves(c: Config, disk: Disk, s: State, env: Env, ring: R.Ring, etag: Option<string>)
    ensures var o := Replace(c, disk, s, env, ring, etag); LastSave(s, o.effects) == o.state
  {
    hide Installing, Switching;
    var es := Installing(c, disk, env, ring.bundle).0;
    InstallingShape(c, disk, env, ring.bundle);
    NoSavesNoChange(s, es);
    SwitchingSaves(c, ApplyAll(disk, es), s, env, ring, etag);
    LastSaveConcat(s, es, Switching(c, ApplyAll(disk, es), s, env, ring, etag).effects);
  }

  lemma ActingSaves(c: Config, disk: Disk, s: State, env: Env, m: R.Manifest, etag: Option<string>)
    ensures var o := Acting(c, disk, s, env, m, etag); LastSave(s, o.effects) == o.state
  {
    hide Replace, R.TargetIndex;
    OneSave(s, Remember(s, etag));
    var target := R.Target(m.rings, c.node);
    if target.Some? {
      ReplaceSaves(c, disk, s, env, target.value, etag);
      var renamed := Remember(s, etag).(ring := target.value.name);
      OneSave(Remember(s, etag), renamed);
      LastSaveConcat(s, SaveEtag(s, etag), [Save(renamed)]);
    }
  }

  lemma CountingSaves(s: State, m: R.Manifest)
    ensures LastSave(s, Counting(s, m)) == Sequenced(s, m)
  {
    OneSave(s, s);
    OneSave(s, Sequenced(s, m));
    LastSaveConcat(s, [Save(s)], SaveSequence(s, m));
  }

  /** After a whole poll the state on disk is the state in memory. */
  lemma PollSaves(c: Config, full: bool, disk: Disk, s: State, env: Env)
    requires disk.saved == s
    ensures var o := Poll(c, full, disk, s, env); ApplyAll(disk, o.effects).saved == o.state
  {
    hide Acting, Counting, Sequenced;
    var o := Poll(c, full, disk, s, env);
    SavedAfter(disk, o.effects);
    OneSave(s, s);
    match Answer(env.served, if full then None else CurrentEtag(disk, s))
    case Failed(_) =>
    case Unchanged =>
    case Changed(content, etag) =>
      match Verified(s, env, content)
      case Err(_) =>
      case Ok(m) =>
        CountingSaves(s, m);
        ActingSaves(c, disk, Sequenced(s, m), env, m, etag);
        LastSaveConcat(s, Counting(s, m), Acting(c, disk, Sequenced(s, m), env, m, etag).effects);
  }
}
