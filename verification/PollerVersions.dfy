/** What the versions directory holds across polls, stops and deletions: every version is the
    extraction of a blob of that digest, and the recorded one is there. */
module PollerVersions {
  import opened Text
  import T = Tar
  import R = Rollout
  import opened BundleStore
  import opened Poller
  import opened PollerFacts
  import opened PollerRuns

  /** The one blob of each digest that the registry ever serves. */
  type Blobs = string -> T.Bytes

  predicate Agrees(c: Config, blobs: Blobs, env: Env)
  {
    env.blob.Some? ==> blobs(c.sha(env.blob.value)) == env.blob.value
  }

  /** The blob of this digest is a bundle, and one the node accepts. */
  predicate Known(c: Config, blobs: Blobs, d: string)
  {
    && c.sha(blobs(d)) == d && T.Extracted(blobs(d), c.maxBytes).Ok?
    && c.valid(T.Extracted(blobs(d), c.maxBytes).value)
  }

  function Content(c: Config, blobs: Blobs, d: string): Files
    requires Known(c, blobs, d)
  {
    Unpacked(T.Extracted(blobs(d), c.maxBytes).value)
  }

  /** Content addressing: every version is the whole extraction of the blob of its digest, which the node
      accepts, and could be written file by file. */
  ghost predicate Authentic(c: Config, blobs: Blobs, versions: map<string, Files>)
  {
    forall d :: d in versions ==> Known(c, blobs, d) && versions[d] == Content(c, blobs, d) && Treelike(versions[d])
  }

  /** Staging directories hold only paths of their bundle. */
  ghost predicate Partial(c: Config, blobs: Blobs, staging: map<string, Files>)
  {
    forall d :: d in staging ==> Known(c, blobs, d) && staging[d].Keys <= Content(c, blobs, d).Keys
  }

  /** A removal among the effects deleted files of a version and did not take its directory away. */
  predicate HalfRemoved(versions: map<string, Files>, es: seq<Effect>)
  {
    exists d :: d in versions && Damaged(versions[d], d, es) && RemoveVersion(d) !in es
  }

  // ---- Effects on versions ----

  /** The effects of a poll about `bundle`: only that one is put in place, and never removed. */
  predicate About(es: seq<Effect>, bundle: string)
  {
    forall e :: e in es ==>
      && (e.Promote? ==> e.digest == bundle)
      && (e.Tear? || e.RemoveVersion? ==> e.digest != bundle)
  }

  lemma NotDamaged(files: Files, es: seq<Effect>, bundle: string)
    requires About(es, bundle)
    ensures !Damaged(files, bundle, es) && RemoveVersion(bundle) !in es
  {
  }

  lemma AuthenticIff(c: Config, blobs: Blobs, disk: Disk, es: seq<Effect>, bundle: string)
    requires Authentic(c, blobs, disk.versions) && About(es, bundle)
    requires Promote(bundle) in es ==> bundle !in disk.versions
    requires var after := ApplyAll(disk, es).versions;
             bundle in after && bundle !in disk.versions ==>
               Known(c, blobs, bundle) && after[bundle] == Content(c, blobs, bundle) && Treelike(after[bundle])
    ensures Authentic(c, blobs, ApplyAll(disk, es).versions) <==> !HalfRemoved(disk.versions, es)
  {
    hide ApplyAll, Known, Content, Damaged, Treelike;
    var after := ApplyAll(disk, es).versions;
    forall d | d in disk.versions
      ensures d in after <==> RemoveVersion(d) !in es
      ensures d in after ==> (after[d] == disk.versions[d] <==> !Damaged(disk.versions[d], d, es))
    {
      OneVersion(disk, es, d);
    }
    forall d | d !in disk.versions && d != bundle ensures d !in after {
      StaysGone(disk, es, d);
    }
  }

  // ---- Effects on staging ----

  /** Nothing foreign is staged. */
  predicate Proper(c: Config, blobs: Blobs, e: Effect)
  {
    && (e.MakeStaging? || e.WriteStaged? ==> Known(c, blobs, e.digest))
    && (e.WriteStaged? ==> e.path in Content(c, blobs, e.digest))
  }

  lemma {:induction false} ProperKeepsPartial(c: Config, blobs: Blobs, disk: Disk, es: seq<Effect>)
    requires Partial(c, blobs, disk.staging) && forall e :: e in es ==> Proper(c, blobs, e)
    ensures Partial(c, blobs, ApplyAll(disk, es).staging)
    decreases |es|
  {
    hide Known, Content;
    if es != [] {
      assert es == [es[0]] + es[1..];
      assert es[0] in es && Proper(c, blobs, es[0]);
      assert Partial(c, blobs, Apply(disk, es[0]).staging);
      ProperKeepsPartial(c, blobs, Apply(disk, es[0]), es[1..]);
    }
  }

  lemma {:induction false} UnpackedHas(entries: seq<T.Entry>, i: nat)
    requires i < |entries|
    ensures entries[i].path in Unpacked(entries)
    decreases |entries|
  {
    if i < |entries| - 1 {
      UnpackedHas(entries[..|entries| - 1], i);
    }
  }

  lemma InstallingIsProper(c: Config, blobs: Blobs, disk: Disk, env: Env, bundle: string)
    requires Agrees(c, blobs, env)
    ensures forall e :: e in Installing(c, disk, env, bundle).0 ==> Proper(c, blobs, e)
  {
    hide T.Extracted, WritingVersion, Unpacked;
    if && !Has(disk, bundle) && env.blob.Some? && c.sha(env.blob.value) == bundle
       && T.Extracted(env.blob.value, c.maxBytes).Ok? && c.valid(T.Extracted(env.blob.value, c.maxBytes).value)
    {
      WritingIsProper(c, blobs, disk, env, bundle, T.Extracted(env.blob.value, c.maxBytes).value);
    }
  }

  lemma WritingIsProper(c: Config, blobs: Blobs, disk: Disk, env: Env, bundle: string, entries: seq<T.Entry>)
    requires Known(c, blobs, bundle) && T.Extracted(blobs(bundle), c.maxBytes).value == entries
    ensures forall e :: e in WritingVersion(disk, env, bundle, entries).0 ==> Proper(c, blobs, e)
  {
    hide T.Extracted, Building, Stop, Leftover, Unpacked, RemovalOf;
    var build, clear := Building(bundle, entries), Clearing(bundle, RemovalOf(env.removals, Staging(bundle)));
    BuildingShape(bundle, entries);
    forall e | e in build ensures Proper(c, blobs, e) {
      var i :| 0 <= i < |build| && build[i] == e;
      if 0 < i < |entries| + 1 {
        var j := i - 1;
        assert build[1 + j] == WriteStaged(bundle, entries[j].path, entries[j].content);
        UnpackedHas(entries, j);
      }
    }
    assert forall e :: e in clear ==> Proper(c, blobs, e);
    var es := WritingVersion(disk, env, bundle, entries).0;
    forall e | e in es ensures e in build || e in clear {
    }
  }

  lemma LeftoverIsCovered(c: Config, blobs: Blobs, disk: Disk, bundle: string, r: Removal)
    requires Partial(c, blobs, disk.staging) && Known(c, blobs, bundle)
    ensures Leftover(disk, bundle, r) + Content(c, blobs, bundle) == Content(c, blobs, bundle)
  {
    hide Known, Content;
    assert Leftover(disk, bundle, r).Keys <= Content(c, blobs, bundle).Keys;
  }

  lemma {:induction false} UnblockedIsTree(base: Files, entries: seq<T.Entry>, from: nat)
    requires from <= |entries| && FirstBlocked(base, entries, from) == |entries| + 2
    requires Treelike(Unpacked(entries[..from]))
    ensures Treelike(Unpacked(entries))
    decreases |entries| - from
  {
    if from == |entries| {
      assert entries[..from] == entries;
    } else {
      hide Treelike, Unpacked;
      var sofar, e := Unpacked(entries[..from]), entries[from];
      assert !Blocked(base + sofar, e.path);
      NotBlockedBelow(base, sofar, e.path);
      TreeGrows(sofar, e.path, e.content);
      assert entries[..from + 1] == entries[..from] + [e];
      UnpackedMore(entries[..from], e);
      UnblockedIsTree(base, entries, from + 1);
    }
  }

  lemma NotBlockedBelow(base: Files, files: Files, path: string)
    requires !Blocked(base + files, path)
    ensures !Blocked(files, path)
  {
    forall q | q in files ensures !(q + "/" <= path || path + "/" <= q) {
      assert q in base + files;
    }
  }

  lemma UnpackedMore(entries: seq<T.Entry>, e: T.Entry)
    ensures Unpacked(entries + [e]) == Unpacked(entries)[e.path := e.content]
  {
    assert (entries + [e])[..|entries|] == entries;
  }

  lemma {:induction false} FirstBlockedRange(base: Files, entries: seq<T.Entry>, from: nat)
    ensures FirstBlocked(base, entries, from) <= |entries| + 2
    decreases |entries| - from
  {
    if from < |entries| {
      FirstBlockedRange(base, entries, from + 1);
    }
  }

  /** What can be written to the end has no file below another. */
  lemma WrittenIsTree(disk: Disk, env: Env, bundle: string, entries: seq<T.Entry>)
    requires WritingVersion(disk, env, bundle, entries).1.None?
    ensures Treelike(Unpacked(entries))
  {
    hide Treelike, Clearing, Leftover, Building, FirstBlocked;
    var base := Leftover(disk, bundle, RemovalOf(env.removals, Staging(bundle)));
    BuildingShape(bundle, entries);
    FirstBlockedRange(base, entries, 0);
    assert Treelike(Unpacked(entries[..0])) by { NothingIsTree(); }
    UnblockedIsTree(base, entries, 0);
  }

  lemma NothingIsTree()
    ensures Treelike(Unpacked([]))
  {
  }

  /** Unpacking to the end puts the extraction in place, even over a staging directory that could not
      be cleared. */
  lemma InstalledIsAuthentic(c: Config, blobs: Blobs, disk: Disk, env: Env, bundle: string)
    requires Partial(c, blobs, disk.staging) && Agrees(c, blobs, env) && !Has(disk, bundle)
    requires Installing(c, disk, env, bundle).1.None?
    ensures var after := ApplyAll(disk, Installing(c, disk, env, bundle).0);
            && Known(c, blobs, bundle) && after.versions == disk.versions[bundle := Content(c, blobs, bundle)]
            && Treelike(Content(c, blobs, bundle))
  {
    hide T.Extracted, WritingVersion, ApplyAll, Leftover, Unpacked, Building, Clearing, Treelike;
    var entries := T.Extracted(env.blob.value, c.maxBytes).value;
    var r := RemovalOf(env.removals, Staging(bundle));
    WritingShape(disk, env, bundle, entries);
    WrittenIsTree(disk, env, bundle, entries);
    UnpackingAdds(disk, bundle, entries, r);
    LeftoverIsCovered(c, blobs, disk, bundle, r);
  }

  // ---- A poll cut short ----

  lemma CutMembers(es: seq<Effect>, k: nat)
    ensures forall e :: e in Cut(es, k) ==> e in es
  {
  }

  lemma SwitchingIsAbout(c: Config, disk: Disk, s: State, env: Env, ring: R.Ring, etag: Option<string>)
    ensures var es := Switching(c, disk, s, env, ring, etag).effects;
            && About(es, ring.bundle) && (forall e :: e in es ==> !e.Promote? && !e.MakeStaging? && !e.WriteStaged?)
  {
    var keep := Kept(c.keep, ring.bundle, s.digest);
    KeptBoth(c.keep, ring.bundle, s.digest);
    hide Kept, Pruning;
    PruningPlain(env.listing, keep, env.removals);
  }

  lemma {:induction false} PruningPlain(listing: seq<Listed>, keep: set<string>, removals: map<Listed, Removal>)
    ensures forall e :: e in Pruning(listing, keep, removals) ==>
              e.TearStaging? || e.ClearStaging? || ((e.Tear? || e.RemoveVersion?) && e.digest !in keep)
    decreases |listing|
  {
    if listing != [] {
      PruningPlain(listing[1..], keep, removals);
    }
  }

  /** What holds of every prefix of a poll's effects. */
  ghost predicate CutOk(c: Config, blobs: Blobs, disk: Disk, es: seq<Effect>)
  {
    && (Authentic(c, blobs, ApplyAll(disk, es).versions) <==> !HalfRemoved(disk.versions, es))
    && Partial(c, blobs, ApplyAll(disk, es).staging)
  }

  /** A stop after any call of the unpacking. */
  lemma InstallingCut(c: Config, blobs: Blobs, disk: Disk, env: Env, bundle: string, k: nat)
    requires Authentic(c, blobs, disk.versions) && Partial(c, blobs, disk.staging) && Agrees(c, blobs, env)
    ensures var es := Cut(Installing(c, disk, env, bundle).0, k);
            Authentic(c, blobs, ApplyAll(disk, es).versions) && Partial(c, blobs, ApplyAll(disk, es).staging)
    ensures var es := Cut(Installing(c, disk, env, bundle).0, k);
            About(es, bundle) && (Promote(bundle) in es ==> !Has(disk, bundle))
  {
    hide Authentic, Partial, ApplyAll, Proper;
    var (all, error) := Installing(c, disk, env, bundle);
    hide Installing;
    var es := Cut(all, k);
    InstallingShape(c, disk, env, bundle);
    InstallingIsProper(c, blobs, disk, env, bundle);
    CutMembers(all, k);
    CutSubset(all, k);
    ProperKeepsPartial(c, blobs, disk, es);
    InstallingNothing(c, disk, env, bundle);
    if k >= |all| && error.None? && !Has(disk, bundle) {
      InstalledIsAuthentic(c, blobs, disk, env, bundle);
      AuthenticAdd(c, blobs, disk.versions, bundle);
    } else {
      StagingLeavesRest(disk, es);
    }
  }

  lemma InstallingNothing(c: Config, disk: Disk, env: Env, bundle: string)
    ensures Has(disk, bundle) ==> Installing(c, disk, env, bundle) == ([], None)
  {
  }

  lemma AuthenticAdd(c: Config, blobs: Blobs, versions: map<string, Files>, bundle: string)
    requires Authentic(c, blobs, versions) && Known(c, blobs, bundle) && Treelike(Content(c, blobs, bundle))
    ensures Authentic(c, blobs, versions[bundle := Content(c, blobs, bundle)])
  {
    hide Known, Content, Treelike;
  }

  lemma ReplaceCut(c: Config, blobs: Blobs, disk: Disk, s: State, env: Env, ring: R.Ring, etag: Option<string>, k: nat)
    requires Authentic(c, blobs, disk.versions) && Partial(c, blobs, disk.staging) && Agrees(c, blobs, env)
    ensures CutOk(c, blobs, disk, Cut(Replace(c, disk, s, env, ring, etag).effects, k))
  {
    hide Installing, Switching, ApplyAll, Authentic, Partial, HalfRemoved, Agrees;
    var (a, error) := Installing(c, disk, env, ring.bundle);
    var mid := ApplyAll(disk, a);
    var b := Switching(c, mid, s, env, ring, etag).effects;
    CutConcat(a, b, k);
    InstallingCut(c, blobs, disk, env, ring.bundle, k);
    if k < |a| || error.Some? {
      PrefixOk(c, blobs, disk, Cut(a, k), ring.bundle);
    } else {
      assert Cut(a, |a|) == a;
      InstallingCut(c, blobs, disk, env, ring.bundle, |a|);
      SwitchingIsAbout(c, mid, s, env, ring, etag);
      SwitchCut(c, blobs, disk, a, Cut(b, k - |a|), b, ring.bundle, k - |a|);
    }
  }

  /** Before the switch nothing is removed. */
  lemma PrefixOk(c: Config, blobs: Blobs, disk: Disk, es: seq<Effect>, bundle: string)
    requires Authentic(c, blobs, disk.versions) && Authentic(c, blobs, ApplyAll(disk, es).versions)
    requires Partial(c, blobs, ApplyAll(disk, es).staging) && About(es, bundle)
    requires (Promote(bundle) in es ==> !Has(disk, bundle))
    ensures CutOk(c, blobs, disk, es)
  {
    AuthenticIff(c, blobs, disk, es, bundle);
  }

  lemma SwitchCut(c: Config, blobs: Blobs, disk: Disk, a: seq<Effect>, cut: seq<Effect>, b: seq<Effect>,
                  bundle: string, k: nat)
    requires Authentic(c, blobs, disk.versions) && Authentic(c, blobs, ApplyAll(disk, a).versions)
    requires Partial(c, blobs, ApplyAll(disk, a).staging)
    requires About(a, bundle) && (Promote(bundle) in a ==> !Has(disk, bundle)) && cut == Cut(b, k)
    requires About(b, bundle) && forall e :: e in b ==> !e.Promote? && !e.MakeStaging? && !e.WriteStaged?
    ensures CutOk(c, blobs, disk, a + cut)
  {
    hide ApplyAll, HalfRemoved, Known, Content;
    var mid := ApplyAll(disk, a);
    CutMembers(b, k);
    ApplyConcat(disk, a, cut);
    ProperKeepsPartial(c, blobs, mid, cut);
    if bundle in mid.versions {
      OneVersion(mid, cut, bundle);
      NotDamaged(mid.versions[bundle], cut, bundle);
    } else {
      StaysGone(mid, cut, bundle);
    }
    AuthenticIff(c, blobs, disk, a + cut, bundle);
  }

  lemma QuietCut(c: Config, blobs: Blobs, disk: Disk, es: seq<Effect>, k: nat)
    requires Authentic(c, blobs, disk.versions) && Partial(c, blobs, disk.staging)
    requires forall i :: 0 <= i < |es| ==> es[i].Save?
    ensures CutOk(c, blobs, disk, Cut(es, k))
  {
    hide Authentic, Partial, ApplyAll;
    CutSubset(es, k);
    SavesOnly(disk, Cut(es, k));
    PrefixOk(c, blobs, disk, Cut(es, k), "");
  }

  lemma ActingCut(c: Config, blobs: Blobs, disk: Disk, s: State, env: Env, man: R.Manifest, etag: Option<string>,
                  k: nat)
    requires Authentic(c, blobs, disk.versions) && Partial(c, blobs, disk.staging) && Agrees(c, blobs, env)
    ensures CutOk(c, blobs, disk, Cut(Acting(c, disk, s, env, man, etag).effects, k))
  {
    hide Replace, R.TargetIndex, CutOk, Authentic, Partial, Agrees;
    var target := R.Target(man.rings, c.node);
    if target.Some? {
      ReplaceCut(c, blobs, disk, s, env, target.value, etag, k);
    }
    if man.freeze || target.None? || (s.digest == target.value.bundle && Has(disk, target.value.bundle)) {
      QuietCut(c, blobs, disk, Acting(c, disk, s, env, man, etag).effects, k);
    }
  }

  /** Saves before the rest change nothing about it. */
  lemma SavesFirst(c: Config, blobs: Blobs, disk: Disk, a: seq<Effect>, es: seq<Effect>)
    requires CutOk(c, blobs, disk, es) && forall i :: 0 <= i < |a| ==> a[i].Save?
    ensures CutOk(c, blobs, disk, a + es)
  {
    hide Authentic, Partial, ApplyAll;
    SavesOnly(disk, a);
    ApplyConcat(disk, a, es);
    SavedIsSeparate(disk, ApplyAll(disk, a).saved, es);
    HalfRemovedAfterSaves(disk.versions, a, es);
  }

  lemma HalfRemovedAfterSaves(versions: map<string, Files>, a: seq<Effect>, es: seq<Effect>)
    requires forall i :: 0 <= i < |a| ==> a[i].Save?
    ensures HalfRemoved(versions, a + es) == HalfRemoved(versions, es)
  {
    forall d | d in versions ensures Damaged(versions[d], d, a + es) == Damaged(versions[d], d, es) {
      DamagedAfterSaves(versions[d], d, a, es);
    }
  }

  lemma DamagedAfterSaves(files: Files, d: string, a: seq<Effect>, es: seq<Effect>)
    requires forall i :: 0 <= i < |a| ==> a[i].Save?
    ensures Damaged(files, d, a + es) == Damaged(files, d, es)
  {
    if Damaged(files, d, es) {
      var i :| 0 <= i < |es| && es[i].Tear? && es[i].digest == d && es[i].gone * files.Keys != {};
      assert (a + es)[|a| + i] == es[i];
    }
  }

  lemma ProcessCut(c: Config, blobs: Blobs, disk: Disk, s: State, env: Env, man: R.Manifest, etag: Option<string>,
                   k: nat)
    requires Authentic(c, blobs, disk.versions) && Partial(c, blobs, disk.staging) && Agrees(c, blobs, env)
    ensures CutOk(c, blobs, disk, Cut(Process(c, disk, s, env, man, etag).effects, k))
  {
    hide Acting, CutOk, Authentic, Partial, Agrees, Sequenced;
    var a, b := Counting(s, man), Acting(c, disk, Sequenced(s, man), env, man, etag).effects;
    CutConcat(a, b, k);
    if k < |a| {
      QuietCut(c, blobs, disk, a, k);
    } else {
      ActingCut(c, blobs, disk, Sequenced(s, man), env, man, etag, k - |a|);
      SavesFirst(c, blobs, disk, a, Cut(b, k - |a|));
    }
  }

  lemma PollCutVersions(c: Config, blobs: Blobs, full: bool, disk: Disk, s: State, env: Env, k: nat)
    requires Authentic(c, blobs, disk.versions) && Partial(c, blobs, disk.staging) && Agrees(c, blobs, env)
    ensures CutOk(c, blobs, disk, Cut(Poll(c, full, disk, s, env).effects, k))
  {
    hide Process, CutOk, Authentic, Partial, Agrees;
    var es := Poll(c, full, disk, s, env).effects;
    match Answer(env.served, if full then None else CurrentEtag(disk, s))
    case Failed(_) => QuietCut(c, blobs, disk, es, k);
    case Unchanged => QuietCut(c, blobs, disk, es, k);
    case Changed(content, etag) =>
      match Verified(s, env, content)
      case Err(_) => QuietCut(c, blobs, disk, es, k);
      case Ok(man) => ProcessCut(c, blobs, disk, s, env, man, etag, k);
  }

  // ---- Events ----

  /** The calls an event makes. */
  function Calls(c: Config, m: Machine, ev: Event): seq<Effect>
  {
    match ev
    case Polled(env, full) => Poll(c, full, m.disk, m.state, env).effects
    case Stopped(env, full, calls) => Cut(Poll(c, full, m.disk, m.state, env).effects, calls)
    case Restarted => []
    case Deleted(_) => []
  }

  /** Content addressing, exactly: through polls, restarts, deletions and stops, in the middle of
      unpacking included, every version stays the extraction of the blob of its digest if and only if
      no removal got stuck half way. */
  lemma AuthenticIffNotHalfRemoved(c: Config, blobs: Blobs, m: Machine, ev: Event)
    requires Authentic(c, blobs, m.disk.versions) && Partial(c, blobs, m.disk.staging)
    requires ev.Polled? || ev.Stopped? ==> Agrees(c, blobs, ev.env)
    ensures Authentic(c, blobs, After(c, m, ev).disk.versions) <==> !HalfRemoved(m.disk.versions, Calls(c, m, ev))
    ensures Partial(c, blobs, After(c, m, ev).disk.staging)
  {
    match ev
    case Polled(env, full) =>
      hide Poll, Authentic, Partial, HalfRemoved;
      var es := Poll(c, full, m.disk, m.state, env).effects;
      WholeIsCut(es);
      PollCutVersions(c, blobs, full, m.disk, m.state, env, |es|);
    case Stopped(env, full, calls) =>
      hide Poll, Authentic, Partial, HalfRemoved;
      PollCutVersions(c, blobs, full, m.disk, m.state, env, calls);
    case Restarted => hide Known, Content;
    case Deleted(_) => hide Known, Content;
  }

  lemma {:induction false} SavesOnly(disk: Disk, es: seq<Effect>)
    requires forall i :: 0 <= i < |es| ==> es[i].Save?
    ensures ApplyAll(disk, es) == disk.(saved := ApplyAll(disk, es).saved)
    decreases |es|
  {
    if es != [] {
      SavesOnly(Apply(disk, es[0]), es[1..]);
    }
  }

  lemma {:induction false} SavedIsSeparate(disk: Disk, t: State, es: seq<Effect>)
    ensures ApplyAll(disk.(saved := t), es).versions == ApplyAll(disk, es).versions
    ensures ApplyAll(disk.(saved := t), es).staging == ApplyAll(disk, es).staging
    ensures ApplyAll(disk.(saved := t), es).current == ApplyAll(disk, es).current
    decreases |es|
  {
    if es != [] {
      var next := Apply(disk, es[0]);
      if es[0].Save? {
        assert Apply(disk.(saved := t), es[0]) == next;
      } else {
        assert Apply(disk.(saved := t), es[0]) == next.(saved := t);
        SavedIsSeparate(next, t, es[1..]);
      }
    }
  }

  // ---- The recorded bundle ----

  /** The recorded digest, if there is one, is unpacked. */
  predicate Recorded(s: State, versions: map<string, Files>)
  {
    s.digest == "" || s.digest in versions
  }

  predicate Spares(es: seq<Effect>, d: string)
  {
    forall i :: 0 <= i < |es| && es[i].RemoveVersion? ==> es[i].digest != d
  }

  lemma {:induction false} SparedStays(disk: Disk, es: seq<Effect>, d: string)
    requires Spares(es, d) && d in disk.versions
    ensures d in ApplyAll(disk, es).versions
    decreases |es|
  {
    if es != [] {
      SparedStays(Apply(disk, es[0]), es[1..], d);
    }
  }

  /** Every save in `es` records digest `d`. */
  predicate SavesDigest(es: seq<Effect>, d: string)
  {
    forall i :: 0 <= i < |es| && es[i].Save? ==> es[i].state.digest == d
  }

  lemma {:induction false} DigestAfter(s: State, es: seq<Effect>, d: string)
    requires SavesDigest(es, d)
    ensures LastSave(s, es).digest == s.digest || LastSave(s, es).digest == d
    decreases |es|
  {
    if es != [] {
      DigestAfter(if es[0].Save? then es[0].state else s, es[1..], d);
    }
  }

  /** Prefixes of effects that spare both digests and record only `d`. */
  lemma SparingCut(disk: Disk, s: State, es: seq<Effect>, d: string, k: nat)
    requires Recorded(s, disk.versions) && Recorded(s.(digest := d), disk.versions)
    requires Spares(es, s.digest) && Spares(es, d) && SavesDigest(es, d)
    ensures Recorded(LastSave(s, Cut(es, k)), ApplyAll(disk, Cut(es, k)).versions)
  {
    hide ApplyAll, LastSave;
    var cut := Cut(es, k);
    CutSubset(es, k);
    DigestAfter(s, cut, d);
    if s.digest in disk.versions {
      SparedStays(disk, cut, s.digest);
    }
    if d in disk.versions {
      SparedStays(disk, cut, d);
    }
  }

  lemma KeptBoth(keep: nat, bundle: string, previous: string)
    ensures Kept(keep, bundle, previous) == {bundle} + (if previous == "" then {} else {previous})
  {
    var named := [bundle] + (if previous == "" then [] else [previous]);
    assert named[0] == bundle && bundle in Kept(keep, bundle, previous);
    assert previous != "" ==> named[1] == previous && previous in Kept(keep, bundle, previous);
  }

  lemma SwitchingSpares(c: Config, disk: Disk, s: State, env: Env, ring: R.Ring, etag: Option<string>)
    ensures var es := Switching(c, disk, s, env, ring, etag).effects;
            Spares(es, ring.bundle) && SavesDigest(es, ring.bundle) && (s.digest == "" || Spares(es, s.digest))
  {
    var keep := Kept(c.keep, ring.bundle, s.digest);
    KeptBoth(c.keep, ring.bundle, s.digest);
    hide Kept, Pruning;
    PruningShape(env.listing, keep, env.removals);
  }

  lemma SwitchingCut(c: Config, disk: Disk, s: State, env: Env, ring: R.Ring, etag: Option<string>, k: nat)
    requires Recorded(s, disk.versions)
    ensures var es := Cut(Switching(c, disk, s, env, ring, etag).effects, k);
            Recorded(LastSave(s, es), ApplyAll(disk, es).versions)
  {
    var es := Switching(c, disk, s, env, ring, etag).effects;
    SwitchingSpares(c, disk, s, env, ring, etag);
    if ring.bundle !in disk.versions {
      CutSubset(es, k);
      NoSavesNoChange(s, Cut(es, k));
      if s.digest in disk.versions {
        SparedStays(disk, Cut(es, k), s.digest);
      }
    } else {
      hide Switching;
      if s.digest == "" {
        CutSubset(es, k);
        DigestAfter(s, Cut(es, k), ring.bundle);
        SparedStays(disk, Cut(es, k), ring.bundle);
      } else {
        SparingCut(disk, s, es, ring.bundle, k);
      }
    }
  }

  lemma ReplaceCutRecorded(c: Config, disk: Disk, s: State, env: Env, ring: R.Ring, etag: Option<string>, k: nat)
    requires Recorded(s, disk.versions)
    ensures var es := Cut(Replace(c, disk, s, env, ring, etag).effects, k);
            Recorded(LastSave(s, es), ApplyAll(disk, es).versions)
  {
    hide Installing, Switching, ApplyAll, LastSave;
    var (es, error) := Installing(c, disk, env, ring.bundle);
    InstallingShape(c, disk, env, ring.bundle);
    var mid := ApplyAll(disk, es);
    var rest := Switching(c, mid, s, env, ring, etag).effects;
    CutConcat(es, rest, k);
    CutSubset(es, k);
    InstallCutRecorded(disk, s, Cut(es, k));
    InstallCutRecorded(disk, s, es);
    if k >= |es| && error.None? {
      SwitchingCut(c, mid, s, env, ring, etag, k - |es|);
      ApplyConcat(disk, es, Cut(rest, k - |es|));
      LastSaveConcat(s, es, Cut(rest, k - |es|));
    }
  }

  lemma InstallCutRecorded(disk: Disk, s: State, es: seq<Effect>)
    requires Recorded(s, disk.versions) && forall i :: 0 <= i < |es| ==> StagingOnly(es[i]) || es[i].Promote?
    ensures Recorded(s, ApplyAll(disk, es).versions) && LastSave(s, es) == s
  {
    NoSavesNoChange(s, es);
    if s.digest in disk.versions {
      SparedStays(disk, es, s.digest);
    }
  }

  lemma ActingCutRecorded(c: Config, disk: Disk, s: State, env: Env, man: R.Manifest, etag: Option<string>, k: nat)
    requires Recorded(s, disk.versions)
    ensures var es := Cut(Acting(c, disk, s, env, man, etag).effects, k);
            Recorded(LastSave(s, es), ApplyAll(disk, es).versions)
  {
    hide Replace, R.TargetIndex, ApplyAll, LastSave;
    var es := Acting(c, disk, s, env, man, etag).effects;
    var target := R.Target(man.rings, c.node);
    if target.Some? {
      ReplaceCutRecorded(c, disk, s, env, target.value, etag, k);
    }
    if man.freeze || target.None? || (s.digest == target.value.bundle && Has(disk, target.value.bundle)) {
      SparingCut(disk, s, es, s.digest, k);
    }
  }

  lemma ProcessCutRecorded(c: Config, disk: Disk, s: State, env: Env, man: R.Manifest, etag: Option<string>, k: nat)
    requires Recorded(s, disk.versions)
    ensures var es := Cut(Process(c, disk, s, env, man, etag).effects, k);
            Recorded(LastSave(s, es), ApplyAll(disk, es).versions)
  {
    hide Acting, ApplyAll, LastSave;
    var a, s' := Counting(s, man), Sequenced(s, man);
    var b := Acting(c, disk, s', env, man, etag).effects;
    CutConcat(a, b, k);
    if k < |a| {
      SparingCut(disk, s, a, s.digest, k);
    } else {
      var rest := Cut(b, k - |a|);
      ActingCutRecorded(c, disk, s', env, man, etag, k - |a|);
      CountingSaves(s, man);
      LastSaveConcat(s, a, rest);
      ApplyConcat(disk, a, rest);
      SavesOnly(disk, a);
      SavedIsSeparate(disk, ApplyAll(disk, a).saved, rest);
    }
  }

  lemma PollCutRecorded(c: Config, full: bool, disk: Disk, s: State, env: Env, k: nat)
    requires Recorded(s, disk.versions)
    ensures var es := Cut(Poll(c, full, disk, s, env).effects, k);
            Recorded(LastSave(s, es), ApplyAll(disk, es).versions)
  {
    hide Process, ApplyAll, LastSave;
    var es := Poll(c, full, disk, s, env).effects;
    match Answer(env.served, if full then None else CurrentEtag(disk, s))
    case Failed(_) => SparingCut(disk, s, es, s.digest, k);
    case Unchanged => SparingCut(disk, s, es, s.digest, k);
    case Changed(content, etag) =>
      match Verified(s, env, content)
      case Err(_) => SparingCut(disk, s, es, s.digest, k);
      case Ok(man) => ProcessCutRecorded(c, disk, s, env, man, etag, k);
  }

  /** The recorded bundle stays unpacked through every event but a deletion, stops included. */
  lemma EventKeepsRecorded(c: Config, m: Machine, ev: Event)
    requires Synced(m) && Recorded(m.state, m.disk.versions) && !ev.Deleted?
    ensures Recorded(After(c, m, ev).state, After(c, m, ev).disk.versions)
  {
    hide Poll, ApplyAll, LastSave;
    match ev
    case Polled(env, full) =>
      var es := Poll(c, full, m.disk, m.state, env).effects;
      PollCutRecorded(c, full, m.disk, m.state, env, |es|);
      WholeIsCut(es);
      SavedAfter(m.disk, es);
      PollSaves(c, full, m.disk, m.state, env);
    case Stopped(env, full, calls) =>
      PollCutRecorded(c, full, m.disk, m.state, env, calls);
      SavedAfter(m.disk, Cut(Poll(c, full, m.disk, m.state, env).effects, calls));
    case Restarted =>
  }
}
