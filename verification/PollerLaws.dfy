/** What a whole poll comes to, told from what it met: the manifest served, the bundle it names and what went
    wrong. */
module PollerLaws {
  import opened Text
  import T = Tar
  import R = Rollout
  import opened BundleStore
  import opened Poller
  import opened PollerRuns
  import opened PollerVersions
  import opened PollerEnds

  // ---- Which manifests are acted on ----

  /** A manifest recent enough for a node that has taken one of sequence `last` at the most. */
  predicate RecentEnough(m: R.Manifest, last: nat, now: int)
  {
    && (m.validUntil.Some? ==> now <= m.validUntil.value)
    && match m.sequence
       case Some(q) => last <= q
       case None => last == 0
  }

  /** The registry confirms that what the node last acted on is still what it serves: asked with the ETag of
      a bundle that is unpacked here. */
  predicate Confirmed(full: bool, disk: Disk, s: State, served: Served)
  {
    && served.Serving? && served.confirms && !full && s.etag != "" && served.etag == Some(s.etag)
    && s.digest != "" && s.digest in disk.versions
  }

  /** A whole poll counts exactly the manifests that are served anew, signed and readable, and recent enough. */
  lemma CountedIff(c: Config, m: Machine, env: Env, full: bool, man: R.Manifest)
    ensures Counted(c, m, Polled(env, full)) == Some(man) <==>
              && env.served.Serving? && !Confirmed(full, m.disk, m.state, env.served)
              && env.layer && env.served.content == Ok(man) && RecentEnough(man, m.state.lastSequence, env.now)
  {
  }

  /** A poll that counts none ends by what it met, and changes nothing but what it saves again. */
  lemma UncountedEnds(c: Config, m: Machine, env: Env, full: bool)
    requires Counted(c, m, Polled(env, full)).None?
    ensures var o := Poll(c, full, m.disk, m.state, env);
            && o.state == m.state && ApplyAll(m.disk, o.effects) == m.disk.(saved := ApplyAll(m.disk, o.effects).saved)
            && (env.served.Down? ==> o.ended == Refused(Fetch))
            && (env.served.Serving? && Confirmed(full, m.disk, m.state, env.served) ==> o.ended == NoChange)
            && (env.served.Serving? && !Confirmed(full, m.disk, m.state, env.served) ==>
                  o.ended == Refused(if !env.layer then Fetch
                                     else if env.served.content.Err? then env.served.content.error else Stale))
  {
  }

  // ---- What the node holds afterwards ----

  /** The ETag remembered once a manifest has been dealt with. */
  function Tagged(s: State, served: Served): string
    requires served.Serving?
  {
    if served.etag.Some? then served.etag.value else s.etag
  }

  /** The state after any whole poll: ring and digest are the target's once its bundle is in place, the ETag is
      the manifest's once nothing is left to do about it, and the sequence is the highest counted. */
  lemma StateIsExact(c: Config, m: Machine, env: Env, full: bool)
    ensures var o, man := Poll(c, full, m.disk, m.state, env), Counted(c, m, Polled(env, full));
            var target := if man.None? || man.value.freeze then None else R.Target(man.value.rings, c.node);
            && o.state.lastSequence == Marked(m.state.lastSequence, man)
            && o.state.ring == (if o.ended.Refused? || target.None? then m.state.ring else target.value.name)
            && o.state.digest == (if o.ended.Refused? || target.None? then m.state.digest else target.value.bundle)
            && o.state.etag == (if o.ended.Refused? || man.None? then m.state.etag else Tagged(m.state, env.served))
            && (o.ended.Applied? ==> target.Some? && o.ended == Applied(target.value.bundle))
  {
    hide Acting, R.Target, R.Fresh;
    if Counted(c, m, Polled(env, full)).Some? {
      var man, etag := Counted(c, m, Polled(env, full)).value, env.served.etag;
      ActingState(c, m.disk, Sequenced(m.state, man), env, man, etag);
    }
  }

  lemma ActingState(c: Config, disk: Disk, s: State, env: Env, man: R.Manifest, etag: Option<string>)
    ensures var o, target := Acting(c, disk, s, env, man, etag),
                             if man.freeze then None else R.Target(man.rings, c.node);
            && o.state.lastSequence == s.lastSequence && (o.ended.Refused? ==> o.state == s)
            && (!o.ended.Refused? ==> o.state.etag == if etag.Some? then etag.value else s.etag)
            && (!o.ended.Refused? && target.None? ==> o.state.ring == s.ring && o.state.digest == s.digest)
            && (!o.ended.Refused? && target.Some? ==>
                  o.state.ring == target.value.name && o.state.digest == target.value.bundle)
            && (o.ended.Applied? ==> target.Some? && o.ended == Applied(target.value.bundle))
  {
    hide R.TargetIndex, Installing, ApplyAll, Readable, Finishing;
  }

  /** A poll leaves the bundle alone exactly if it counts no manifest, is frozen, has no ring here, or the
      ring's bundle is recorded and unpacked. */
  lemma NoChangeIff(c: Config, m: Machine, env: Env, full: bool)
    ensures var o, man := Poll(c, full, m.disk, m.state, env), Counted(c, m, Polled(env, full));
            man.Some? ==>
              (o.ended == NoChange <==>
                 || man.value.freeze || R.Target(man.value.rings, c.node).None?
                 || var d := R.Target(man.value.rings, c.node).value.bundle;
                    m.state.digest == d && d in m.disk.versions)
  {
    hide R.TargetIndex, R.Fresh, Installing, ApplyAll, Readable, Finishing;
  }

  // ---- How a bundle that is not there is taken ----

  /** Why a bundle served for a digest is refused before a file of it is written, if it is. */
  function WhyNot(c: Config, env: Env, d: string): Option<Error>
  {
    if env.blob.None? then Some(Fetch)
    else if c.sha(env.blob.value) != d then Some(Signature)
    else match T.Extracted(env.blob.value, c.maxBytes)
      case Err(e) => Some(if e == T.Malformed then Malformed else Rejected)
      case Ok(entries) => if c.valid(entries) then None else Some(Rejected)
  }

  /** A bundle that cannot be had, is not the one named, cannot be extracted or is not valid is refused, and
      no version, no staging directory and not `current` is touched. */
  lemma BadBundleIsRefused(c: Config, full: bool, disk: Disk, s: State, env: Env, d: string)
    requires Sought(c, full, disk, s, env).Some? && Sought(c, full, disk, s, env).value.bundle == d
    requires d !in disk.versions && WhyNot(c, env, d).Some?
    ensures var o := Poll(c, full, disk, s, env);
            && o.ended == Refused(WhyNot(c, env, d).value)
            && ApplyAll(disk, o.effects) == disk.(saved := ApplyAll(disk, o.effects).saved)
  {
    hide T.Extracted, R.Target, R.Fresh, ApplyAll, WritingVersion;
    SoughtIsReplaced(c, full, disk, s, env);
    var accepted := Accepted(full, disk, s, env);
    CountingOnlySaves(s, accepted.value.0);
    SavesOnly(disk, Counting(s, accepted.value.0));
    assert Counting(s, accepted.value.0) + [] == Counting(s, accepted.value.0);
  }

  lemma {:induction false} TreeIsUnblocked(entries: seq<T.Entry>, from: nat)
    requires Treelike(Unpacked(entries))
    ensures FirstBlocked(map[], entries, from) == |entries| + 2
    decreases |entries| - from
  {
    if from < |entries| {
      var sofar, path := Unpacked(entries[..from]), entries[from].path;
      UnpackedHas(entries, from);
      forall q | q in map[] + sofar ensures !(q + "/" <= path || path + "/" <= q) {
        UnpackedIn(entries, from, q);
      }
      assert !Blocked(map[] + sofar, path);
      TreeIsUnblocked(entries, from + 1);
    }
  }

  lemma {:induction false} UnpackedIn(entries: seq<T.Entry>, n: nat, q: string)
    requires n <= |entries| && q in Unpacked(entries[..n])
    ensures q in Unpacked(entries)
    decreases |entries| - n
  {
    if n == |entries| {
      assert entries[..n] == entries;
    } else {
      assert entries[..n + 1] == entries[..n] + [entries[n]];
      UnpackedMore(entries[..n], entries[n]);
      UnpackedIn(entries, n + 1, q);
    }
  }

  /** Nothing goes wrong on the node itself. */
  predicate Smooth(disk: Disk, env: Env, d: string)
  {
    && env.fault.None? && !env.linkFails && !env.readFails
    && Leftover(disk, d, RemovalOf(env.removals, Staging(d))) == map[]
  }

  /** A good bundle that is not there is unpacked, linked and recorded if nothing goes wrong on the node,
      exactly if none of its files lies below another. */
  lemma GoodBundleIsApplied(c: Config, full: bool, disk: Disk, s: State, env: Env, d: string)
    requires Sought(c, full, disk, s, env).Some? && Sought(c, full, disk, s, env).value.bundle == d
    requires d !in disk.versions && WhyNot(c, env, d).None? && Smooth(disk, env, d)
    ensures var o, files := Poll(c, full, disk, s, env), Unpacked(T.Extracted(env.blob.value, c.maxBytes).value);
            if Treelike(files)
            then && o.ended == Applied(d) && o.state.digest == d && ApplyAll(disk, o.effects).current == Some(d)
                 && d in ApplyAll(disk, o.effects).versions && ApplyAll(disk, o.effects).versions[d] == files
            else o.ended == Refused(Io) && o.state.digest == s.digest
  {
    hide T.Extracted, R.Target, R.Fresh, ApplyAll, WritingVersion, Poll, Treelike, Unpacked;
    var entries := T.Extracted(env.blob.value, c.maxBytes).value;
    assert Installing(c, disk, env, d) == WritingVersion(disk, env, d, entries);
    WrittenIff(c, disk, env, d, entries);
    CurrentIsExact(c, full, disk, s, env);
    if Treelike(Unpacked(entries)) {
      InstallingWhole(c, disk, env, d);
      assert Unpacked(entries) != map[] by { ExtractedIsNotEmpty(env.blob.value, c.maxBytes); }
      assert map[] + Unpacked(entries) == Unpacked(entries);
      AppliedVersions(c, full, disk, s, env, d);
    } else {
      RefusedByUnpacking(c, full, disk, s, env, d);
    }
  }

  lemma ExtractedIsNotEmpty(blob: T.Bytes, limit: nat)
    requires T.Extracted(blob, limit).Ok?
    ensures T.Extracted(blob, limit).value != [] && Unpacked(T.Extracted(blob, limit).value) != map[]
  {
    hide T.FilesFrom;
    var entries := T.Extracted(blob, limit).value;
    UnpackedHas(entries, 0);
  }

  lemma WrittenIff(c: Config, disk: Disk, env: Env, d: string, entries: seq<T.Entry>)
    requires Smooth(disk, env, d)
    ensures WritingVersion(disk, env, d, entries).1 == if Treelike(Unpacked(entries)) then None else Some(Io)
  {
    hide Treelike, Unpacked, Clearing, Building, FirstBlocked;
    BuildingShape(d, entries);
    if Treelike(Unpacked(entries)) {
      TreeIsUnblocked(entries, 0);
    } else if WritingVersion(disk, env, d, entries).1.None? {
      WrittenIsTree(disk, env, d, entries);
    }
  }

  lemma RefusedByUnpacking(c: Config, full: bool, disk: Disk, s: State, env: Env, d: string)
    requires Sought(c, full, disk, s, env).Some? && Sought(c, full, disk, s, env).value.bundle == d
    requires Installing(c, disk, env, d).1 == Some(Io)
    ensures var o := Poll(c, full, disk, s, env); o.ended == Refused(Io) && o.state.digest == s.digest
  {
    hide Poll, Installing, ApplyAll, R.Target, Accepted;
    SoughtIsReplaced(c, full, disk, s, env);
  }

  // ---- What an unpacking that fails leaves ----

  lemma BuildPrefix(d: string, entries: seq<T.Entry>, n: nat)
    requires n <= |entries|
    ensures 1 + n <= |Building(d, entries)|
    ensures Building(d, entries)[..1 + n] == [MakeStaging(d)] + Writes(d, entries[..n])
  {
    hide Building, Writes;
    BuildingShape(d, entries);
    WritesAreStaging(d, entries[..n]);
  }

  lemma StagedAfter(disk: Disk, d: string, entries: seq<T.Entry>, r: Removal)
    ensures var after := ApplyAll(disk, Clearing(d, r) + ([MakeStaging(d)] + Writes(d, entries)));
            d in after.staging && after.staging[d] == Leftover(disk, d, r) + Unpacked(entries)
  {
    hide Clearing, Leftover, ApplyAll, Unpacked;
    var start := Clearing(d, r) + [MakeStaging(d)];
    assert Clearing(d, r) + ([MakeStaging(d)] + Writes(d, entries)) == start + Writes(d, entries);
    ApplyConcat(disk, start, Writes(d, entries));
    ClearingLeaves(disk, d, r);
    WritesBuild(ApplyAll(disk, start), d, entries);
  }

  lemma ClearedAfter(disk: Disk, d: string, r: Removal)
    requires !r.fails
    ensures d !in ApplyAll(disk, Clearing(d, r)).staging
  {
    var torn := Apply(disk, TearStaging(d, r.gone));
    assert Clearing(d, r)[1..] == [ClearStaging(d)];
    ApplyOne(torn, ClearStaging(d));
  }

  /** An unpacking that fails leaves in staging what it had written, for the next one to clear; but one that
      fails at the rename, or before it has begun, leaves no staging directory if that can be cleared. */
  lemma StagingAfterFailure(disk: Disk, env: Env, d: string, entries: seq<T.Entry>)
    requires WritingVersion(disk, env, d, entries).1.Some?
    ensures var r := RemovalOf(env.removals, Staging(d));
            var stop := Stop(Leftover(disk, d, r), entries, env.fault);
            var after := ApplyAll(disk, WritingVersion(disk, env, d, entries).0);
            && (1 <= stop <= |entries| ==>
                  d in after.staging && after.staging[d] == Leftover(disk, d, r) + Unpacked(entries[..stop - 1]))
            && ((stop == 0 || stop == |entries| + 1) && !r.fails ==> d !in after.staging)
  {
    hide Clearing, Leftover, ApplyAll, Unpacked, Building, Stop, RemovalOf;
    BuildingShape(d, entries);
    var r := RemovalOf(env.removals, Staging(d));
    var stop, build := Stop(Leftover(disk, d, r), entries, env.fault), Building(d, entries);
    if stop == 0 {
      assert Clearing(d, r) + build[..0] == Clearing(d, r);
      if !r.fails {
        ClearedAfter(disk, d, r);
      }
    } else if stop <= |entries| {
      BuildPrefix(d, entries, stop - 1);
      StagedAfter(disk, d, entries[..stop - 1], r);
    } else if !r.fails {
      var es := Clearing(d, r) + build[..stop];
      ApplyConcat(disk, es, Clearing(d, r));
      ClearedAfter(ApplyAll(disk, es), d, r);
    }
  }

  /** A fault at any call of an unpacking refuses the poll, before `current` or the recorded bundle changes. */
  lemma FaultIsRefused(c: Config, full: bool, disk: Disk, s: State, env: Env, d: string)
    requires Sought(c, full, disk, s, env).Some? && Sought(c, full, disk, s, env).value.bundle == d
    requires d !in disk.versions && WhyNot(c, env, d).None? && env.fault.Some?
    requires env.fault.value < |T.Extracted(env.blob.value, c.maxBytes).value| + 2
    ensures var o := Poll(c, full, disk, s, env); o.ended == Refused(Io) && o.state.digest == s.digest
  {
    hide T.Extracted, R.Target, R.Fresh, Poll, Clearing, Leftover, Building, FirstBlocked, Unpacked;
    var entries := T.Extracted(env.blob.value, c.maxBytes).value;
    BuildingShape(d, entries);
    assert Installing(c, disk, env, d) == WritingVersion(disk, env, d, entries);
    RefusedByUnpacking(c, full, disk, s, env, d);
  }

  // ---- How a bundle that is there is switched to ----

  /** Once the bundle sought is unpacked: a link that cannot be made and a version that cannot be read are
      refused as such, one without files is rejected, and any other is applied. */
  lemma SwitchEnds(c: Config, full: bool, disk: Disk, s: State, env: Env, d: string)
    requires Sought(c, full, disk, s, env).Some? && Sought(c, full, disk, s, env).value.bundle == d
    requires d in disk.versions
    ensures Poll(c, full, disk, s, env).ended ==
              if env.linkFails || env.readFails then Refused(Io)
              else if disk.versions[d] == map[] then Refused(Rejected) else Applied(d)
  {
    hide R.Target, R.Fresh, Poll, Accepted, Finishing;
    SoughtIsReplaced(c, full, disk, s, env);
  }
}
