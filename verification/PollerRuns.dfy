/** Runs of polls, restarts, stops in the middle of a poll, and deletions from outside. A stop leaves
    the disk as a prefix of the poll's effects left it, and the next start reads the saved state. */
module PollerRuns {
  import opened Text
  import R = Rollout
  import opened BundleStore
  import opened Poller
  import opened PollerFacts

  datatype Event =
    | Polled(env: Env, full: bool)
    | Stopped(env: Env, full: bool, calls: nat)
    | Restarted
    | Deleted(gone: set<string>)

  function Cut(es: seq<Effect>, k: nat): seq<Effect>
  {
    if k < |es| then es[..k] else es
  }

  function After(c: Config, m: Machine, ev: Event): Machine
  {
    match ev
    case Polled(env, full) =>
      var o := Poll(c, full, m.disk, m.state, env);
      Machine(o.state, ApplyAll(m.disk, o.effects))
    case Stopped(env, full, calls) =>
      var disk := ApplyAll(m.disk, Cut(Poll(c, full, m.disk, m.state, env).effects, calls));
      Machine(disk.saved, disk)
    case Restarted => Machine(m.disk.saved, m.disk)
    case Deleted(gone) => m.(disk := m.disk.(versions := m.disk.versions - gone))
  }

  /** The manifest an event verified, and lived long enough to count. */
  function Counted(c: Config, m: Machine, ev: Event): Option<R.Manifest>
  {
    if !ev.Polled? && !ev.Stopped? then None
    else match Answer(ev.env.served, if ev.full then None else CurrentEtag(m.disk, m.state))
      case Failed(_) => None
      case Unchanged => None
      case Changed(content, etag) =>
        match Verified(m.state, ev.env, content)
        case Err(_) => None
        case Ok(man) => if ev.Stopped? && ev.calls < |Counting(m.state, man)| then None else Some(man)
  }

  /** The high-water mark after a manifest was counted, or none. */
  function Marked(lastSequence: nat, counted: Option<R.Manifest>): nat
  {
    if counted.Some? && counted.value.sequence.Some? && counted.value.sequence.value > lastSequence
    then counted.value.sequence.value else lastSequence
  }

  /** Memory and disk agree, as they do after a start and after every whole poll. */
  predicate Synced(m: Machine)
  {
    m.state == m.disk.saved
  }

  ghost predicate IsRun(c: Config, ms: seq<Machine>, evs: seq<Event>)
  {
    |ms| == |evs| + 1 && Synced(ms[0]) && forall i :: 0 <= i < |evs| ==> FollowsAt(c, ms, evs, i)
  }

  ghost predicate FollowsAt(c: Config, ms: seq<Machine>, evs: seq<Event>, i: nat)
    requires |ms| == |evs| + 1
  {
    i < |evs| && ms[i + 1] == After(c, ms[i], evs[i])
  }

  // ---- Prefixes of effects ----

  lemma CutConcat(a: seq<Effect>, b: seq<Effect>, k: nat)
    ensures Cut(a + b, k) == if k < |a| then Cut(a, k) else a + Cut(b, k - |a|)
  {
  }

  lemma CutSubset(es: seq<Effect>, k: nat)
    ensures |Cut(es, k)| <= |es| && forall i :: 0 <= i < |Cut(es, k)| ==> Cut(es, k)[i] == es[i]
  {
  }

  /** All states saved in `es` have the given sequence. */
  predicate SavesAt(es: seq<Effect>, sequence: nat)
  {
    forall i :: 0 <= i < |es| ==> es[i].Save? ==> es[i].state.lastSequence == sequence
  }

  lemma {:induction false} SequenceAfter(s: State, es: seq<Effect>)
    requires SavesAt(es, s.lastSequence)
    ensures LastSave(s, es).lastSequence == s.lastSequence
    decreases |es|
  {
    if es != [] {
      SequenceAfter(if es[0].Save? then es[0].state else s, es[1..]);
    }
  }

  /** No bundle change: the same ring and digest in every save, and `current` left alone. */
  predicate Still(es: seq<Effect>, s: State)
  {
    forall i :: 0 <= i < |es| ==>
      !es[i].Link? && (es[i].Save? ==> es[i].state.ring == s.ring && es[i].state.digest == s.digest)
  }

  lemma {:induction false} StillAfter(disk: Disk, es: seq<Effect>)
    requires Still(es, disk.saved)
    ensures var after := ApplyAll(disk, es);
            && after.current == disk.current
            && after.saved.ring == disk.saved.ring && after.saved.digest == disk.saved.digest
    decreases |es|
  {
    if es != [] {
      StillAfter(Apply(disk, es[0]), es[1..]);
    }
  }

  // ---- Sequences ----

  lemma ReplaceSavesAt(c: Config, disk: Disk, s: State, env: Env, ring: R.Ring, etag: Option<string>)
    ensures SavesAt(Replace(c, disk, s, env, ring, etag).effects, s.lastSequence)
  {
    hide Installing, Pruning, Kept, ApplyAll, Readable;
    InstallingShape(c, disk, env, ring.bundle);
    PruningShape(env.listing, Kept(c.keep, ring.bundle, s.digest), env.removals);
  }

  lemma ActingSavesAt(c: Config, disk: Disk, s: State, env: Env, man: R.Manifest, etag: Option<string>)
    ensures SavesAt(Acting(c, disk, s, env, man, etag).effects, s.lastSequence)
    ensures man.freeze ==> Still(Acting(c, disk, s, env, man, etag).effects, s)
  {
    hide Replace, R.TargetIndex;
    var target := R.Target(man.rings, c.node);
    if target.Some? {
      ReplaceSavesAt(c, disk, s, env, target.value, etag);
    }
  }

  /** A stop before the manifest is counted leaves the state as it was. */
  lemma UncountedCut(s: State, man: R.Manifest, k: nat)
    requires k < |Counting(s, man)|
    ensures LastSave(s, Cut(Counting(s, man), k)) == s && Still(Cut(Counting(s, man), k), s)
  {
  }

  lemma CountedCut(c: Config, m: Machine, env: Env, man: R.Manifest, etag: Option<string>, k: nat)
    requires Synced(m) && k >= |Counting(m.state, man)|
    ensures var es := Cut(Process(c, m.disk, m.state, env, man, etag).effects, k);
            && LastSave(m.state, es).lastSequence == Sequenced(m.state, man).lastSequence
            && (man.freeze ==> Still(es, m.state))
  {
    hide Acting, Sequenced;
    var s, s' := m.state, Sequenced(m.state, man);
    var a, b := Counting(s, man), Acting(c, m.disk, s', env, man, etag).effects;
    CutConcat(a, b, k);
    CutSubset(b, k - |a|);
    CountingSaves(s, man);
    ActingSavesAt(c, m.disk, s', env, man, etag);
    LastSaveConcat(s, a, Cut(b, k - |a|));
    SequenceAfter(s', Cut(b, k - |a|));
    assert s'.ring == s.ring && s'.digest == s.digest by { SequencedKeeps(s, man); }
    assert Still(a, s) by { CountingStill(s, man); }
  }

  lemma SequencedKeeps(s: State, man: R.Manifest)
    ensures var s' := Sequenced(s, man);
            s'.ring == s.ring && s'.digest == s.digest && s'.lastSequence == Marked(s.lastSequence, Some(man))
  {
  }

  lemma CountingStill(s: State, man: R.Manifest)
    ensures Still(Counting(s, man), s)
  {
  }

  /** What the disk's saved state and link are after a poll cut short after `k` calls. */
  lemma PollCut(c: Config, m: Machine, env: Env, full: bool, k: nat)
    requires Synced(m)
    ensures var ev := Stopped(env, full, k);
            var man := Counted(c, m, ev);
            var after := ApplyAll(m.disk, Cut(Poll(c, full, m.disk, m.state, env).effects, k));
            && after.saved.lastSequence == Marked(m.state.lastSequence, man)
            && (man.Some? ==> R.Fresh(man.value, m.state.lastSequence, env.now))
            && (man.None? || man.value.freeze ==>
                  && after.current == m.disk.current
                  && after.saved.ring == m.state.ring && after.saved.digest == m.state.digest)
  {
    hide Process, Sequenced, Counting;
    var s := m.state;
    var es := Cut(Poll(c, full, m.disk, s, env).effects, k);
    SavedAfter(m.disk, es);
    match Answer(env.served, if full then None else CurrentEtag(m.disk, s))
    case Failed(_) => StillAfter(m.disk, es);
    case Unchanged =>
      OneSave(s, s);
      StillAfter(m.disk, es);
    case Changed(content, etag) =>
      match Verified(s, env, content)
      case Err(_) => StillAfter(m.disk, es);
      case Ok(man) =>
        VerifiedCut(c, m, env, man, etag, k);
        if Still(es, s) {
          StillAfter(m.disk, es);
        }
        SequencedKeeps(s, man);
  }

  lemma VerifiedCut(c: Config, m: Machine, env: Env, man: R.Manifest, etag: Option<string>, k: nat)
    requires Synced(m)
    ensures var es := Cut(Process(c, m.disk, m.state, env, man, etag).effects, k);
            if k < |Counting(m.state, man)| then LastSave(m.state, es) == m.state && Still(es, m.state)
            else && LastSave(m.state, es).lastSequence == Sequenced(m.state, man).lastSequence
                 && (man.freeze ==> Still(es, m.state))
  {
    if k < |Counting(m.state, man)| {
      hide Acting;
      CutConcat(Counting(m.state, man), Acting(c, m.disk, Sequenced(m.state, man), env, man, etag).effects, k);
      UncountedCut(m.state, man, k);
    } else {
      CountedCut(c, m, env, man, etag, k);
    }
  }

  lemma WholeIsCut(es: seq<Effect>)
    ensures Cut(es, |es|) == es
  {
  }

  lemma CountedWhole(c: Config, m: Machine, env: Env, full: bool)
    ensures var all := |Poll(c, full, m.disk, m.state, env).effects|;
            Counted(c, m, Polled(env, full)) == Counted(c, m, Stopped(env, full, all))
  {
  }

  /** One event: the recorded sequence becomes that of the manifest it counts, which was fresh against it,
      if that is higher, and else stays; without a counted, unfrozen manifest the bundle does not change. */
  lemma EventFacts(c: Config, m: Machine, ev: Event)
    requires Synced(m)
    ensures var after := After(c, m, ev);
            var man := Counted(c, m, ev);
            && Synced(after)
            && after.state.lastSequence == Marked(m.state.lastSequence, man)
            && (man.Some? ==> R.Fresh(man.value, m.state.lastSequence, ev.env.now))
            && (man.None? || man.value.freeze ==>
                  && after.disk.current == m.disk.current
                  && after.state.ring == m.state.ring && after.state.digest == m.state.digest)
  {
    hide Poll, R.Fresh;
    match ev
    case Polled(env, full) =>
      var k := |Poll(c, full, m.disk, m.state, env).effects|;
      WholeIsCut(Poll(c, full, m.disk, m.state, env).effects);
      PollCut(c, m, env, full, k);
      PollSaves(c, full, m.disk, m.state, env);
      CountedWhole(c, m, env, full);
    case Stopped(env, full, calls) => PollCut(c, m, env, full, calls);
    case Restarted =>
    case Deleted(_) =>
  }

  lemma {:induction false} RunFacts(c: Config, ms: seq<Machine>, evs: seq<Event>, i: nat, j: nat)
    requires IsRun(c, ms, evs) && i <= j <= |evs|
    ensures Synced(ms[i]) && Synced(ms[j]) && ms[i].state.lastSequence <= ms[j].state.lastSequence
    decreases j
  {
    hide After;
    if j > 0 {
      if i < j {
        RunFacts(c, ms, evs, i, j - 1);
      } else {
        RunFacts(c, ms, evs, j - 1, j - 1);
      }
      assert FollowsAt(c, ms, evs, j - 1);
      EventFacts(c, ms[j - 1], evs[j - 1]);
    }
  }

  /** Replay safety: once a manifest with sequence `x > 0` is counted, every manifest counted later,
      across any restarts and stops, carries a sequence and one that is not lower. */
  lemma NoReplay(c: Config, ms: seq<Machine>, evs: seq<Event>, i: nat, j: nat)
    requires IsRun(c, ms, evs) && i < j < |evs|
    requires Counted(c, ms[i], evs[i]).Some? && Counted(c, ms[j], evs[j]).Some?
    requires var a := Counted(c, ms[i], evs[i]).value; a.sequence.Some? && a.sequence.value > 0
    ensures var a, b := Counted(c, ms[i], evs[i]).value, Counted(c, ms[j], evs[j]).value;
            b.sequence.Some? && b.sequence.value >= a.sequence.value
  {
    hide After, Counted;
    RunFacts(c, ms, evs, i, j);
    RunFacts(c, ms, evs, i + 1, j);
    assert FollowsAt(c, ms, evs, i);
    EventFacts(c, ms[i], evs[i]);
    EventFacts(c, ms[j], evs[j]);
  }

  /** Freeze safety: after a frozen manifest with sequence `x > 0`, whatever happens, ring, digest and
      `current` change only in an event that counts an unfrozen manifest of sequence at least `x`. */
  lemma FreezeHolds(c: Config, ms: seq<Machine>, evs: seq<Event>, i: nat, j: nat)
    requires IsRun(c, ms, evs) && i < j < |evs| && Counted(c, ms[i], evs[i]).Some?
    requires var a := Counted(c, ms[i], evs[i]).value; a.freeze && a.sequence.Some? && a.sequence.value > 0
    requires ms[j + 1].state.ring != ms[j].state.ring || ms[j + 1].state.digest != ms[j].state.digest
             || ms[j + 1].disk.current != ms[j].disk.current
    ensures var b := Counted(c, ms[j], evs[j]);
            && b.Some? && !b.value.freeze && b.value.sequence.Some?
            && b.value.sequence.value >= Counted(c, ms[i], evs[i]).value.sequence.value
  {
    hide After, Counted;
    RunFacts(c, ms, evs, j, j);
    assert FollowsAt(c, ms, evs, j);
    EventFacts(c, ms[j], evs[j]);
    NoReplay(c, ms, evs, i, j);
  }
}
