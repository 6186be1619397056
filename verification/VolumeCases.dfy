/** A run in which every attempt of `read_identity` fails after a single swap: what an abandoned
    publication costs the reader. */
module VolumeCases {
  import opened Text
  import opened VolumeNames
  import opened Volume
  import opened VolumeRuns
  import opened VolumeReader

  function Last(run: seq<System>): System
    requires run != []
  {
    run[|run| - 1]
  }

  /** The system after the writer of chain `c` made one call. */
  function With(s: System, c: Chain, e: Entries, w: Writer): System
  {
    System(e, s.writers[c := w])
  }

  /** The run goes on with one call of the writer of chain `c`. */
  lemma Then(run: seq<System>, c: Chain, e: Entries, w: Writer) returns (more: seq<System>)
    requires IsRun(run) && c in Last(run).writers && Step(c, Last(run).entries, Last(run).writers[c], e, w)
    ensures more == run + [With(Last(run), c, e, w)] && IsRun(more)
  {
    RunIsTotal(run, |run| - 1);
    var s := With(Last(run), c, e, w);
    more := run + [s];
    assert Moves(c, Last(run), s);
    forall i | 0 < i < |more| ensures NextAt(more, i) {
      assert i < |run| ==> NextAt(run, i);
    }
  }

  /** A longer run that leaves version `n` as it was. */
  ghost predicate Goes(run: seq<System>, more: seq<System>, n: nat)
    requires run != []
  {
    && run <= more && IsRun(more) && Identity in Last(more).writers
    && (Version(Identity, n) in Last(run).entries ==>
          && Version(Identity, n) in Last(more).entries
          && Last(more).entries[Version(Identity, n)] == Last(run).entries[Version(Identity, n)])
  }

  lemma State(run: seq<System>) returns (e: Entries, w: Writer)
    requires IsRun(run)
    ensures Identity in Last(run).writers && e == Last(run).entries && w == Last(run).writers[Identity]
    ensures Inv(Identity, e, w)
  {
    RunIsGood(run, |run| - 1);
    e, w := Last(run).entries, Last(run).writers[Identity];
    assert Inv(Identity, e, w);
  }

  lemma {:induction false} FillRun(run: seq<System>, v: nat, todo: seq<Write>, n: nat) returns (more: seq<System>)
    requires IsRun(run) && Identity in Last(run).writers && Last(run).writers[Identity].phase == Filling(v, todo)
    requires n != v
    ensures Goes(run, more, n)
    ensures Last(more).writers[Identity] == Last(run).writers[Identity].(phase := Linking(v, VisibleFiles(Identity)))
    decreases |todo|
  {
    var e, w := State(run);
    if todo == [] {
      more := Then(run, Identity, e, w.(phase := Linking(v, VisibleFiles(Identity))));
    } else {
      var files := Apply(e[Version(Identity, v)].files, todo[0]);
      var next := Then(run, Identity, e[Version(Identity, v) := Dir(files)], w.(phase := Filling(v, todo[1..])));
      more := FillRun(next, v, todo[1..], n);
    }
  }

  lemma {:induction false} LinkRun(run: seq<System>, v: nat, links: seq<FileName>, n: nat) returns (more: seq<System>)
    requires IsRun(run) && Identity in Last(run).writers && Last(run).writers[Identity].phase == Linking(v, links)
    ensures Goes(run, more, n)
    ensures Last(more).writers[Identity] == Last(run).writers[Identity].(phase := Swapping(v, RemoveTmp))
    decreases |links|
  {
    var e, w := State(run);
    if links == [] {
      more := Then(run, Identity, e, w.(phase := Swapping(v, RemoveTmp)));
    } else {
      var e' := if Visible(links[0]) in e then e else e[Visible(links[0]) := ToFile(Identity, links[0])];
      var next := Then(run, Identity, e', w.(phase := Linking(v, links[1..])));
      more := LinkRun(next, v, links[1..], n);
    }
  }

  lemma SwapRun(run: seq<System>, v: nat, n: nat) returns (more: seq<System>)
    requires IsRun(run) && Identity in Last(run).writers && Last(run).writers[Identity].phase == Swapping(v, RemoveTmp)
    ensures Goes(run, more, n)
    ensures var w := Last(run).writers[Identity];
            Last(more).writers[Identity] == w.(phase := Collecting(v), swaps := w.swaps + [v])
  {
    var e, w := State(run);
    var e1 := e - {DataTmp(Identity)};
    var e2 := e1[DataTmp(Identity) := ToVersion(Identity, v)];
    var r1 := Then(run, Identity, e1, w.(phase := Swapping(v, MakeTmp)));
    var r2 := Then(r1, Identity, e2, w.(phase := Swapping(v, Rename)));
    more := Then(r2, Identity, (e2 - {DataTmp(Identity)})[Data(Identity) := e2[DataTmp(Identity)]],
                 w.(phase := Collecting(v), swaps := w.swaps + [v]));
  }

  /** A publication gets as far as creating its directory. */
  lemma BeginRun(run: seq<System>, r: Request, n: nat) returns (more: seq<System>)
    requires IsRun(run) && Identity in Last(run).writers && ChainOf(r) == Identity
    requires n <= |Last(run).writers[Identity].asked|
    ensures Goes(run, more, n)
    ensures var w := Last(run).writers[Identity];
            Last(more).writers[Identity] == Writer(Filling(|w.asked| + 1, Plan(r)), w.asked + [Payload(r)], w.swaps)
  {
    var e, w := State(run);
    var v := |w.asked| + 1;
    var r1 := Then(run, Identity, e, w.(phase := Idle));
    assert IsNext(Identity, e, v) && Version(Identity, v) !in e;
    var r2 := Then(r1, Identity, e, w.(phase := Numbered(v, r)));
    more := Then(r2, Identity, e[Version(Identity, v) := Dir(map[])],
                 Writer(Filling(v, Plan(r)), w.asked + [Payload(r)], w.swaps));
  }

  /** A publication gets as far as its swap. */
  lemma PublishRun(run: seq<System>, r: Request, n: nat) returns (more: seq<System>)
    requires IsRun(run) && Identity in Last(run).writers && ChainOf(r) == Identity
    requires n <= |Last(run).writers[Identity].asked|
    ensures Goes(run, more, n)
    ensures var w := Last(run).writers[Identity];
            var v := |w.asked| + 1;
            Last(more).writers[Identity] == Writer(Collecting(v), w.asked + [Payload(r)], w.swaps + [v])
  {
    hide Step, Inv, Plan, Payload;
    var v := |Last(run).writers[Identity].asked| + 1;
    var r1 := BeginRun(run, r, n);
    var r2 := FillRun(r1, v, Plan(r), n);
    var r3 := LinkRun(r2, v, VisibleFiles(Identity), n);
    more := SwapRun(r3, v, n);
  }

  /** The collection unlinks the key of a stale version first. */
  lemma EraseRun(run: seq<System>, n: nat, files: Files) returns (more: seq<System>)
    requires IsRun(run) && Identity in Last(run).writers && Version(Identity, n) in Last(run).entries
    requires Last(run).entries[Version(Identity, n)] == Dir(files) && Key in files && files[Key].File?
    requires Last(run).writers[Identity].phase.Collecting? && Stale(n, Last(run).writers[Identity].phase.v)
    ensures run <= more && IsRun(more) && Identity in Last(more).writers
    ensures Last(more).writers[Identity] == Last(run).writers[Identity]
    ensures ReadFile(Last(more).entries, Identity, n, Key) == None
  {
    var e, w := State(run);
    var e' := e[Version(Identity, n) := Dir(files - {Key})];
    assert Unlinked(files, files - {Key});
    more := Then(run, Identity, e', w);
  }

  /** An attempt that resolved the link at `t` finds the key gone at `u`, after one swap. */
  ghost predicate LostAfterOne(run: seq<System>, t: nat, u: nat)
    requires IsRun(run)
  {
    && t < u < |run| && SwapCount(run, Identity, u) == SwapCount(run, Identity, t) + 1
    && match ReadLink(run[t].entries, Identity)
       case Some(n) => ReadFile(run[u].entries, Identity, n, Key) == None
       case None => false
  }

  lemma CurrentKey(run: seq<System>) returns (n: nat, files: Files)
    requires IsRun(run) && Identity in Last(run).writers && Last(run).writers[Identity].swaps != []
    ensures ReadLink(Last(run).entries, Identity) == Some(n) && n <= |Last(run).writers[Identity].asked|
    ensures Version(Identity, n) in Last(run).entries && Last(run).entries[Version(Identity, n)] == Dir(files)
    ensures Key in files && files[Key].File?
  {
    var e, w := State(run);
    n := Current(w).value;
    files := w.asked[n - 1];
    assert GenerationOk(Identity, e, w, w.swaps[|w.swaps| - 1]);
    var r :| ChainOf(r) == Identity && files == Payload(r);
  }

  /** Whatever is current, one publication is abandoned, the next one swapped in, and the collection
      starts on what was current. */
  lemma Overtaken(run: seq<System>, r: Request) returns (more: seq<System>)
    requires IsRun(run) && Identity in Last(run).writers && Last(run).writers[Identity].swaps != []
    requires ChainOf(r) == Identity
    ensures run <= more && IsRun(more) && Identity in Last(more).writers && Last(more).writers[Identity].swaps != []
    ensures LostAfterOne(more, |run| - 1, |more| - 1)
  {
    hide Step, Inv, Plan, Payload;
    var n, files := CurrentKey(run);
    var abandoned := BeginRun(run, r, n);
    var published := PublishRun(abandoned, r, n);
    more := EraseRun(published, n, files);
    assert more[|run| - 1] == Last(run);
  }

  /** Moments at which one failed attempt ends and the next begins, each with one swap. */
  ghost predicate OneSwapEach(run: seq<System>, moments: seq<nat>)
    requires IsRun(run)
  {
    forall a :: 0 <= a && a + 1 < |moments| ==> LostAfterOne(run, moments[a], moments[a + 1])
  }

  lemma LostStays(run: seq<System>, more: seq<System>, t: nat, u: nat)
    requires IsRun(run) && IsRun(more) && run <= more && LostAfterOne(run, t, u)
    ensures LostAfterOne(more, t, u)
  {
    assert more[t] == run[t] && more[u] == run[u];
  }

  lemma {:induction false} AttemptsFail(k: nat, r: Request) returns (run: seq<System>, moments: seq<nat>)
    requires ChainOf(r) == Identity
    ensures IsRun(run) && Identity in Last(run).writers && Last(run).writers[Identity].swaps != []
    ensures |moments| == k + 1 && moments[k] == |run| - 1 && OneSwapEach(run, moments)
  {
    if k == 0 {
      var empty := System(map[], map[Identity := START, Policy := START, Tokens := START]);
      forall c: Chain ensures c in empty.writers && empty.writers[c] == START {
        assert c == Identity || c == Policy || c == Tokens;
      }
      assert IsRun([empty]);
      run := PublishRun([empty], r, 0);
      moments := [|run| - 1];
    } else {
      var before, earlier := AttemptsFail(k - 1, r);
      run := Overtaken(before, r);
      moments := earlier + [|run| - 1];
      forall a | 0 <= a && a + 1 < |moments| ensures LostAfterOne(run, moments[a], moments[a + 1]) {
        if a + 2 < |moments| {
          LostStays(before, run, earlier[a], earlier[a + 1]);
        }
      }
    }
  }

  lemma {:induction false} MomentsRise(run: seq<System>, moments: seq<nat>, i: nat, j: nat)
    requires IsRun(run) && OneSwapEach(run, moments) && i <= j < |moments|
    ensures moments[i] <= moments[j]
    ensures moments[i] < |run| && moments[j] < |run| ==>
              SwapCount(run, Identity, moments[j]) == SwapCount(run, Identity, moments[i]) + (j - i)
    decreases j
  {
    if i < j {
      MomentsRise(run, moments, i, j - 1);
      assert LostAfterOne(run, moments[j - 1], moments[j]);
    }
  }

  /** An attempt whose calls begin with `ticks(at)` resolves a version and finds its key gone. */
  ghost predicate FailsAt(run: seq<System>, ticks: nat -> nat, at: nat)
    requires Schedule(run, ticks)
  {
    assert ticks(at) <= ticks(at + 1) < |run|;
    match ReadLink(run[ticks(at)].entries, Identity)
    case Some(n) => ReadFile(run[ticks(at + 1)].entries, Identity, n, Key) == None
    case None => false
  }

  /** All four attempts of `read_identity` fail, with four swaps between its first call and its last. */
  ghost predicate GivesUpAfterFour(run: seq<System>, ticks: nat -> nat)
  {
    && IsRun(run) && Schedule(run, ticks)
    && FailsAt(run, ticks, 0) && FailsAt(run, ticks, 4) && FailsAt(run, ticks, 8) && FailsAt(run, ticks, 12)
    && (assert ticks(0) <= ticks(15) < |run|;
        SwapCount(run, Identity, ticks(15)) == SwapCount(run, Identity, ticks(0)) + 4)
  }

  /** Which of the five moments a call falls on: the link of an attempt on its first, the rest on the next. */
  function MomentOf(n: nat): (k: nat)
    ensures k <= 4
  {
    if n < 13 then (n + 3) / 4 else 4
  }

  function TicksOf(moments: seq<nat>): nat -> nat
    requires |moments| == 5
  {
    (n: nat) => moments[MomentOf(n)]
  }

  lemma TicksAreSchedule(run: seq<System>, moments: seq<nat>)
    requires IsRun(run) && |moments| == 5 && OneSwapEach(run, moments) && moments[4] < |run|
    ensures Schedule(run, TicksOf(moments))
  {
    hide IsRun, OneSwapEach;
    forall i: nat, j: nat | i <= j ensures TicksOf(moments)(i) <= TicksOf(moments)(j) < |run| {
      MomentsRise(run, moments, MomentOf(i), MomentOf(j));
      MomentsRise(run, moments, MomentOf(j), 4);
    }
  }

  lemma AttemptFails(run: seq<System>, moments: seq<nat>, a: nat)
    requires IsRun(run) && |moments| == 5 && OneSwapEach(run, moments) && Schedule(run, TicksOf(moments)) && a < 4
    ensures FailsAt(run, TicksOf(moments), 4 * a)
  {
    hide IsRun, Schedule, SwapCount;
    assert MomentOf(4 * a) == a && MomentOf(4 * a + 1) == a + 1;
    assert LostAfterOne(run, moments[a], moments[a + 1]);
  }

  /** Four swaps are enough to make `read_identity` give up: in some run, with its calls at some moments of
      it, all four attempts fail, each after the link was swapped exactly once. */
  lemma FourSwapsSuffice()
    ensures exists run, ticks :: GivesUpAfterFour(run, ticks)
  {
    hide IsRun, OneSwapEach, FailsAt, SwapCount;
    var run, moments := AttemptsFail(4, PublishIdentity("k", "c", "a"));
    TicksAreSchedule(run, moments);
    AttemptFails(run, moments, 0);
    AttemptFails(run, moments, 1);
    AttemptFails(run, moments, 2);
    AttemptFails(run, moments, 3);
    MomentsRise(run, moments, 0, 4);
    assert GivesUpAfterFour(run, TicksOf(moments));
  }
}
