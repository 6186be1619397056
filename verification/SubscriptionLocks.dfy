/** The manager's operations as they interleave. The books are behind one lock and the marks behind
    another; an operation that touches both releases the first before it takes the second, and
    anything can happen in between. */
module SubscriptionLocks {
  import opened Text
  import opened Subscriptions

  /** What an operation still has to do to the marks. */
  datatype Task = Mark(ids: set<string>) | Unmark(id: string)

  /** The books, and the marks still to be made or removed. */
  datatype Shared = Shared(books: Books, pending: seq<Task>)

  const START := Shared(NEW, [])

  datatype Step = Begin(op: Op) | Finish(i: nat) | Take

  /** The section under the first lock. */
  function First(enabled: bool, b: Books, op: Op): (Books, Option<Task>)
  {
    match op
    case Subscribe(id) => (if enabled then b.(wanted := b.wanted + {id}) else b, None)
    case Unsubscribe(id) =>
      if enabled then (b.(wanted := b.wanted - {id}, bundles := b.bundles - {id}), Some(Unmark(id))) else (b, None)
    case Receive(u) =>
      if !Acceptable(u) || u.id !in b.wanted || (u.id in b.bundles && b.bundles[u.id] == u.bundle.value) then (b, None)
      else (b.(bundles := b.bundles[u.id := u.bundle.value]), Some(Mark({u.id})))
    case Fleet(bundle) =>
      if b.fleet == Some(bundle) then (b, None)
      else (b.(fleet := Some(bundle)), Some(Mark(b.wanted - b.bundles.Keys)))
  }

  /** The section under the second lock. */
  function Second(b: Books, t: Task): Books
  {
    match t
    case Mark(ids) => b.(dirty := b.dirty + ids)
    case Unmark(id) => b.(dirty := b.dirty - {id})
  }

  /** Uninterrupted, the two sections are the operation. */
  lemma SectionsAreTheOperation(enabled: bool, b: Books, op: Op)
    ensures var (b', task) := First(enabled, b, op);
            Apply(enabled, b, op) == if task.Some? then Second(b', task.value) else b'
  {
  }

  function Next(enabled: bool, s: Shared, step: Step): Shared
  {
    match step
    case Begin(op) =>
      var (b, task) := First(enabled, s.books, op);
      Shared(b, if task.Some? then s.pending + [task.value] else s.pending)
    case Finish(i) =>
      if i >= |s.pending| then s
      else
        Shared(Second(s.books, s.pending[i]), s.pending[..i] + s.pending[i + 1..])
    case Take => Shared(s.books.(dirty := {}), s.pending)
  }

  function Run(enabled: bool, s: Shared, steps: seq<Step>): Shared
    decreases |steps|
  {
    if steps == [] then s else Run(enabled, Next(enabled, s, steps[0]), steps[1..])
  }

  // ---- Bundles ----

  lemma NextKeepsTidy(enabled: bool, s: Shared, step: Step)
    requires Tidy(enabled, s.books)
    ensures Tidy(enabled, Next(enabled, s, step).books)
  {
  }

  /** Per-identity bundles exist only for wanted identities, however the operations interleave. */
  lemma {:induction false} BundlesAreWanted(enabled: bool, s: Shared, steps: seq<Step>)
    requires Tidy(enabled, s.books)
    ensures Tidy(enabled, Run(enabled, s, steps).books)
    decreases |steps|
  {
    if steps != [] {
      NextKeepsTidy(enabled, s, steps[0]);
      BundlesAreWanted(enabled, Next(enabled, s, steps[0]), steps[1..]);
    }
  }

  /** The subscriptions among the steps, one after another. */
  function Followed(enabled: bool, wanted: set<string>, steps: seq<Step>): set<string>
    decreases |steps|
  {
    if steps == [] then wanted
    else if enabled && steps[0].Begin? && steps[0].op.Subscribe? then
      Followed(enabled, wanted + {steps[0].op.id}, steps[1..])
    else if enabled && steps[0].Begin? && steps[0].op.Unsubscribe? then
      Followed(enabled, wanted - {steps[0].op.id}, steps[1..])
    else Followed(enabled, wanted, steps[1..])
  }

  /** So what is wanted is what the scans made of it, whatever else goes on meanwhile. */
  lemma {:induction false} OnlySubscriptionsCount(enabled: bool, s: Shared, steps: seq<Step>)
    ensures Run(enabled, s, steps).books.wanted == Followed(enabled, s.books.wanted, steps)
    decreases |steps|
  {
    if steps != [] {
      OnlySubscriptionsCount(enabled, Next(enabled, s, steps[0]), steps[1..]);
    }
  }

  // ---- Marks ----

  predicate Marks(t: Task, id: string)
  {
    t.Mark? && id in t.ids
  }

  /** The state before step `k` of a run from the start. */
  function At(enabled: bool, steps: seq<Step>, k: nat): Shared
    requires k <= |steps|
  {
    Run(enabled, START, steps[..k])
  }

  lemma {:induction false} RunSnoc(enabled: bool, s: Shared, steps: seq<Step>, step: Step)
    ensures Run(enabled, s, steps + [step]) == Next(enabled, Run(enabled, s, steps), step)
    decreases |steps|
  {
    if steps == [] {
      assert [step][1..] == [] && steps + [step] == [step];
    } else {
      assert (steps + [step])[1..] == steps[1..] + [step];
      RunSnoc(enabled, Next(enabled, s, steps[0]), steps[1..], step);
    }
  }

  lemma NextAt(enabled: bool, steps: seq<Step>, k: nat)
    requires k < |steps|
    ensures At(enabled, steps, k + 1) == Next(enabled, At(enabled, steps, k), steps[k])
  {
    assert steps[..k + 1] == steps[..k] + [steps[k]];
    RunSnoc(enabled, START, steps[..k], steps[k]);
  }

  /** The step marks an identity nobody wants any more. */
  predicate MarksUnwanted(s: Shared, step: Step, id: string)
  {
    step.Finish? && step.i < |s.pending| && Marks(s.pending[step.i], id) && id !in s.books.wanted
  }

  /** The step subscribes the identity again, unmarks it or takes the marks. */
  predicate Clears(enabled: bool, s: Shared, step: Step, id: string)
  {
    || step.Take? || (enabled && step == Begin(Op.Subscribe(id)))
    || (step.Finish? && step.i < |s.pending| && s.pending[step.i] == Unmark(id))
  }

  /** Step `i` marked the identity when nobody wanted it, and nothing before step `k` cleared that. */
  predicate LateMark(enabled: bool, steps: seq<Step>, id: string, i: nat, k: nat)
    requires k <= |steps|
  {
    && i < k && MarksUnwanted(At(enabled, steps, i), steps[i], id)
    && forall j :: i < j < k ==> !Clears(enabled, At(enabled, steps, j), steps[j], id)
  }

  predicate HasLateMark(enabled: bool, steps: seq<Step>, id: string, k: nat)
    requires k <= |steps|
  {
    exists i: nat :: i < k && LateMark(enabled, steps, id, i, k)
  }

  lemma LateMarkNext(enabled: bool, steps: seq<Step>, id: string, k: nat)
    requires k < |steps|
    ensures HasLateMark(enabled, steps, id, k + 1) <==>
              || MarksUnwanted(At(enabled, steps, k), steps[k], id)
              || (HasLateMark(enabled, steps, id, k) && !Clears(enabled, At(enabled, steps, k), steps[k], id))
  {
    hide At, MarksUnwanted, Clears;
    if MarksUnwanted(At(enabled, steps, k), steps[k], id) {
      assert LateMark(enabled, steps, id, k, k + 1);
    }
    if HasLateMark(enabled, steps, id, k) && !Clears(enabled, At(enabled, steps, k), steps[k], id) {
      var i: nat :| i < k && LateMark(enabled, steps, id, i, k);
      assert LateMark(enabled, steps, id, i, k + 1);
    }
    if HasLateMark(enabled, steps, id, k + 1) {
      var i: nat :| i < k + 1 && LateMark(enabled, steps, id, i, k + 1);
      if i < k {
        assert LateMark(enabled, steps, id, i, k);
      }
    }
  }

  predicate Stray(s: Shared, id: string)
  {
    id in s.books.dirty && id !in s.books.wanted
  }

  lemma Removed(pending: seq<Task>, i: nat, t: Task)
    requires i < |pending| && t in pending && t != pending[i]
    ensures t in pending[..i] + pending[i + 1..]
  {
    var j :| 0 <= j < |pending| && pending[j] == t;
    assert j < i ==> (pending[..i] + pending[i + 1..])[j] == t;
    assert j > i ==> (pending[..i] + pending[i + 1..])[j - 1] == t;
  }

  lemma StrayNext(enabled: bool, s: Shared, step: Step, id: string)
    ensures var after := Next(enabled, s, step);
            var stays := MarksUnwanted(s, step, id) || (Stray(s, id) && !Clears(enabled, s, step, id));
            && (Stray(after, id) ==> stays || Unmark(id) in after.pending)
            && (stays ==> Stray(after, id))
            && (Unmark(id) in s.pending && !Clears(enabled, s, step, id) ==> Unmark(id) in after.pending)
  {
    var after := Next(enabled, s, step);
    match step
    case Begin(op) =>
      var task := First(enabled, s.books, op).1;
      assert task.Some? ==> after.pending[|s.pending|] == task.value;
      assert forall t :: t in s.pending ==> t in after.pending;
    case Finish(i) =>
      if i < |s.pending| && Unmark(id) in s.pending && s.pending[i] != Unmark(id) {
        Removed(s.pending, i, Unmark(id));
      }
    case Take =>
  }

  /** A stray mark came late or is about to be removed, and every late mark is a stray one. */
  lemma {:induction false} StrayIsLate(enabled: bool, steps: seq<Step>, id: string, k: nat)
    requires k <= |steps|
    ensures var s := At(enabled, steps, k);
            && (Stray(s, id) ==> HasLateMark(enabled, steps, id, k) || Unmark(id) in s.pending)
            && (HasLateMark(enabled, steps, id, k) ==> Stray(s, id))
    decreases k
  {
    if k == 0 {
      assert steps[..0] == [];
    } else {
      StrayIsLate(enabled, steps, id, k - 1);
      NextAt(enabled, steps, k - 1);
      LateMarkNext(enabled, steps, id, k - 1);
      hide At, HasLateMark, Next;
      var s, after := At(enabled, steps, k - 1), At(enabled, steps, k);
      StrayNext(enabled, s, steps[k - 1], id);
      if Clears(enabled, s, steps[k - 1], id) {
        ClearedIsNotStray(enabled, s, steps[k - 1], id);
      }
    }
  }

  lemma ClearedIsNotStray(enabled: bool, s: Shared, step: Step, id: string)
    requires Clears(enabled, s, step, id)
    ensures !Stray(Next(enabled, s, step), id)
  {
  }

  /** Once every operation is finished, marks are for wanted identities alone if and only if no mark
      came late: for an identity given up by then, and not since subscribed, unmarked or taken. */
  lemma MarksAreWantedIff(enabled: bool, steps: seq<Step>)
    requires Run(enabled, START, steps).pending == []
    ensures var s := Run(enabled, START, steps);
            s.books.dirty <= s.books.wanted <==> forall id :: !HasLateMark(enabled, steps, id, |steps|)
  {
    hide Run, HasLateMark;
    assert steps[..|steps|] == steps;
    var s := Run(enabled, START, steps);
    forall id ensures Stray(s, id) <==> HasLateMark(enabled, steps, id, |steps|) {
      StrayIsLate(enabled, steps, id, |steps|);
    }
    if forall id :: !HasLateMark(enabled, steps, id, |steps|) {
      forall id | id in s.books.dirty ensures id in s.books.wanted {
        assert !Stray(s, id);
      }
    } else {
      var id :| HasLateMark(enabled, steps, id, |steps|);
      assert Stray(s, id);
    }
  }

  // ---- Schedules without late marks ----

  predicate Awaited(pending: seq<Task>, id: string)
  {
    exists i :: 0 <= i < |pending| && Marks(pending[i], id)
  }

  /** No unsubscription begins while a mark of its identity is to be made. */
  predicate Polite(enabled: bool, steps: seq<Step>, k: nat)
    requires k <= |steps|
  {
    forall i :: 0 <= i < k && steps[i].Begin? && steps[i].op.Unsubscribe? ==>
      !Awaited(At(enabled, steps, i).pending, steps[i].op.id)
  }

  predicate AwaitedIsWanted(s: Shared)
  {
    forall i :: 0 <= i < |s.pending| && s.pending[i].Mark? ==> s.pending[i].ids <= s.books.wanted
  }

  lemma NextKeepsAwaited(enabled: bool, s: Shared, step: Step)
    requires AwaitedIsWanted(s) && (step.Begin? && step.op.Unsubscribe? ==> !Awaited(s.pending, step.op.id))
    ensures AwaitedIsWanted(Next(enabled, s, step))
  {
    if step.Begin? && step.op.Unsubscribe? {
      forall i | 0 <= i < |s.pending| && s.pending[i].Mark? ensures step.op.id !in s.pending[i].ids {
        assert !Marks(s.pending[i], step.op.id);
      }
    }
  }

  lemma {:induction false} PoliteKeepsAwaited(enabled: bool, steps: seq<Step>, k: nat)
    requires k <= |steps| && Polite(enabled, steps, k)
    ensures AwaitedIsWanted(At(enabled, steps, k))
    decreases k
  {
    if k == 0 {
      assert steps[..0] == [];
    } else {
      PoliteKeepsAwaited(enabled, steps, k - 1);
      NextAt(enabled, steps, k - 1);
      NextKeepsAwaited(enabled, At(enabled, steps, k - 1), steps[k - 1]);
    }
  }

  /** On such a schedule marks are for wanted identities alone, once every operation is finished. */
  lemma PoliteMarksAreWanted(enabled: bool, steps: seq<Step>)
    requires Polite(enabled, steps, |steps|) && Run(enabled, START, steps).pending == []
    ensures var s := Run(enabled, START, steps); s.books.dirty <= s.books.wanted
  {
    forall id ensures !HasLateMark(enabled, steps, id, |steps|) {
      if HasLateMark(enabled, steps, id, |steps|) {
        var i: nat :| i < |steps| && LateMark(enabled, steps, id, i, |steps|);
        PoliteKeepsAwaited(enabled, steps, i);
        assert false;
      }
    }
    hide Run, HasLateMark;
    MarksAreWantedIff(enabled, steps);
  }

  const UPDATE := Update("a", Some(Bundle("1", [("d", "x")])), false)

  /** An update is kept, the identity goes, and only then is it marked. */
  const OVERTAKEN :=
    [Begin(Op.Subscribe("a")), Begin(Op.Receive(UPDATE)), Begin(Op.Unsubscribe("a")), Finish(1), Finish(0)]

  /** That order leaves a mark for an identity nobody wants. */
  lemma StrayMark()
    ensures var s := Run(true, START, OVERTAKEN);
            s.pending == [] && s.books.wanted == {} && s.books.dirty == {"a"}
  {
    var steps := OVERTAKEN;
    var s1 := Next(true, START, steps[0]);
    var s2 := Next(true, s1, steps[1]);
    var s3 := Next(true, s2, steps[2]);
    var s4 := Next(true, s3, steps[3]);
    var s5 := Next(true, s4, steps[4]);
    assert s2.pending == [Mark({"a"})] && s3.pending == [Mark({"a"}), Unmark("a")];
    assert s4.pending == [Mark({"a"})] && s5.pending == [];
    assert steps[1..][1..] == steps[2..] && steps[2..][1..] == steps[3..];
    assert steps[3..][1..] == steps[4..] && steps[4..][1..] == [];
    assert Run(true, s4, steps[4..]) == Run(true, s5, []) == s5;
    assert Run(true, s3, steps[3..]) == s5;
    assert Run(true, s2, steps[2..]) == s5;
    assert Run(true, s1, steps[1..]) == s5;
  }

  // ---- Changes ----

  lemma AwaitedMore(pending: seq<Task>, t: Task, id: string)
    ensures Awaited(pending + [t], id) <==> Awaited(pending, id) || Marks(t, id)
    ensures Unmark(id) in pending + [t] <==> Unmark(id) in pending || t == Unmark(id)
  {
    var more := pending + [t];
    assert more[|pending|] == t;
    assert forall i :: 0 <= i < |pending| ==> more[i] == pending[i];
  }

  lemma AwaitedFewer(pending: seq<Task>, i: nat, id: string)
    requires i < |pending|
    ensures var fewer := pending[..i] + pending[i + 1..];
            && (Awaited(pending, id) ==> Awaited(fewer, id) || Marks(pending[i], id))
            && (Unmark(id) in fewer ==> Unmark(id) in pending)
  {
    var fewer := pending[..i] + pending[i + 1..];
    if Awaited(pending, id) {
      var j :| 0 <= j < |pending| && Marks(pending[j], id);
      assert j < i ==> fewer[j] == pending[j];
      assert j > i ==> fewer[j - 1] == pending[j];
    }
  }

  /** Since the marks were last taken, when the bundle to publish was `then'`, either it has not changed
      or the identity is marked or about to be. */
  predicate Covered(s: Shared, id: string, then': Option<Bundle>)
  {
    && id in s.books.wanted && Unmark(id) !in s.pending
    && (BundleOf(s.books, id) == then' || id in s.books.dirty || Awaited(s.pending, id))
  }

  /** The bundle to publish when the marks were last taken. */
  function LastTaken(enabled: bool, s: Shared, steps: seq<Step>, id: string, then': Option<Bundle>): Option<Bundle>
    decreases |steps|
  {
    if steps == [] then then'
    else LastTaken(enabled, Next(enabled, s, steps[0]), steps[1..], id,
                   if steps[0].Take? then BundleOf(s.books, id) else then')
  }

  lemma FirstKeepsCovered(enabled: bool, b: Books, op: Op, id: string)
    requires id in b.wanted && op != Op.Unsubscribe(id)
    ensures var (b', task) := First(enabled, b, op);
            && id in b'.wanted && b'.dirty == b.dirty && task != Some(Unmark(id))
            && (BundleOf(b', id) == BundleOf(b, id) || (task.Some? && Marks(task.value, id)))
  {
  }

  lemma NextKeepsCovered(enabled: bool, s: Shared, step: Step, id: string, then': Option<Bundle>)
    requires Covered(s, id, then') && step != Begin(Op.Unsubscribe(id))
    ensures Covered(Next(enabled, s, step), id, if step.Take? then BundleOf(s.books, id) else then')
  {
    match step
    case Begin(op) =>
      hide First, Awaited;
      FirstKeepsCovered(enabled, s.books, op, id);
      var task := First(enabled, s.books, op).1;
      if task.Some? {
        AwaitedMore(s.pending, task.value, id);
      }
    case Finish(i) =>
      hide Awaited;
      if i < |s.pending| {
        AwaitedFewer(s.pending, i, id);
        assert s.pending[i] in s.pending;
      }
    case Take =>
  }

  /** In every run with takings, an identity followed all along whose bundle to publish has changed since
      the marks were last taken is marked or about to be, however the operations interleave. */
  lemma {:induction false} ChangesAreMarked(enabled: bool, s: Shared, steps: seq<Step>, id: string,
                                            then': Option<Bundle>)
    requires Covered(s, id, then') && Begin(Op.Unsubscribe(id)) !in steps
    ensures Covered(Run(enabled, s, steps), id, LastTaken(enabled, s, steps, id, then'))
    decreases |steps|
  {
    hide Covered, Next;
    if steps != [] {
      assert steps[0] in steps && forall x :: x in steps[1..] ==> x in steps;
      NextKeepsCovered(enabled, s, steps[0], id, then');
      ChangesAreMarked(enabled, Next(enabled, s, steps[0]), steps[1..], id,
                       if steps[0].Take? then BundleOf(s.books, id) else then');
    }
  }
}
