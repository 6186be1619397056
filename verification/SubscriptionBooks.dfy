/** What the books hold after any run, told from the requests and updates alone: the wanted identities,
    the bundle of each and the fleet's, however the operations interleave; and which marks one operation
    makes. */
module SubscriptionBooks {
  import opened Text
  import opened Subscriptions
  import opened SubscriptionLocks

  // ---- From the history ----

  /** The last request about this identity before step `k` was to subscribe it. */
  ghost predicate Follows(steps: seq<Step>, id: string, k: nat)
    requires k <= |steps|
  {
    exists i :: 0 <= i < k && steps[i] == Begin(Op.Subscribe(id)) && Lasts(steps, id, i, k)
  }

  /** No request to unsubscribe it comes after step `i`, up to step `k`. */
  predicate Lasts(steps: seq<Step>, id: string, i: nat, k: nat)
    requires k <= |steps|
  {
    forall j :: i < j < k ==> steps[j] != Begin(Op.Unsubscribe(id))
  }

  /** The step brings a bundle for this identity: one that could be built, and has documents unless the
      update says that it is empty. */
  predicate Brings(step: Step, id: string, bundle: Bundle)
  {
    && step.Begin? && step.op.Receive? && id != "" && step.op.update.id == id && step.op.update.bundle == Some(bundle)
    && (bundle.documents != [] || step.op.update.markedEmpty)
  }

  predicate BringsSome(step: Step, id: string)
  {
    step.Begin? && step.op.Receive? && step.op.update.bundle.Some? && Brings(step, id, step.op.update.bundle.value)
  }

  /** Step `i` brought the bundle while the identity was followed, and since then, up to step `k`, none was
      brought and nobody unsubscribed. */
  ghost predicate OwnFrom(steps: seq<Step>, id: string, bundle: Bundle, i: nat, k: nat)
    requires k <= |steps|
  {
    && i < k && Brings(steps[i], id, bundle) && Follows(steps, id, i) && Lasts(steps, id, i, k)
    && forall j :: i < j < k ==> !BringsSome(steps[j], id)
  }

  ghost predicate Own(steps: seq<Step>, id: string, bundle: Bundle, k: nat)
    requires k <= |steps|
  {
    exists i: nat :: OwnFrom(steps, id, bundle, i, k)
  }

  /** Step `i` is the last fleet bundle before step `k`. */
  predicate FleetFrom(steps: seq<Step>, bundle: Bundle, i: nat, k: nat)
    requires k <= |steps|
  {
    && i < k && steps[i] == Begin(Fleet(bundle))
    && forall j :: i < j < k ==> !(steps[j].Begin? && steps[j].op.Fleet?)
  }

  ghost predicate Fleetwide(steps: seq<Step>, bundle: Bundle, k: nat)
    requires k <= |steps|
  {
    exists i: nat :: FleetFrom(steps, bundle, i, k)
  }

  lemma FollowsNext(steps: seq<Step>, id: string, k: nat)
    requires k < |steps|
    ensures Follows(steps, id, k + 1) <==>
              steps[k] == Begin(Op.Subscribe(id)) || (Follows(steps, id, k) && steps[k] != Begin(Op.Unsubscribe(id)))
  {
    if steps[k] == Begin(Op.Subscribe(id)) {
      assert Lasts(steps, id, k, k + 1);
    }
    if Follows(steps, id, k) && steps[k] != Begin(Op.Unsubscribe(id)) {
      var i :| 0 <= i < k && steps[i] == Begin(Op.Subscribe(id)) && Lasts(steps, id, i, k);
      assert Lasts(steps, id, i, k + 1);
    }
    if Follows(steps, id, k + 1) {
      var i :| 0 <= i < k + 1 && steps[i] == Begin(Op.Subscribe(id)) && Lasts(steps, id, i, k + 1);
      assert i < k ==> Lasts(steps, id, i, k);
    }
  }

  lemma OwnNext(steps: seq<Step>, id: string, bundle: Bundle, k: nat)
    requires k < |steps|
    ensures Own(steps, id, bundle, k + 1) <==>
              || (Brings(steps[k], id, bundle) && Follows(steps, id, k))
              || (Own(steps, id, bundle, k) && !BringsSome(steps[k], id) && steps[k] != Begin(Op.Unsubscribe(id)))
  {
    hide Follows, Brings;
    if Brings(steps[k], id, bundle) && Follows(steps, id, k) {
      assert OwnFrom(steps, id, bundle, k, k + 1);
    }
    if Own(steps, id, bundle, k) && !BringsSome(steps[k], id) && steps[k] != Begin(Op.Unsubscribe(id)) {
      var i: nat :| OwnFrom(steps, id, bundle, i, k);
      assert OwnFrom(steps, id, bundle, i, k + 1);
    }
    if Own(steps, id, bundle, k + 1) {
      var i: nat :| OwnFrom(steps, id, bundle, i, k + 1);
      assert i < k ==> OwnFrom(steps, id, bundle, i, k);
    }
  }

  lemma FleetNext(steps: seq<Step>, bundle: Bundle, k: nat)
    requires k < |steps|
    ensures Fleetwide(steps, bundle, k + 1) <==>
              || steps[k] == Begin(Fleet(bundle))
              || (Fleetwide(steps, bundle, k) && !(steps[k].Begin? && steps[k].op.Fleet?))
  {
    if steps[k] == Begin(Fleet(bundle)) {
      assert FleetFrom(steps, bundle, k, k + 1);
    }
    if Fleetwide(steps, bundle, k) && !(steps[k].Begin? && steps[k].op.Fleet?) {
      var i: nat :| FleetFrom(steps, bundle, i, k);
      assert FleetFrom(steps, bundle, i, k + 1);
    }
    if Fleetwide(steps, bundle, k + 1) {
      var i: nat :| FleetFrom(steps, bundle, i, k + 1);
      assert i < k ==> FleetFrom(steps, bundle, i, k);
    }
  }

  predicate Holds(b: Books, id: string, bundle: Bundle)
  {
    id in b.bundles && b.bundles[id] == bundle
  }

  /** One step on the books, in the same terms. */
  lemma BooksNext(b: Books, s: Shared, step: Step, id: string, bundle: Bundle)
    requires b == s.books
    ensures var b' := Next(true, s, step).books;
            && (id in b'.wanted <==>
                  step == Begin(Op.Subscribe(id)) || (id in b.wanted && step != Begin(Op.Unsubscribe(id))))
            && (Holds(b', id, bundle) <==>
                  || (Brings(step, id, bundle) && id in b.wanted)
                  || (Holds(b, id, bundle) && !(BringsSome(step, id) && id in b.wanted)
                      && step != Begin(Op.Unsubscribe(id))))
            && (b'.fleet == Some(bundle) <==>
                  step == Begin(Fleet(bundle)) || (b.fleet == Some(bundle) && !(step.Begin? && step.op.Fleet?)))
  {
  }

  /** After any interleaving an identity is wanted if its last request was to subscribe; its bundle is the
      last one brought while it was followed and since it last was; and the fleet's is the last one sent. */
  lemma {:induction false} BooksAreHistory(steps: seq<Step>, id: string, bundle: Bundle, k: nat)
    requires k <= |steps|
    ensures var b := At(true, steps, k).books;
            && (id in b.wanted <==> Follows(steps, id, k))
            && (Holds(b, id, bundle) <==> Own(steps, id, bundle, k))
            && (b.fleet == Some(bundle) <==> Fleetwide(steps, bundle, k))
    decreases k
  {
    hide Follows, Own, Fleetwide, Next, At, Brings, BringsSome, Holds;
    if k == 0 {
      AtStart(steps, id, bundle);
    } else {
      BooksAreHistory(steps, id, bundle, k - 1);
      NextAt(true, steps, k - 1);
      var s := At(true, steps, k - 1);
      BooksNext(s.books, s, steps[k - 1], id, bundle);
      FollowsNext(steps, id, k - 1);
      OwnNext(steps, id, bundle, k - 1);
      FleetNext(steps, bundle, k - 1);
      HeldIsFollowed(steps, id, bundle, k - 1);
    }
  }

  lemma AtStart(steps: seq<Step>, id: string, bundle: Bundle)
    ensures At(true, steps, 0) == START && START.books == NEW
    ensures !Follows(steps, id, 0) && !Own(steps, id, bundle, 0) && !Fleetwide(steps, bundle, 0)
    ensures id !in NEW.wanted && !Holds(NEW, id, bundle) && NEW.fleet.None?
  {
    assert steps[..0] == [];
  }

  lemma HeldIsFollowed(steps: seq<Step>, id: string, bundle: Bundle, k: nat)
    requires k <= |steps|
    ensures Own(steps, id, bundle, k) ==> Follows(steps, id, k)
  {
    if i: nat :| OwnFrom(steps, id, bundle, i, k) {
      var j :| 0 <= j < i && steps[j] == Begin(Op.Subscribe(id)) && Lasts(steps, id, j, i);
      assert steps[i] != Begin(Op.Unsubscribe(id));
      assert Lasts(steps, id, j, k);
    }
  }

  // ---- Marks of one operation ----

  function OwnBundle(b: Books, id: string): Option<Bundle>
  {
    if id in b.bundles then Some(b.bundles[id]) else None
  }

  /** An operation marks the wanted identities whose own bundle it changed, and with a new fleet bundle those
      that have none of their own; unsubscribing takes the mark off, and no other mark is lost. */
  lemma MarkedIff(enabled: bool, b: Books, op: Op, id: string)
    requires Tidy(enabled, b)
    ensures var b' := Apply(enabled, b, op);
            id in b'.dirty <==>
              || (id in b.dirty && !(enabled && op == Op.Unsubscribe(id)))
              || (id in b'.wanted && OwnBundle(b', id) != OwnBundle(b, id))
              || (id in b'.wanted && OwnBundle(b, id).None? && b'.fleet != b.fleet)
  {
  }
}
