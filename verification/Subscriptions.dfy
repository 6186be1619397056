/** Which identities a node follows policy for: the manager's books, the daemon's scan, and the
    messages that keep the backend in step. */
module Subscriptions {
  import opened Text

  function SetOf(ids: seq<string>): set<string>
  {
    set id | id in ids
  }

  lemma SetOfMore(ids: seq<string>, k: nat)
    requires k < |ids|
    ensures SetOf(ids[..k + 1]) == SetOf(ids[..k]) + {ids[k]} && SetOf(ids[..|ids|]) == SetOf(ids)
  {
  }

  datatype Bundle = Bundle(revision: string, documents: seq<(string, string)>)

  // ---- The manager ----

  datatype Books = Books(wanted: set<string>, bundles: map<string, Bundle>, fleet: Option<Bundle>, dirty: set<string>)

  const NEW := Books({}, map[], None, {})

  /** The bundle to publish: the identity's own, else the fleet's. */
  function BundleOf(b: Books, id: string): Option<Bundle>
  {
    if id in b.bundles then Some(b.bundles[id]) else b.fleet
  }

  /** An update from the stream; `bundle` is absent when it cannot be built. */
  datatype Update = Update(id: string, bundle: Option<Bundle>, markedEmpty: bool)

  datatype Op = Subscribe(id: string) | Unsubscribe(id: string) | Receive(update: Update) | Fleet(bundle: Bundle)

  predicate Acceptable(u: Update)
  {
    u.id != "" && u.bundle.Some? && (u.bundle.value.documents == [] ==> u.markedEmpty)
  }

  function Apply(enabled: bool, b: Books, op: Op): Books
  {
    match op
    case Subscribe(id) => if enabled then b.(wanted := b.wanted + {id}) else b
    case Unsubscribe(id) =>
      if enabled then b.(wanted := b.wanted - {id}, bundles := b.bundles - {id}, dirty := b.dirty - {id}) else b
    case Receive(u) =>
      if !Acceptable(u) || u.id !in b.wanted || (u.id in b.bundles && b.bundles[u.id] == u.bundle.value) then b
      else b.(bundles := b.bundles[u.id := u.bundle.value], dirty := b.dirty + {u.id})
    case Fleet(bundle) =>
      if b.fleet == Some(bundle) then b
      else b.(fleet := Some(bundle), dirty := b.dirty + (b.wanted - b.bundles.Keys))
  }

  /** Bundles only for wanted identities, and none at all when switched off. */
  predicate Tidy(enabled: bool, b: Books)
  {
    b.bundles.Keys <= b.wanted && (!enabled ==> b.wanted == {})
  }

  class Manager {
    const enabled: bool
    var books: Books

    constructor (enabled: bool)
      ensures this.enabled == enabled && books == NEW && Tidy(enabled, books)
    {
      this.enabled, books := enabled, NEW;
    }

    method Subscribe(id: string) returns (added: bool)
      modifies this
      ensures books == Apply(enabled, old(books), Op.Subscribe(id))
      ensures added == (enabled && id !in old(books).wanted)
    {
      added := enabled && id !in books.wanted;
      if enabled {
        books := books.(wanted := books.wanted + {id});
      }
    }

    method Unsubscribe(id: string) returns (removed: bool)
      modifies this
      ensures books == Apply(enabled, old(books), Op.Unsubscribe(id))
      ensures removed == (enabled && id in old(books).wanted)
    {
      removed := enabled && id in books.wanted;
      if enabled {
        books := books.(wanted := books.wanted - {id}, bundles := books.bundles - {id});
        books := books.(dirty := books.dirty - {id});
      }
    }

    /** The stream's `apply` and then the manager's: `changed` says whether the volume is worth
        rewriting. */
    method Receive(u: Update) returns (changed: bool)
      modifies this
      ensures books == Apply(enabled, old(books), Op.Receive(u))
      ensures changed <==> books != old(books)
    {
      if u.id == "" || u.bundle.None? || (u.bundle.value.documents == [] && !u.markedEmpty) {
        return false;
      }
      if u.id !in books.wanted || (u.id in books.bundles && books.bundles[u.id] == u.bundle.value) {
        return false;
      }
      ghost var before := books;
      books := books.(bundles := books.bundles[u.id := u.bundle.value], dirty := books.dirty + {u.id});
      assert u.id in before.bundles ==> before.bundles[u.id] != books.bundles[u.id];
      changed := true;
    }

    method ApplyFleet(bundle: Bundle) returns (changed: bool)
      modifies this
      ensures books == Apply(enabled, old(books), Fleet(bundle))
      ensures changed == (old(books).fleet != Some(bundle))
    {
      if books.fleet == Some(bundle) {
        return false;
      }
      books := books.(fleet := Some(bundle), dirty := books.dirty + (books.wanted - books.bundles.Keys));
      changed := true;
    }
  }

  // ---- The daemon's scan ----

  /** What a scan reads in one directory: nothing usable, an identity of another fleet, or one of ours. */
  datatype Reading = Unreadable | Foreign(id: string) | Ours(id: string)

  type Volumes = map<string, string>

  /** The volumes found: of readings of the same path the last counts. */
  function Found(readings: seq<(string, Reading)>): Volumes
  {
    if readings == [] then map[]
    else
      var rest, last := Found(readings[..|readings| - 1]), readings[|readings| - 1];
      if last.1.Ours? then rest[last.0 := last.1.id] else rest
  }

  /** Reading `i` is the last one of this path that is one of ours, and it says `id`. */
  predicate LastOurs(readings: seq<(string, Reading)>, p: string, id: string, i: nat)
  {
    && i < |readings| && readings[i] == (p, Ours(id))
    && forall j :: i < j < |readings| ==> !(readings[j].0 == p && readings[j].1.Ours?)
  }

  predicate FoundAt(found: Volumes, p: string, id: string)
  {
    p in found && found[p] == id
  }

  lemma {:induction false} FoundIsLast(readings: seq<(string, Reading)>, p: string, id: string)
    ensures FoundAt(Found(readings), p, id) <==> exists i :: LastOurs(readings, p, id, i)
    decreases |readings|
  {
    if readings != [] {
      var n := |readings| - 1;
      var init, last := readings[..n], readings[n];
      FoundIsLast(init, p, id);
      if last.1.Ours? && last.0 == p {
        assert last.1.id == id ==> LastOurs(readings, p, id, n);
      } else {
        forall i: nat ensures LastOurs(readings, p, id, i) == LastOurs(init, p, id, i) {
          if LastOurs(init, p, id, i) {
            assert readings[i] == init[i];
          }
        }
      }
    }
  }

  /** The identities of the volumes, in the order of `paths`, shared ones repeated. */
  function Ids(volumes: Volumes, paths: seq<string>): (ids: seq<string>)
    requires forall p :: p in paths ==> p in volumes
    ensures |ids| == |paths| && forall i :: 0 <= i < |paths| ==> ids[i] == volumes[paths[i]]
  {
    seq(|paths|, i requires 0 <= i < |paths| => assert paths[i] in paths; volumes[paths[i]])
  }

  predicate Lists(paths: seq<string>, volumes: Volumes)
  {
    SetOf(paths) == volumes.Keys
  }

  lemma IdsAreValues(volumes: Volumes, paths: seq<string>)
    requires Lists(paths, volumes)
    ensures (forall p :: p in paths ==> p in volumes) && SetOf(Ids(volumes, paths)) == volumes.Values
  {
  }

  function Without(ids: seq<string>, others: seq<string>): (r: seq<string>)
    ensures forall id :: id in r <==> id in ids && id !in others
  {
    if ids == [] then [] else (if ids[0] in others then [] else [ids[0]]) + Without(ids[1..], others)
  }

  lemma SetOfWithout(ids: seq<string>, others: seq<string>)
    ensures SetOf(Without(ids, others)) == SetOf(ids) - SetOf(others)
  {
  }

  lemma Exchange(before: set<string>, after: set<string>)
    ensures before + (after - before) - (before - after) == after
  {
  }

  class Daemon {
    const policy: Manager
    var volumes: Volumes

    constructor (enabled: bool)
      ensures policy.enabled == enabled && fresh(policy) && volumes == map[] && policy.books == NEW && InStep()
    {
      policy := new Manager(enabled);
      volumes := map[];
    }

    /** The wanted set is the identities of the volumes known. */
    ghost predicate InStep()
      reads this, policy
    {
      Tidy(policy.enabled, policy.books) && (policy.enabled ==> policy.books.wanted == volumes.Values)
    }

    /** The loop over the directories: a path is found with the identity of the last reading of it that
        is one of ours, and not at all without one. */
    method Discover(readings: seq<(string, Reading)>) returns (found: Volumes)
      ensures found == Found(readings)
      ensures forall p, id :: FoundAt(found, p, id) <==> exists i :: LastOurs(readings, p, id, i)
    {
      found := map[];
      for k := 0 to |readings|
        invariant found == Found(readings[..k])
      {
        assert readings[..k + 1][..k] == readings[..k];
        if readings[k].1.Ours? {
          found := found[readings[k].0 := readings[k].1.id];
        }
      }
      assert readings[..|readings|] == readings;
      forall p, id ensures FoundAt(found, p, id) <==> exists i :: LastOurs(readings, p, id, i) {
        FoundIsLast(readings, p, id);
      }
    }

    method SubscribeAll(ids: seq<string>)
      requires Tidy(policy.enabled, policy.books)
      modifies policy
      ensures policy.books == old(policy.books).(wanted := policy.books.wanted) && Tidy(policy.enabled, policy.books)
      ensures policy.enabled ==> policy.books.wanted == old(policy.books).wanted + SetOf(ids)
    {
      for k := 0 to |ids|
        invariant policy.books == old(policy.books).(wanted := policy.books.wanted)
        invariant Tidy(policy.enabled, policy.books)
        invariant policy.enabled ==> policy.books.wanted == old(policy.books).wanted + SetOf(ids[..k])
      {
        SetOfMore(ids, k);
        var _ := policy.Subscribe(ids[k]);
      }
      assert ids[..|ids|] == ids;
    }

    method UnsubscribeAll(ids: seq<string>)
      requires Tidy(policy.enabled, policy.books)
      modifies policy
      ensures Tidy(policy.enabled, policy.books) && policy.books.fleet == old(policy.books).fleet
      ensures policy.enabled ==> policy.books.wanted == old(policy.books).wanted - SetOf(ids)
      ensures policy.enabled ==> policy.books.bundles == old(policy.books).bundles - SetOf(ids)
    {
      for k := 0 to |ids|
        invariant Tidy(policy.enabled, policy.books) && policy.books.fleet == old(policy.books).fleet
        invariant policy.enabled ==> policy.books.wanted == old(policy.books).wanted - SetOf(ids[..k])
        invariant policy.enabled ==> policy.books.bundles == old(policy.books).bundles - SetOf(ids[..k])
      {
        SetOfMore(ids, k);
        var _ := policy.Unsubscribe(ids[k]);
      }
      assert ids[..|ids|] == ids;
    }

    /** `scan`, the two maps listed in any order: afterwards the wanted set is exactly the identities
        of the volumes found, and bundles of identities that stay are kept. */
    method Scan(readings: seq<(string, Reading)>, listed: seq<string>, relisted: seq<string>)
      returns (appeared: seq<string>, gone: seq<string>)
      requires InStep() && Lists(listed, volumes) && Lists(relisted, Found(readings))
      modifies this, policy
      ensures InStep() && volumes == Found(readings)
      ensures SetOf(appeared) == volumes.Values - old(volumes).Values
      ensures SetOf(gone) == old(volumes).Values - volumes.Values
      ensures policy.enabled ==> policy.books.bundles == old(policy.books).bundles - SetOf(gone)
    {
      hide SetOf, Found;
      var found := Discover(readings);
      IdsAreValues(volumes, listed);
      IdsAreValues(found, relisted);
      var before, after := Ids(volumes, listed), Ids(found, relisted);
      volumes := found;
      appeared, gone := Without(after, before), Without(before, after);
      SetOfWithout(after, before);
      SetOfWithout(before, after);
      Exchange(SetOf(before), SetOf(after));
      SubscribeAll(appeared);
      UnsubscribeAll(gone);
    }
  }

  // ---- Telling the backend ----

  datatype Message = Follow(id: string, revision: string) | Forget(id: string)

  /** What a backend that replays the messages believes the node wants. */
  function Told(log: seq<Message>): set<string>
  {
    if log == [] then {}
    else
      var before, last := Told(log[..|log| - 1]), log[|log| - 1];
      if last.Follow? then before + {last.id} else before - {last.id}
  }

  lemma ToldOne(log: seq<Message>, m: Message)
    ensures Told(log + [m]) == if m.Follow? then Told(log) + {m.id} else Told(log) - {m.id}
  {
  }

  function Named(wanted: seq<(string, string)>): (ids: seq<string>)
    ensures |ids| == |wanted| && forall i :: 0 <= i < |ids| ==> ids[i] == wanted[i].0
  {
    seq(|wanted|, i requires 0 <= i < |wanted| => wanted[i].0)
  }

  /** `wanted`: the identities with the revision already held of each, in some order. */
  predicate IsWanted(list: seq<(string, string)>, b: Books)
  {
    && SetOf(Named(list)) == b.wanted
    && forall i :: 0 <= i < |list| ==> list[i].1 == if list[i].0 in b.bundles then b.bundles[list[i].0].revision else ""
  }

  /** Messages from position `from` on that each tell the backend something it did not know. */
  predicate News(log: seq<Message>, from: nat)
  {
    forall k :: from <= k < |log| ==> (log[k].Follow? <==> log[k].id !in Told(log[..k]))
  }

  lemma NewsOne(log: seq<Message>, from: nat, m: Message)
    requires News(log, from) && (m.Follow? <==> m.id !in Told(log))
    ensures News(log + [m], from)
  {
    hide Told;
    var longer := log + [m];
    forall k | from <= k < |longer| ensures longer[k].Follow? <==> longer[k].id !in Told(longer[..k]) {
      assert longer[..k] == if k < |log| then log[..k] else log;
    }
  }

  predicate Unrepeated(ids: seq<string>)
  {
    forall i, j :: 0 <= i < j < |ids| ==> ids[i] != ids[j]
  }

  lemma NotBefore(ids: seq<string>, k: nat)
    requires Unrepeated(ids) && k < |ids|
    ensures ids[k] !in SetOf(ids[..k]) && ids[k] in SetOf(ids)
  {
  }

  lemma Bounds(ids: seq<string>)
    ensures SetOf(ids[..0]) == {} && SetOf(ids[..|ids|]) == SetOf(ids)
  {
  }

  /** One connection: what has been sent on it and what is believed subscribed. */
  class Connection {
    var sent: seq<string>
    var log: seq<Message>

    constructor ()
      ensures sent == [] && log == [] && Agreed()
    {
      sent, log := [], [];
    }

    ghost predicate Agreed()
      reads this
    {
      SetOf(sent) == Told(log) && Unrepeated(sent) && News(log, 0)
    }

    method Send(m: Message)
      requires News(log, 0) && (m.Follow? <==> m.id !in Told(log))
      modifies this`log
      ensures log == old(log) + [m] && News(log, 0)
      ensures Told(log) == if m.Follow? then old(Told(log)) + {m.id} else old(Told(log)) - {m.id}
    {
      ToldOne(log, m);
      NewsOne(log, 0, m);
      log := log + [m];
    }

    /** Subscribe to what is wanted and was not sent yet. */
    method FollowNew(wanted: seq<(string, string)>)
      requires Agreed()
      modifies this
      ensures Agreed() && Told(log) == old(Told(log)) + SetOf(Named(wanted)) && old(log) <= log
      ensures forall k :: |old(log)| <= k < |log| ==> log[k].Follow? && (log[k].id, log[k].revision) in wanted
    {
      hide Told, News, SetOf;
      ghost var ids := Named(wanted);
      Bounds(ids);
      for k := 0 to |wanted|
        invariant Agreed() && Told(log) == old(Told(log)) + SetOf(ids[..k]) && old(log) <= log
        invariant forall k :: |old(log)| <= k < |log| ==> log[k].Follow? && (log[k].id, log[k].revision) in wanted
      {
        SetOfMore(ids, k);
        var id := wanted[k].0;
        InSetOf(sent, id);
        if id !in sent {
          Send(Follow(id, wanted[k].1));
          Added(sent, id);
          sent := sent + [id];
        }
      }
    }

    /** Unsubscribe from what was sent and is wanted no longer. */
    method ForgetOld(wanted: seq<string>)
      requires Agreed() && SetOf(wanted) <= Told(log)
      modifies this
      ensures Agreed() && Told(log) == SetOf(wanted) && old(log) <= log
      ensures forall k :: |old(log)| <= k < |log| ==> log[k].Forget?
    {
      hide Told, News, SetOf;
      var kept, was := [], sent;
      Bounds(was);
      Bounds(kept);
      for k := 0 to |was|
        invariant News(log, 0) && old(log) <= log && forall k :: |old(log)| <= k < |log| ==> log[k].Forget?
        invariant SetOf(kept) == SetOf(was[..k]) * SetOf(wanted) && Unrepeated(kept)
        invariant Told(log) == SetOf(was) - (SetOf(was[..k]) - SetOf(wanted))
      {
        var id := was[k];
        SetOfMore(was, k);
        NotBefore(was, k);
        InSetOf(wanted, id);
        InSetOf(kept, id);
        if id in wanted {
          Added(kept, id);
          kept := kept + [id];
        } else {
          Send(Forget(id));
        }
      }
      sent := kept;
    }

    /** One pass of `sync_subscriptions`: whatever was told before, replaying every message sent on
        this connection now yields exactly the wanted set this pass read, and no message repeats what
        the backend knew. */
    method Pass(wanted: seq<(string, string)>, ghost b: Books)
      requires Agreed() && IsWanted(wanted, b)
      modifies this
      ensures Agreed() && Told(log) == b.wanted && old(log) <= log
      ensures forall k :: |old(log)| <= k < |log| && log[k].Follow? ==>
                log[k].revision == if log[k].id in b.bundles then b.bundles[log[k].id].revision else ""
    {
      hide Told, News, SetOf;
      FollowNew(wanted);
      ForgetOld(Named(wanted));
    }
  }

  lemma InSetOf(ids: seq<string>, id: string)
    ensures id in SetOf(ids) <==> id in ids
  {
  }

  lemma Added(ids: seq<string>, id: string)
    ensures SetOf(ids + [id]) == SetOf(ids) + {id}
  {
  }
}
