/** One poll of the rollout: fetch the manifest, verify it, work out this node's bundle, and put that
    bundle in place. */
module Poller {
  import opened Text
  import T = Tar
  import R = Rollout
  import opened BundleStore

  /** What a node is configured with. Hashing and the check of a bundle's own manifest belong to
      libraries and are left as functions. */
  datatype Config = Config(
    node: R.Node,
    maxBytes: nat,
    keep: nat,
    fullFetchEvery: nat,
    sha: T.Bytes -> string,
    valid: seq<T.Entry> -> bool)

  datatype Error = Fetch | Signature | Malformed | Rejected | Stale | Io

  /** What the registry serves during a poll. `confirms`: it answers 304 to a matching ETag. */
  datatype Served =
    | Down
    | Serving(etag: Option<string>, content: Result<R.Manifest, Error>, confirms: bool)

  /** Everything outside the node that one poll meets. */
  datatype Env = Env(
    served: Served,
    layer: bool,                     // the manifest's layer can be fetched
    now: int,
    blob: Option<T.Bytes>,             // the answer to a request for the bundle
    fault: Option<nat>,              // the call of the unpacking that fails, the clearing not counted
    linkFails: bool,
    readFails: bool,
    listing: seq<Listed>,            // the versions directory as listed while pruning
    removals: map<Listed, Removal>)  // how each removal goes

  datatype Fetched = Failed(error: Error)
    | Unchanged | Changed(content: Result<R.Manifest, Error>, etag: Option<string>)

  datatype Ended = Refused(error: Error) | NoChange | Applied(digest: string)

  /** The effects of a poll, the state afterwards, and how it ended. */
  datatype Outcome = Outcome(effects: seq<Effect>, state: State, ended: Ended)

  /** A node: the state it holds in memory, and its disk. */
  datatype Machine = Machine(state: State, disk: Disk)

  /** `current_etag`: only while the recorded bundle is unpacked here. */
  function CurrentEtag(disk: Disk, s: State): Option<string>
  {
    if s.digest == "" || !Has(disk, s.digest) || s.etag == "" then None else Some(s.etag)
  }

  /** The registry's answer to a request with or without an ETag. */
  function Answer(served: Served, sent: Option<string>): Fetched
  {
    match served
    case Down => Failed(Fetch)
    case Serving(etag, content, confirms) =>
      if confirms && sent.Some? && sent == etag then Unchanged else Changed(content, etag)
  }

  /** `remember_etag`. */
  function Remember(s: State, etag: Option<string>): State
  {
    if etag.Some? then s.(etag := etag.value) else s
  }

  function SaveEtag(s: State, etag: Option<string>): seq<Effect>
  {
    if etag.Some? then [Save(s.(etag := etag.value))] else []
  }

  /** `record_sequence`. */
  function Sequenced(s: State, m: R.Manifest): State
  {
    if m.sequence.Some? && m.sequence.value > s.lastSequence then s.(lastSequence := m.sequence.value) else s
  }

  function SaveSequence(s: State, m: R.Manifest): seq<Effect>
  {
    if Sequenced(s, m) != s then [Save(Sequenced(s, m))] else []
  }

  /** The digests `prune` keeps: the first `keep + 1` of the new and the previous one. */
  function Kept(keep: nat, bundle: string, previous: string): set<string>
  {
    var named := [bundle] + (if previous == "" then [] else [previous]);
    var n := (if keep < 1 then 1 else keep) + 1;
    set i | 0 <= i < |named| && i < n :: named[i]
  }

  /** Fetching and unpacking a bundle that is not there yet: the effects, and the error if it fails.
      A failed rename is followed by another attempt to clear the staging directory. */
  function Install(c: Config, disk: Disk, env: Env, bundle: string): (seq<Effect>, Option<Error>)
  {
    if env.blob.None? then ([], Some(Fetch))
    else if c.sha(env.blob.value) != bundle then ([], Some(Signature))
    else match T.Extracted(env.blob.value, c.maxBytes)
      case Err(e) => ([], Some(if e.Malformed? then Malformed else Rejected))
      case Ok(entries) =>
        if !c.valid(entries) then ([], Some(Rejected)) else WritingVersion(disk, env, bundle, entries)
  }

  /** `write_version`. */
  function WritingVersion(disk: Disk, env: Env, bundle: string, entries: seq<T.Entry>): (seq<Effect>, Option<Error>)
  {
    var r := RemovalOf(env.removals, Staging(bundle));
    var build := Building(bundle, entries);
    var stop := Stop(Leftover(disk, bundle, r), entries, env.fault);
    if stop >= |build| then (Clearing(bundle, r) + build, None)
    else if stop == |build| - 1 then (Clearing(bundle, r) + build[..stop] + Clearing(bundle, r), Some(Io))
    else (Clearing(bundle, r) + build[..stop], Some(Io))
  }

  /** How many calls of the unpacking succeed: up to the first blocked path or the injected fault. */
  function Stop(base: Files, entries: seq<T.Entry>, fault: Option<nat>): nat
  {
    var blocked := FirstBlocked(base, entries);
    if fault.Some? && fault.value < blocked then fault.value else blocked
  }

  /** The position of the first write that fails by itself, or past the end. */
  function FirstBlocked(base: Files, entries: seq<T.Entry>, from: nat := 0): nat
    decreases |entries| - from
  {
    if from >= |entries| then |entries| + 2
    else if Blocked(base + Unpacked(entries[..from]), entries[from].path) then from + 1
    else FirstBlocked(base, entries, from + 1)
  }

  /** Putting a ring's bundle in place, `s` being the state with the manifest's sequence recorded. */
  function Deploy(c: Config, disk: Disk, s: State, env: Env, ring: R.Ring, etag: Option<string>): Outcome
  {
    if s.digest == ring.bundle && Has(disk, ring.bundle) then Stay(s, ring, etag)
    else Replace(c, disk, s, env, ring, etag)
  }

  /** The bundle is already in place; at most the ring's name changes. */
  function Stay(s: State, ring: R.Ring, etag: Option<string>): Outcome
  {
    var same := Remember(s, etag);
    if s.ring == ring.name then Outcome(SaveEtag(s, etag), same, NoChange)
    else Outcome(SaveEtag(s, etag) + [Save(same.(ring := ring.name))], same.(ring := ring.name), NoChange)
  }

  /** What has to be unpacked first, if anything, and the error if that fails. */
  function Installing(c: Config, disk: Disk, env: Env, bundle: string): (seq<Effect>, Option<Error>)
  {
    if Has(disk, bundle) then ([], None) else Install(c, disk, env, bundle)
  }

  /** With the bundle unpacked: point `current` at it, read it back, record it, prune. */
  function Switching(c: Config, disk: Disk, s: State, env: Env, ring: R.Ring, etag: Option<string>): Outcome
  {
    if env.linkFails then Outcome([], s, Refused(Io))
    else if !Readable(disk, env, ring.bundle) then
      Outcome([Link(ring.bundle)], s, Refused(if env.readFails then Io else Rejected))
    else
      var next := s.(ring := ring.name, digest := ring.bundle);
      Outcome([Link(ring.bundle)] + Finishing(c, s, env, ring, etag), Remember(next, etag), Applied(ring.bundle))
  }

  /** Unpack the bundle unless it is there, then switch to it. */
  function Replace(c: Config, disk: Disk, s: State, env: Env, ring: R.Ring, etag: Option<string>): Outcome
  {
    var (unpacking, error) := Installing(c, disk, env, ring.bundle);
    if error.Some? then Outcome(unpacking, s, Refused(error.value))
    else
      var switch := Switching(c, ApplyAll(disk, unpacking), s, env, ring, etag);
      Outcome(unpacking + switch.effects, switch.state, switch.ended)
  }

  /** `read` succeeds: the version is there and has files. */
  predicate Readable(disk: Disk, env: Env, bundle: string)
  {
    !env.readFails && bundle in disk.versions && disk.versions[bundle] != map[]
  }

  /** Recording the new bundle, pruning, and only then the ETag. */
  function Finishing(c: Config, s: State, env: Env, ring: R.Ring, etag: Option<string>): seq<Effect>
  {
    var next := s.(ring := ring.name, digest := ring.bundle);
    [Save(next)] + Pruning(env.listing, Kept(c.keep, ring.bundle, s.digest), env.removals) + SaveEtag(next, etag)
  }

  /** The checks before a manifest counts as verified. */
  function Verified(s: State, env: Env, content: Result<R.Manifest, Error>): Result<R.Manifest, Error>
  {
    if !env.layer then Err(Fetch)
    else match content
      case Err(e) => Err(e)
      case Ok(m) => if R.Fresh(m, s.lastSequence, env.now) then Ok(m) else Err(Stale)
  }

  /** The saves every verified manifest leads to. */
  function Counting(s: State, m: R.Manifest): seq<Effect>
  {
    [Save(s)] + SaveSequence(s, m)
  }

  /** What is done about a verified manifest once it is counted. */
  function Acting(c: Config, disk: Disk, s: State, env: Env, m: R.Manifest, etag: Option<string>): Outcome
  {
    var target := R.Target(m.rings, c.node);
    if m.freeze || target.None? then Outcome(SaveEtag(s, etag), Remember(s, etag), NoChange)
    else Deploy(c, disk, s, env, target.value, etag)
  }

  function Process(c: Config, disk: Disk, s: State, env: Env, m: R.Manifest, etag: Option<string>): Outcome
  {
    var act := Acting(c, disk, Sequenced(s, m), env, m, etag);
    Outcome(Counting(s, m) + act.effects, act.state, act.ended)
  }

  /** `poll`, with the ETag left out when `full`. */
  function Poll(c: Config, full: bool, disk: Disk, s: State, env: Env): Outcome
  {
    match Answer(env.served, if full then None else CurrentEtag(disk, s))
    case Failed(e) => Outcome([], s, Refused(e))
    case Unchanged => Outcome([Save(s)], s, NoChange)
    case Changed(content, etag) =>
      match Verified(s, env, content)
      case Err(e) => Outcome([], s, Refused(e))
      case Ok(m) => Process(c, disk, s, env, m, etag)
  }
}
