/** Runs of the poller from the very first start in which something promised does not happen, for
    every configuration whose hash tells three small bundles apart. */
module PollerCases {
  import opened Text
  import T = Tar
  import W = TarWrite
  import R = Rollout
  import opened BundleStore
  import opened Poller
  import opened PollerRuns
  import opened PollerEnds

  const START := Machine(BLANK, EMPTY)

  // ---- Three bundles ----

  /** Two files that hold the byte `n`. */
  function Entries(n: T.Byte): seq<T.Entry>
  {
    [T.Entry("p", [n]), T.Entry("q", [n])]
  }

  function Both(n: T.Byte): Files
  {
    map["p" := [n], "q" := [n]]
  }

  /** What the archives are built from. */
  function Sources(n: T.Byte): W.Files
  {
    [W.Source(W.Ascii("p"), [n]), W.Source(W.Ascii("q"), [n])]
  }

  lemma Letter(s: string)
    requires |s| == 1 && 'a' <= s[0] <= 'z'
    ensures W.IsAscii(s) && W.ReadsAsPath(W.Ascii(s), s)
  {
    W.DecodeAscii(s);
    assert Trim(s) == s;
    assert Find(s, '/') == 1;
    assert SplitOn(s, '/') == [s];
    assert T.StripDotSlash(s) == s;
  }

  lemma SourcesComeBack(n: T.Byte)
    ensures W.AllComeBack(Sources(n), Entries(n)) && T.TotalSize(Entries(n)) == 2
  {
    Letter("p");
    Letter("q");
    var es := Entries(n);
    assert es[1..] == [T.Entry("q", [n])] && es[1..][1..] == [];
    assert T.TotalSize(es[1..]) == 1;
  }

  function Blob(n: T.Byte): T.Bytes
  {
    W.Built(Sources(n))
  }

  lemma BlobExtracts(n: T.Byte, limit: nat)
    requires limit >= 2
    ensures T.Extracted(Blob(n), limit) == Ok(Entries(n))
  {
    SourcesComeBack(n);
    W.ExtractUndoesBuild(Sources(n), Entries(n), limit);
  }

  lemma EntriesUnpack(n: T.Byte)
    ensures Unpacked(Entries(n)) == Both(n) && FirstBlocked(map[], Entries(n)) == 4
  {
    var es := Entries(n);
    assert es[..1] == [es[0]] && es[..1][..0] == [] && es[..0] == [];
    assert Unpacked(es[..1]) == map["p" := [n]];
    assert !Blocked(map[] + Unpacked(es[..0]), "p");
    assert !Blocked(map[] + Unpacked(es[..1]), "q");
    assert FirstBlocked(map[], es, 2) == 4;
  }

  /** The bundles pass the node's own checks and have three different digests. */
  predicate TellsApart(c: Config)
  {
    && c.maxBytes >= 2 && c.valid(Entries(1)) && c.valid(Entries(2)) && c.valid(Entries(3))
    && c.sha(Blob(1)) != c.sha(Blob(2)) && c.sha(Blob(1)) != c.sha(Blob(3)) && c.sha(Blob(2)) != c.sha(Blob(3))
    && c.sha(Blob(1)) != "" && c.sha(Blob(2)) != "" && c.sha(Blob(3)) != ""
  }

  lemma BlobHolds(n: T.Byte)
    ensures |Blob(n)| > 512 && Blob(n)[512] == n
  {
    var f := Sources(n)[0];
    var unit := W.Unit(f);
    W.UnitLayout(f);
    assert unit[512..513][0] == n;
    assert Blob(n) == unit + W.Built(Sources(n)[1..]);
  }

  /** There are such configurations. */
  lemma SomeTellApart(node: R.Node)
    ensures TellsApart(Config(node, 2, 1, 0, (b: T.Bytes) => if |b| > 512 then [b[512] as char] else "",
                              (es: seq<T.Entry>) => true))
  {
    hide Blob;
    BlobHolds(1);
    BlobHolds(2);
    BlobHolds(3);
  }

  predicate IsOne(n: T.Byte)
  {
    n == 1 || n == 2 || n == 3
  }

  /** One ring for every node. */
  function Ring(c: Config, n: T.Byte): R.Ring
  {
    R.Ring("all", R.Match([], None, []), c.sha(Blob(n)))
  }

  /** The registry serves bundle `n` under sequence `q`. */
  function Serves(c: Config, n: T.Byte, q: nat, listing: seq<Listed>, removals: map<Listed, Removal>): Env
  {
    Env(Serving(None, Ok(R.Manifest(false, Some(q), None, [Ring(c, n)])), false), true, 0, Some(Blob(n)), None, false,
        false, listing, removals)
  }

  lemma Seeks(c: Config, full: bool, disk: Disk, s: State, n: T.Byte, q: nat, env: Env)
    requires s.lastSequence <= q && env.served == Serves(c, n, q, [], map[]).served && env.layer
    requires s.digest != c.sha(Blob(n)) || !Has(disk, c.sha(Blob(n)))
    ensures Sought(c, full, disk, s, env) == Some(Ring(c, n))
    ensures Accepted(full, disk, s, env) == Some((R.Manifest(false, Some(q), None, [Ring(c, n)]), None))
  {
    hide Blob;
    assert R.Matches(Ring(c, n).match_, c.node);
  }

  /** Nothing stands in the way of unpacking bundle `n`. */
  lemma Installs(c: Config, disk: Disk, n: T.Byte, env: Env)
    requires TellsApart(c) && IsOne(n) && env.blob == Some(Blob(n)) && env.fault.None?
    requires !RemovalOf(env.removals, Staging(c.sha(Blob(n)))).fails && !Has(disk, c.sha(Blob(n)))
    ensures Installing(c, disk, env, c.sha(Blob(n))).1.None?
    ensures HasBundle(c, env) && Unpacking(c, disk, env, c.sha(Blob(n))) == Both(n)
  {
    hide Blob, RemovalOf, Building, Clearing, Unpacked, FirstBlocked, T.Extracted;
    BlobExtracts(n, c.maxBytes);
    EntriesUnpack(n);
    BuildingShape(c.sha(Blob(n)), Entries(n));
    assert map[] + Both(n) == Both(n);
  }

  /** A poll for a bundle not there yet, whose read back succeeds, applies it. */
  lemma FirstTime(c: Config, disk: Disk, s: State, n: T.Byte, q: nat, env: Env)
    requires TellsApart(c) && IsOne(n) && env == Serves(c, n, q, env.listing, env.removals)
    requires s.lastSequence <= q && !Has(disk, c.sha(Blob(n)))
    requires !RemovalOf(env.removals, Staging(c.sha(Blob(n)))).fails
    ensures Linked(c, false, disk, s, env) == Some(c.sha(Blob(n))) && !Unreadable(c, false, disk, s, env)
    ensures Poll(c, false, disk, s, env).ended == Applied(c.sha(Blob(n)))
    ensures Sought(c, false, disk, s, env) == Some(Ring(c, n))
    ensures Numbered(s, Accepted(false, disk, s, env)).lastSequence == q
  {
    hide Blob, Installing, Poll, ApplyAll, RemovalOf, TellsApart, Unpacking, HasBundle;
    Seeks(c, false, disk, s, n, q, env);
    Installs(c, disk, n, env);
    InstallingWhole(c, disk, env, c.sha(Blob(n)));
    assert "p" in Both(n);
    CurrentIsExact(c, false, disk, s, env);
  }

  /** The machine after bundle `n` was put in place with nothing pruned. */
  lemma Adds(c: Config, m: Machine, n: T.Byte, q: nat)
    requires TellsApart(c) && IsOne(n) && m.state.lastSequence <= q && !Has(m.disk, c.sha(Blob(n)))
    ensures var after := After(c, m, Polled(Serves(c, n, q, [], map[]), false));
            && after.disk.versions == m.disk.versions[c.sha(Blob(n)) := Both(n)]
            && after.state.digest == c.sha(Blob(n)) && after.state.lastSequence == q
  {
    hide Blob, Poll, ApplyAll, TellsApart, Linked, Unreadable, Unpacking, HasBundle;
    var env, d := Serves(c, n, q, [], map[]), c.sha(Blob(n));
    FirstTime(c, m.disk, m.state, n, q, env);
    Installs(c, m.disk, n, env);
    var after := After(c, m, Polled(env, false)).disk.versions;
    forall x ensures x in after <==> x == d || x in m.disk.versions
             ensures x in after && x != d ==> after[x] == m.disk.versions[x] {
      AppliedVersions(c, false, m.disk, m.state, env, x);
    }
    AppliedVersions(c, false, m.disk, m.state, env, d);
    AppliedState(c, m, n, q);
  }

  lemma AppliedState(c: Config, m: Machine, n: T.Byte, q: nat)
    requires TellsApart(c) && IsOne(n) && m.state.lastSequence <= q && !Has(m.disk, c.sha(Blob(n)))
    ensures var o := Poll(c, false, m.disk, m.state, Serves(c, n, q, [], map[]));
            o.state.digest == c.sha(Blob(n)) && o.state.lastSequence == q
  {
    hide Blob, Poll, ApplyAll, TellsApart, Installing;
    var env := Serves(c, n, q, [], map[]);
    FirstTime(c, m.disk, m.state, n, q, env);
    SoughtIsReplaced(c, false, m.disk, m.state, env);
  }

  // ---- A refused poll that moves `current` ----

  /** On the first poll of all, the bundle unpacks and is linked, but cannot be read back: the poll is
      refused, nothing is recorded, and `current` points at the bundle. */
  lemma RefusedMovesCurrent(c: Config)
    requires TellsApart(c)
    ensures var env := Serves(c, 1, 1, [], map[]).(readFails := true);
            var o := Poll(c, false, EMPTY, BLANK, env);
            && o.ended.Refused? && o.state.digest == BLANK.digest
            && EMPTY.current == None && ApplyAll(EMPTY, o.effects).current == Some(c.sha(Blob(1)))
  {
    hide Blob, Installing, Poll, ApplyAll;
    var env := Serves(c, 1, 1, [], map[]).(readFails := true);
    Seeks(c, false, EMPTY, BLANK, 1, 1, env);
    Installs(c, EMPTY, 1, env);
    CurrentIsExact(c, false, EMPTY, BLANK, env);
    RefusedChangesLittle(c, false, EMPTY, BLANK, env);
  }

  // ---- A version torn by a stop ----

  /** The third poll removes the first bundle, and would delete file `p` of it first. */
  function Third(c: Config): Env
  {
    Serves(c, 3, 3, [Version(c.sha(Blob(1)))], map[Version(c.sha(Blob(1))) := Removal({"p"}, false)])
  }

  function Two(c: Config): Machine
  {
    After(c, After(c, START, Polled(Serves(c, 1, 1, [], map[]), false)), Polled(Serves(c, 2, 2, [], map[]), false))
  }

  lemma TwoIs(c: Config)
    requires TellsApart(c)
    ensures var m := Two(c);
            && m.disk.versions == map[c.sha(Blob(1)) := Both(1), c.sha(Blob(2)) := Both(2)]
            && m.state.digest == c.sha(Blob(2)) && m.state.lastSequence == 2
  {
    hide Blob, After;
    Adds(c, START, 1, 1);
    Adds(c, After(c, START, Polled(Serves(c, 1, 1, [], map[]), false)), 2, 2);
  }

  function Calls3(c: Config): nat
    requires TellsApart(c)
  {
    TwoIs(c);
    FirstTime(c, Two(c).disk, Two(c).state, 3, 3, Third(c));
    CallsToTear(c, false, Two(c).disk, Two(c).state, Third(c))
  }

  /** Three bundles are rolled out from a first start, and the third poll is stopped while it removes
      the first bundle: part of it is left under its own name. */
  lemma StopLeavesTornVersion(c: Config)
    requires TellsApart(c)
    ensures var m := After(c, Two(c), Stopped(Third(c), false, Calls3(c)));
            && c.sha(Blob(1)) in m.disk.versions && m.disk.versions[c.sha(Blob(1))] == map["q" := [1]]
            && m.state.digest == c.sha(Blob(3)) && m.state.lastSequence == 3
  {
    hide Blob, After, Linked, Unreadable, Sought, Accepted;
    TwoIs(c);
    var m := Two(c);
    FirstTime(c, m.disk, m.state, 3, 3, Third(c));
    assert Linked(c, false, m.disk, m.state, Third(c)) == Some(c.sha(Blob(3)));
    StopTears(c, false, m, Third(c), c.sha(Blob(1)));
    assert Both(1) - {"p"} == map["q" := [1]];
  }

  /** The next start takes it for the bundle: a poll that sends the node back to it fetches nothing and
      applies it with a file missing. */
  lemma TornVersionIsApplied(c: Config, blob: Option<T.Bytes>)
    requires TellsApart(c)
    ensures var m := After(c, Two(c), Stopped(Third(c), false, Calls3(c)));
            var env := Serves(c, 1, 4, [], map[]).(blob := blob);
            var o := Poll(c, false, m.disk, m.state, env);
            var after := ApplyAll(m.disk, o.effects).versions;
            && o.ended == Applied(c.sha(Blob(1)))
            && c.sha(Blob(1)) in after && after[c.sha(Blob(1))] == map["q" := [1]] != Unpacked(Entries(1))
  {
    hide Blob, Poll, ApplyAll, After;
    StopLeavesTornVersion(c);
    var m := After(c, Two(c), Stopped(Third(c), false, Calls3(c)));
    var env := Serves(c, 1, 4, [], map[]).(blob := blob);
    Seeks(c, false, m.disk, m.state, 1, 4, env);
    assert "q" in map["q" := [1 as T.Byte]];
    FoundIsApplied(c, false, m.disk, m.state, env, c.sha(Blob(1)), blob);
    EntriesUnpack(1);
    assert "p" in Both(1) && "p" !in map["q" := [1 as T.Byte]];
  }

  // ---- A version torn without any stop ----

  /** The same poll carried out to the end, with the removal failing after the first file: the poll
      succeeds and the version is torn. */
  lemma FailedRemovalTears(c: Config)
    requires TellsApart(c)
    ensures var env := Third(c).(removals := map[Version(c.sha(Blob(1))) := Removal({"p"}, true)]);
            var o := Poll(c, false, Two(c).disk, Two(c).state, env);
            var after := ApplyAll(Two(c).disk, o.effects).versions;
            && o.ended == Applied(c.sha(Blob(3)))
            && c.sha(Blob(1)) in after && after[c.sha(Blob(1))] != Both(1)
  {
    hide Blob, Poll, ApplyAll, After;
    TwoIs(c);
    var m, env := Two(c), Third(c).(removals := map[Version(c.sha(Blob(1))) := Removal({"p"}, true)]);
    FirstTime(c, m.disk, m.state, 3, 3, env);
    AppliedVersions(c, false, m.disk, m.state, env, c.sha(Blob(1)));
    assert "p" in Removal({"p"}, true).gone * Both(1).Keys;
  }

  // ---- A manifest forgotten ----

  /** A poll stopped after its first call has verified its manifest and not recorded the sequence, so a
      lower one is accepted afterwards. */
  lemma StopForgetsSequence(c: Config)
    ensures var m := After(c, START, Stopped(Serves(c, 1, 5, [], map[]), false, 1));
            && m.state.lastSequence == 0
            && Counted(c, START, Stopped(Serves(c, 1, 5, [], map[]), false, 1)) == None
            && Counted(c, START, Polled(Serves(c, 1, 5, [], map[]), false)).Some?
            && Counted(c, m, Polled(Serves(c, 2, 3, [], map[]), false)).Some?
            && Counted(c, m, Polled(Serves(c, 2, 3, [], map[]), false)).value.sequence == Some(3)
  {
    hide Blob, Acting;
    var man := R.Manifest(false, Some(5), None, [Ring(c, 1)]);
    var act := Acting(c, EMPTY, Sequenced(BLANK, man), Serves(c, 1, 5, [], map[]), man, None).effects;
    CutConcat(Counting(BLANK, man), act, 1);
    assert Cut(Counting(BLANK, man), 1) == [Save(BLANK)];
    ApplyOne(EMPTY, Save(BLANK));
  }
}
