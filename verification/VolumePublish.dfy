/** One publication carried out from beginning to end with nobody stopping it: the calls of
    `publish_identity`, `publish_policy` and `publish_tokens` in program order, each a step of the
    volume's state machine. */
module VolumePublish {
  import opened Text
  import opened VolumeNames
  import opened Volume
  import opened VolumeRuns

  /** A directory listing: the rendered name of every entry and nothing else, in any order. */
  ghost predicate IsListing(names: seq<string>, e: Entries)
  {
    && (forall x :: x in e ==> Render(x) in names)
    && (forall s :: s in names ==> exists x :: x in e && Render(x) == s)
    && Listable(e)
  }

  /** Version numbers fit the integers they are parsed into. */
  ghost predicate Listable(e: Entries)
  {
    forall x :: x in e && x.Version? ==> x.n < U64
  }

  /** `read_dir`. */
  method ListDir(e: Entries) returns (names: seq<string>)
    requires Listable(e)
    ensures IsListing(names, e)
  {
    names := [];
    var left := e.Keys;
    while left != {}
      invariant left <= e.Keys && forall x :: x in e && x !in left ==> Render(x) in names
      invariant forall s :: s in names ==> exists x :: x in e && Render(x) == s
      decreases left
    {
      var x :| x in left;
      names := names + [Render(x)];
      left := left - {x};
    }
  }

  /** The two directories differ at most in the names given. */
  ghost predicate SameBut(e: Entries, e': Entries, names: iset<Name>)
  {
    forall x :: x !in names ==> (x in e <==> x in e') && (x in e ==> e'[x] == e[x])
  }

  /** The names of the other chains are left alone. */
  ghost predicate OthersAlone(c: Chain, e: Entries, e': Entries)
  {
    SameBut(e, e', iset x | Owner(x) == c)
  }

  lemma OwnNames(c: Chain, e: Entries, e': Entries, names: iset<Name>)
    requires SameBut(e, e', names) && forall x :: x in names ==> Owner(x) == c
    ensures OthersAlone(c, e, e')
  {
  }

  lemma SwapLeavesOthers(c: Chain, e: Entries, v: nat)
    ensures OthersAlone(c, e, (e - {DataTmp(c)})[Data(c) := ToVersion(c, v)])
  {
  }

  lemma AloneTwice(c: Chain, e: Entries, e': Entries, e'': Entries)
    requires OthersAlone(c, e, e') && OthersAlone(c, e', e'')
    ensures OthersAlone(c, e, e'')
  {
  }

  lemma LinksAreOwn(c: Chain, f: FileName)
    requires f in VisibleFiles(c)
    ensures Owner(Visible(f)) == c
  {
  }

  lemma InListing(names: seq<string>, e: Entries, x: Name)
    requires IsListing(names, e) && x in e
    ensures Render(x) in names && (x.Version? ==> x.n < U64)
  {
  }

  lemma FromListing(names: seq<string>, e: Entries, s: string) returns (x: Name)
    requires IsListing(names, e) && s in names
    ensures x in e && Render(x) == s && (x.Version? ==> x.n < U64)
  {
    x :| x in e && Render(x) == s;
  }

  /** What `next_version` reads off the listing is what the state machine takes as the next version. */
  lemma ListingGivesNext(names: seq<string>, c: Chain, e: Entries, v: nat)
    requires IsListing(names, e) && v >= 1 && AllBelow(names, Prefix(c), v)
    requires v == 1 || exists i :: 0 <= i < |names| && VersionOf(names[i], Prefix(c)) == Some(v - 1)
    ensures IsNext(c, e, v)
  {
    hide IsListing, Render, VersionOf;
    forall n: nat | Version(c, n) in e ensures n < v {
      InListing(names, e, Version(c, n));
      VersionOfIsExact(Version(c, n), c);
      var i :| 0 <= i < |names| && names[i] == Render(Version(c, n));
    }
    if v > 1 {
      var i :| 0 <= i < |names| && VersionOf(names[i], Prefix(c)) == Some(v - 1);
      var x := FromListing(names, e, names[i]);
      VersionOfIsExact(x, c);
      assert x == Version(c, v - 1);
    }
  }

  /** `remove_dir_all` on the documents of one tree. */
  method EmptyTree(c: Chain, e0: Entries, ghost w: Writer, n: nat, f: FileName) returns (e: Entries)
    requires Inv(c, e0, w) && w.phase.Collecting? && Stale(n, w.phase.v)
    requires Version(c, n) in e0 && e0[Version(c, n)].Dir? && f in e0[Version(c, n)].files
    requires e0[Version(c, n)].files[f].Tree?
    ensures Inv(c, e, w) && e.Keys == e0.Keys
    ensures e[Version(c, n)] == Dir(e0[Version(c, n)].files[f := Tree(map[])])
    ensures forall x :: x in e && x != Version(c, n) ==> e[x] == e0[x]
  {
    e := e0;
    var files0 := e0[Version(c, n)].files;
    var docs := files0[f].docs;
    assert files0[f := Tree(docs)] == files0;
    while docs != map[]
      invariant Inv(c, e, w) && e.Keys == e0.Keys && e[Version(c, n)] == Dir(files0[f := Tree(docs)])
      invariant forall x :: x in e && x != Version(c, n) ==> e[x] == e0[x]
      decreases docs.Keys
    {
      var d :| d in docs.Keys;
      var files := files0[f := Tree(docs)];
      var files' := files0[f := Tree(docs - {d})];
      assert files' == files[f := Tree(files[f].docs - {d})];
      assert Unlinked(files, files');
      var e' := e[Version(c, n) := Dir(files')];
      assert StepErase(c, e, w, e', w);
      StepKeepsInv(c, e, w, e', w);
      e := e';
      docs := docs - {d};
    }
  }

  /** `remove_dir_all` on one version directory. */
  method RemoveVersion(c: Chain, e0: Entries, ghost w: Writer, n: nat) returns (e: Entries)
    requires Inv(c, e0, w) && w.phase.Collecting? && Stale(n, w.phase.v)
    requires Version(c, n) in e0 && e0[Version(c, n)].Dir?
    ensures Inv(c, e, w) && e == e0 - {Version(c, n)}
  {
    e := e0;
    var files := e[Version(c, n)].files;
    while files != map[]
      invariant Inv(c, e, w) && e.Keys == e0.Keys && e[Version(c, n)] == Dir(files)
      invariant forall x :: x in e && x != Version(c, n) ==> e[x] == e0[x]
      decreases files.Keys
    {
      var f :| f in files.Keys;
      if files[f].Tree? {
        e := EmptyTree(c, e, w, n, f);
        files := files[f := Tree(map[])];
      }
      var e' := e[Version(c, n) := Dir(files - {f})];
      assert Unlinked(files, files - {f});
      assert StepErase(c, e, w, e', w);
      StepKeepsInv(c, e, w, e', w);
      e := e';
      files := files - {f};
    }
    var e' := e - {Version(c, n)};
    assert StepErase(c, e, w, e', w);
    StepKeepsInv(c, e, w, e', w);
    e := e';
  }

  predicate Picked(s: string, c: Chain, keep: nat)
  {
    VersionOf(s, Prefix(c)).Some? && Stale(VersionOf(s, Prefix(c)).value, keep)
  }

  /** Nothing but stale versions has gone, and those left are among the names to come. */
  ghost predicate Collected(c: Chain, e0: Entries, e: Entries, keep: nat, todo: seq<string>)
  {
    && SameBut(e0, e, iset n: nat | Stale(n, keep) :: Version(c, n)) && Listable(e)
    && (forall n: nat {:trigger Version(c, n)} :: Version(c, n) in e ==> Version(c, n) in e0)
    && (forall n: nat {:trigger Version(c, n)} ::
          Version(c, n) in e && Stale(n, keep) ==> Render(Version(c, n)) in todo)
  }

  lemma CollectStarts(names: seq<string>, removed: seq<string>, c: Chain, e: Entries, keep: nat)
    requires IsListing(names, e) && forall s :: s in removed <==> s in names && Picked(s, c, keep)
    ensures Collected(c, e, e, keep, removed)
  {
    forall n: nat | Version(c, n) in e && Stale(n, keep) ensures Render(Version(c, n)) in removed {
      VersionOfIsExact(Version(c, n), c);
    }
  }

  /** A picked name is that of one stale version, which is gone once it is removed. */
  lemma CollectNext(c: Chain, e0: Entries, e: Entries, keep: nat, todo: seq<string>)
    requires Collected(c, e0, e, keep, todo) && todo != [] && Picked(todo[0], c, keep)
    ensures Collected(c, e0, e - {Version(c, VersionOf(todo[0], Prefix(c)).value)}, keep, todo[1..])
  {
    hide Render, VersionOf;
    var n := VersionOf(todo[0], Prefix(c)).value;
    var e' := e - {Version(c, n)};
    forall m: nat | Version(c, m) in e' && Stale(m, keep) ensures Render(Version(c, m)) in todo[1..] {
      VersionOfIsExact(Version(c, m), c);
      assert Render(Version(c, m)) in todo;
    }
  }

  lemma CollectEnds(c: Chain, e0: Entries, e: Entries, keep: nat)
    requires Collected(c, e0, e, keep, [])
    ensures SameBut(e0, e, iset n: nat | Stale(n, keep) :: Version(c, n))
    ensures OnlyLatest(c, e0, e, keep)
  {
  }

  /** Of the version directories those numbered `keep` and `keep - 1` are left. */
  ghost predicate OnlyLatest(c: Chain, e0: Entries, e: Entries, keep: nat)
  {
    forall n: nat :: Version(c, n) in e <==> Version(c, n) in e0 && (n == keep || n + 1 == keep)
  }

  /** `remove_stale_versions`, with every removal succeeding. */
  method Collect(c: Chain, e0: Entries, ghost w: Writer, keep: nat) returns (e: Entries)
    requires Inv(c, e0, w) && w.phase == Collecting(keep) && Listable(e0)
    ensures Inv(c, e, w) && SameBut(e0, e, iset n: nat | Stale(n, keep) :: Version(c, n))
    ensures OnlyLatest(c, e0, e, keep)
  {
    hide Inv, SameBut, Collected, IsListing, Listable, VersionOf, Render;
    e := e0;
    var names := ListDir(e0);
    var removed := RemoveStaleVersions(names, Prefix(c), keep);
    CollectStarts(names, removed, c, e0, keep);
    for i := 0 to |removed|
      invariant Inv(c, e, w) && Collected(c, e0, e, keep, removed[i..])
    {
      assert removed[i] in removed && removed[i..][0] == removed[i] && removed[i..][1..] == removed[i + 1..];
      var n := VersionOf(removed[i], Prefix(c)).value;
      CollectNext(c, e0, e, keep, removed[i..]);
      if Version(c, n) in e {
        IsDirectory(c, e, w, n);
        e := RemoveVersion(c, e, w, n);
      } else {
        assert e - {Version(c, n)} == e;
      }
    }
    assert removed[|removed|..] == [];
    CollectEnds(c, e0, e, keep);
  }

  lemma IsDirectory(c: Chain, e: Entries, w: Writer, n: nat)
    requires Inv(c, e, w) && Version(c, n) in e
    ensures e[Version(c, n)].Dir?
  {
  }

  /** The directory is created and every file of the generation written. */
  method Fill(c: Chain, e0: Entries, ghost w0: Writer, v: nat, r: Request) returns (e: Entries, ghost w: Writer)
    requires Inv(c, e0, w0) && w0.phase == Numbered(v, r) && Version(c, v) !in e0
    ensures Inv(c, e, w) && w == Writer(Linking(v, VisibleFiles(c)), w0.asked + [Payload(r)], w0.swaps)
    ensures Version(c, v) in e && e[Version(c, v)] == Dir(Payload(r)) && SameBut(e0, e, iset{Version(c, v)})
  {
    e := e0[Version(c, v) := Dir(map[])];
    var todo := Plan(r);
    w := w0.(phase := Filling(v, todo), asked := w0.asked + [Payload(r)]);
    StepKeepsInv(c, e0, w0, e, w);
    while todo != []
      invariant Inv(c, e, w) && w == Writer(Filling(v, todo), w0.asked + [Payload(r)], w0.swaps)
      invariant Version(c, v) in e && e[Version(c, v)].Dir? && SameBut(e0, e, iset{Version(c, v)})
      decreases |todo|
    {
      var e' := e[Version(c, v) := Dir(Apply(e[Version(c, v)].files, todo[0]))];
      ghost var w' := w.(phase := Filling(v, todo[1..]));
      assert StepWrite(c, e, w, e', w');
      StepKeepsInv(c, e, w, e', w');
      e, w, todo := e', w', todo[1..];
    }
    ghost var w' := w.(phase := Linking(v, VisibleFiles(c)));
    assert StepWritten(c, e, w, e, w');
    StepKeepsInv(c, e, w, e, w');
    w := w';
  }

  /** The visible links, each created unless it is already there. */
  method Link(c: Chain, e0: Entries, ghost w0: Writer, v: nat) returns (e: Entries, ghost w: Writer)
    requires Inv(c, e0, w0) && w0.phase == Linking(v, VisibleFiles(c))
    ensures Inv(c, e, w) && w == w0.(phase := Swapping(v, RemoveTmp))
    ensures SameBut(e0, e, iset f | f in VisibleFiles(c) :: Visible(f))
    ensures forall f :: f in VisibleFiles(c) ==> Visible(f) in e
  {
    e, w := e0, w0;
    var links := VisibleFiles(c);
    while links != []
      invariant Inv(c, e, w) && w == w0.(phase := Linking(v, links))
      invariant SameBut(e0, e, iset f | f in VisibleFiles(c) :: Visible(f))
      invariant forall f :: f in links ==> f in VisibleFiles(c)
      decreases |links|
    {
      var e' := if Visible(links[0]) in e then e else e[Visible(links[0]) := ToFile(c, links[0])];
      ghost var w' := w.(phase := Linking(v, links[1..]));
      assert StepLink(c, e, w, e', w');
      StepKeepsInv(c, e, w, e', w');
      e, w, links := e', w', links[1..];
    }
    ghost var w' := w.(phase := Swapping(v, RemoveTmp));
    assert StepLinked(c, e, w, e, w');
    StepKeepsInv(c, e, w, e, w');
    w := w';
  }

  /** `swap`: remove a leftover temporary link, make a new one, rename it over the data link. */
  method Swap(c: Chain, e0: Entries, ghost w0: Writer, v: nat) returns (e: Entries, ghost w: Writer)
    requires Inv(c, e0, w0) && w0.phase == Swapping(v, RemoveTmp)
    ensures Inv(c, e, w) && w == Writer(Collecting(v), w0.asked, w0.swaps + [v])
    ensures e == (e0 - {DataTmp(c)})[Data(c) := ToVersion(c, v)]
  {
    e := e0 - {DataTmp(c)};
    w := w0.(phase := Swapping(v, MakeTmp));
    assert StepRemoveTmp(c, e0, w0, e, w);
    StepKeepsInv(c, e0, w0, e, w);
    var e1 := e[DataTmp(c) := ToVersion(c, v)];
    ghost var w1 := w.(phase := Swapping(v, Rename));
    assert StepMakeTmp(c, e, w, e1, w1);
    StepKeepsInv(c, e, w, e1, w1);
    e := (e1 - {DataTmp(c)})[Data(c) := e1[DataTmp(c)]];
    w := w1.(phase := Collecting(v), swaps := w1.swaps + [v]);
    assert StepRename(c, e1, w1, e, w);
    StepKeepsInv(c, e1, w1, e, w);
  }

  lemma Begin(c: Chain, e: Entries, w: Writer, r: Request, v: nat)
    requires Inv(c, e, w) && w.phase.Idle? && ChainOf(r) == c && Accepted(r) && IsNext(c, e, v)
    ensures Inv(c, e, w.(phase := Numbered(v, r))) && v == |w.asked| + 1 && Version(c, v) !in e
  {
  }

  lemma Finish(c: Chain, e: Entries, w: Writer, v: nat)
    requires Inv(c, e, w) && w.phase == Collecting(v)
    ensures Inv(c, e, w.(phase := Idle)) && Version(c, v) in e
    ensures 1 <= v <= |w.asked| && Shows(c, e, w.asked[v - 1])
  {
  }

  /** The version directories are that of `v`, and the one numbered just before it if there was one, as it
      was. */
  ghost predicate LatestTwo(c: Chain, e0: Entries, e: Entries, v: nat)
  {
    && (forall n: nat :: Version(c, n) in e <==> n == v || (n + 1 == v && Version(c, n) in e0))
    && (forall n: nat :: n + 1 == v && Version(c, n) in e0 ==> e[Version(c, n)] == e0[Version(c, n)])
  }

  /** A whole publication. A token set with a bad alias is refused with nothing changed. Otherwise the
      chain's visible names afterwards read exactly what was asked for, and of the version directories
      the new one and the one numbered just before it remain, this one as it was. */
  method Publish(c: Chain, e0: Entries, ghost w0: Writer, r: Request)
    returns (ok: bool, e: Entries, ghost w: Writer, v: nat)
    requires Inv(c, e0, w0) && w0.phase.Idle? && ChainOf(r) == c && Listable(e0) && |w0.asked| + 1 < U64
    ensures ok <==> (r.PublishTokens? ==> forall t :: t in r.tokens ==> IsAlias(t.0))
    ensures Inv(c, e, w) && (!ok ==> e == e0 && w == w0)
    ensures ok ==> w == Writer(Idle, w0.asked + [Payload(r)], w0.swaps + [v]) && Shows(c, e, Payload(r))
    ensures ok ==> v == |w0.asked| + 1 && LatestTwo(c, e0, e, v)
    ensures OthersAlone(c, e0, e)
  {
    if !Accepted(r) {
      return false, e0, w0, 0;
    }
    hide Inv, SameBut, OthersAlone, Shows, Accepted, IsListing, Listable, Payload, Owner, OnlyLatest, LatestTwo;
    ok := true;
    var listing := ListDir(e0);
    v := NextVersion(listing, Prefix(c));
    ListingGivesNext(listing, c, e0, v);
    Begin(c, e0, w0, r, v);
    var e1, e2, e3;
    e1, w := Fill(c, e0, w0.(phase := Numbered(v, r)), v, r);
    e2, w := Link(c, e1, w, v);
    e3, w := Swap(c, e2, w, v);
    StillListable(c, e0, e1, e2, v);
    e := Collect(c, e3, w, v);
    Finish(c, e, w, v);
    w := w.(phase := Idle);
    StepsLeaveOthers(c, e0, e1, e2, e, v);
    PreviousStays(c, e0, e1, e2, e, v);
  }

  lemma PreviousStays(c: Chain, e0: Entries, e1: Entries, e2: Entries, e: Entries, v: nat)
    requires SameBut(e0, e1, iset{Version(c, v)}) && SameBut(e1, e2, iset f | f in VisibleFiles(c) :: Visible(f))
    requires SameBut((e2 - {DataTmp(c)})[Data(c) := ToVersion(c, v)], e, iset n: nat | Stale(n, v) :: Version(c, n))
    requires OnlyLatest(c, (e2 - {DataTmp(c)})[Data(c) := ToVersion(c, v)], e, v) && Version(c, v) in e && v >= 1
    ensures LatestTwo(c, e0, e, v)
  {
    var x := Version(c, v - 1);
    assert x in e0 <==> x in e1;
    assert x in e1 <==> x in e2;
  }

  lemma StillListable(c: Chain, e0: Entries, e1: Entries, e2: Entries, v: nat)
    requires Listable(e0) && v < U64
    requires SameBut(e0, e1, iset{Version(c, v)}) && SameBut(e1, e2, iset f | f in VisibleFiles(c) :: Visible(f))
    ensures Listable((e2 - {DataTmp(c)})[Data(c) := ToVersion(c, v)])
  {
  }

  lemma StepsLeaveOthers(c: Chain, e0: Entries, e1: Entries, e2: Entries, e: Entries, v: nat)
    requires SameBut(e0, e1, iset{Version(c, v)}) && SameBut(e1, e2, iset f | f in VisibleFiles(c) :: Visible(f))
    requires SameBut((e2 - {DataTmp(c)})[Data(c) := ToVersion(c, v)], e, iset n: nat | Stale(n, v) :: Version(c, n))
    ensures OthersAlone(c, e0, e)
  {
    hide SameBut, OthersAlone;
    var e3 := (e2 - {DataTmp(c)})[Data(c) := ToVersion(c, v)];
    OwnNames(c, e0, e1, iset{Version(c, v)});
    forall f | f in VisibleFiles(c) ensures Owner(Visible(f)) == c {
      LinksAreOwn(c, f);
    }
    OwnNames(c, e1, e2, iset f | f in VisibleFiles(c) :: Visible(f));
    SwapLeavesOthers(c, e2, v);
    OwnNames(c, e3, e, iset n: nat | Stale(n, v) :: Version(c, n));
    AloneTwice(c, e0, e1, e2);
    AloneTwice(c, e0, e2, e3);
    AloneTwice(c, e0, e3, e);
  }
}
