/** Readers of a volume that resolve a chain's data link once and then read the generation it named,
    while the writers go on. A schedule gives the moment of each of the reader's calls. */
module VolumeReader {
  import opened Text
  import opened VolumeNames
  import opened Volume
  import opened VolumeRuns

  /** The reader's n-th filesystem call sees the state `run[ticks(n)]`. */
  ghost predicate Schedule(run: seq<System>, ticks: nat -> nat)
  {
    forall i: nat, j: nat :: i <= j ==> ticks(i) <= ticks(j) < |run|
  }

  function ReadLink(e: Entries, c: Chain): Option<nat>
  {
    if Data(c) in e && e[Data(c)].ToVersion? then Some(e[Data(c)].n) else None
  }

  function ReadItem(e: Entries, c: Chain, n: nat, f: FileName): Option<Item>
  {
    if Version(c, n) in e && e[Version(c, n)].Dir? && f in e[Version(c, n)].files
    then Some(e[Version(c, n)].files[f]) else None
  }

  function ReadFile(e: Entries, c: Chain, n: nat, f: FileName): Option<string>
  {
    match ReadItem(e, c, n, f)
    case Some(File(bytes)) => Some(bytes)
    case _ => None
  }

  function ReadDoc(e: Entries, c: Chain, n: nat, f: FileName, doc: string): Option<string>
  {
    match ReadItem(e, c, n, f)
    case Some(Tree(docs)) => if doc in docs then Some(docs[doc]) else None
    case _ => None
  }

  // ---- What a generation resolved earlier still holds ----

  ghost function WriterAt(run: seq<System>, c: Chain, t: nat): Writer
    requires IsRun(run) && t < |run|
  {
    RunIsTotal(run, t);
    run[t].writers[c]
  }

  ghost function SwapCount(run: seq<System>, c: Chain, t: nat): nat
    requires IsRun(run) && t < |run|
  {
    |WriterAt(run, c, t).swaps|
  }

  /** The generation the data link named at moment `t`. */
  ghost predicate CurrentAt(run: seq<System>, c: Chain, t: nat, n: nat, files: Files)
    requires IsRun(run)
  {
    && t < |run|
    && var w := WriterAt(run, c, t);
       w.swaps != [] && Current(w) == Some(n) && 1 <= n <= |w.asked| && w.asked[n - 1] == files
  }

  lemma LinkNamesCurrent(run: seq<System>, c: Chain, t: nat)
    requires IsRun(run) && t < |run|
    ensures match ReadLink(run[t].entries, c)
            case None => WriterAt(run, c, t).swaps == []
            case Some(n) => exists files :: CurrentAt(run, c, t, n, files) && IsGeneration(c, files)
  {
    RunIsGood(run, t);
    var w := run[t].writers[c];
    assert Inv(c, run[t].entries, w);
    if w.swaps != [] {
      var n := w.swaps[|w.swaps| - 1];
      assert CurrentAt(run, c, t, n, w.asked[n - 1]);
    }
  }

  lemma StillSwapped(run: seq<System>, c: Chain, t: nat, u: nat, n: nat, files: Files)
    requires IsRun(run) && t <= u < |run| && CurrentAt(run, c, t, n, files)
    ensures var w := WriterAt(run, c, u);
            && 1 <= n <= |w.asked| && w.asked[n - 1] == files
            && SwapCount(run, c, t) <= |w.swaps| && w.swaps[SwapCount(run, c, t) - 1] == n
  {
    RunGrows(run, c, t, u);
  }

  lemma OnceCurrent(c: Chain, e: Entries, w: Writer, i: nat)
    requires Inv(c, e, w) && i < |w.swaps|
    ensures var n := w.swaps[i];
            && 1 <= n <= |w.asked|
            && (Version(c, n) in e && e[Version(c, n)].Dir? ==> Fragment(e[Version(c, n)].files, w.asked[n - 1]))
            && ((Version(c, n) in e && e[Version(c, n)] == Dir(w.asked[n - 1])) || Current(w).value >= n + 2)
  {
  }

  lemma OnceCurrentAt(run: seq<System>, c: Chain, u: nat, i: nat)
    requires IsRun(run) && u < |run| && i < SwapCount(run, c, u)
    ensures var e, w := run[u].entries, WriterAt(run, c, u);
            var n := w.swaps[i];
            && 1 <= n <= |w.asked|
            && (Version(c, n) in e && e[Version(c, n)].Dir? ==> Fragment(e[Version(c, n)].files, w.asked[n - 1]))
            && ((Version(c, n) in e && e[Version(c, n)] == Dir(w.asked[n - 1])) || Current(w).value >= n + 2)
  {
    RunIsGood(run, u);
    OnceCurrent(c, run[u].entries, run[u].writers[c], i);
  }

  /** At any later moment the resolved generation is whole, or it is a fragment and the link has
      moved on by at least two version numbers. */
  lemma LaterState(run: seq<System>, c: Chain, t: nat, u: nat, n: nat, files: Files)
    requires IsRun(run) && t <= u < |run| && CurrentAt(run, c, t, n, files)
    ensures var e := run[u].entries;
            && (Version(c, n) in e && e[Version(c, n)].Dir? ==> Fragment(e[Version(c, n)].files, files))
            && WriterAt(run, c, u).swaps != []
            && ((Version(c, n) in e && e[Version(c, n)] == Dir(files)) || Current(WriterAt(run, c, u)).value >= n + 2)
  {
    StillSwapped(run, c, t, u, n, files);
    OnceCurrentAt(run, c, u, SwapCount(run, c, t) - 1);
  }

  // ---- Swaps and version numbers ----

  /** The version the data link names, 0 before the first swap. */
  ghost function LinkedVersion(run: seq<System>, c: Chain, t: nat): nat
    requires IsRun(run) && t < |run|
  {
    Top(0, WriterAt(run, c, t).swaps)
  }

  /** The version numbers passed over between two moments: created and never swapped in. */
  ghost function Skipped(run: seq<System>, c: Chain, t: nat, u: nat): set<nat>
    requires IsRun(run) && t < |run| && u < |run|
  {
    Missing(LinkedVersion(run, c, t), LinkedVersion(run, c, u), WriterAt(run, c, u).swaps)
  }

  function Missing(a: nat, b: nat, s: seq<nat>): set<nat>
  {
    set v: nat | a < v <= b && v !in s
  }

  ghost predicate Rising(a: nat, s: seq<nat>)
  {
    && (forall i :: 0 <= i < |s| ==> a < s[i])
    && (forall i, j :: 0 <= i < j < |s| ==> s[i] < s[j])
  }

  function Top(a: nat, s: seq<nat>): nat
  {
    if s == [] then a else s[|s| - 1]
  }

  lemma {:induction false} RangeSize(a: nat, b: nat)
    requires a <= b
    ensures |Missing(a, b, [])| == b - a
    decreases b
  {
    if a == b {
      assert Missing(a, b, []) == {};
    } else {
      RangeSize(a, b - 1);
      assert Missing(a, b, []) == Missing(a, b - 1, []) + {b};
    }
  }

  /** Numbers up to the last of a rising sequence are in it or missing from it. */
  lemma {:induction false} RisingCounts(a: nat, s: seq<nat>)
    requires Rising(a, s)
    ensures |s| + |Missing(a, Top(a, s), s)| == Top(a, s) - a
    decreases |s|
  {
    if s == [] {
      assert Missing(a, a, s) == {};
    } else {
      var init, b := s[..|s| - 1], s[|s| - 1];
      var m := Top(a, init);
      RisingCounts(a, init);
      assert m < b && forall v :: v in init ==> v <= m;
      assert s == init + [b];
      assert Missing(a, b, s) == Missing(a, m, init) + Missing(m, b - 1, []);
      RangeSize(m, b - 1);
    }
  }

  lemma RisingCountsFrom(s: seq<nat>, k: nat)
    requires Rising(0, s) && k <= |s|
    ensures Top(0, s) - Top(0, s[..k]) == |s| - k + |Missing(Top(0, s[..k]), Top(0, s), s)|
  {
    var a, later := Top(0, s[..k]), s[k..];
    RisingCounts(a, later);
    assert s == s[..k] + later && forall v :: v in s[..k] ==> v <= a;
    assert Missing(a, Top(0, s), s) == Missing(a, Top(a, later), later);
  }

  lemma SwapsAreRising(run: seq<System>, c: Chain, t: nat, u: nat)
    requires IsRun(run) && t <= u < |run|
    ensures Rising(0, WriterAt(run, c, u).swaps) && WriterAt(run, c, t).swaps <= WriterAt(run, c, u).swaps
  {
    RunGrows(run, c, t, u);
    RunIsGood(run, u);
    assert VersionsOk(c, run[u].entries, run[u].writers[c]);
  }

  /** Between two moments the link's version rises by the swaps made and the versions passed over. */
  lemma SwapsAndSkips(run: seq<System>, c: Chain, t: nat, u: nat)
    requires IsRun(run) && t <= u < |run|
    ensures LinkedVersion(run, c, u) - LinkedVersion(run, c, t)
         == SwapCount(run, c, u) - SwapCount(run, c, t) + |Skipped(run, c, t, u)|
  {
    hide IsRun;
    SwapsAreRising(run, c, t, u);
    var s := WriterAt(run, c, u).swaps;
    RisingCountsFrom(s, SwapCount(run, c, t));
  }

  /** At least `k` swaps between two moments, and the link `2 * k` versions further on. */
  ghost predicate SwappedBetween(run: seq<System>, c: Chain, t: nat, u: nat, k: nat)
    requires IsRun(run) && t < |run| && u < |run|
  {
    && SwapCount(run, c, u) >= SwapCount(run, c, t) + k
    && LinkedVersion(run, c, u) >= LinkedVersion(run, c, t) + 2 * k
  }

  /** If anything of the resolved generation is missing, the link was swapped since and names a version
      at least two further on. A single swap means that the version in between never was swapped in. */
  lemma MissingMeansSwaps(run: seq<System>, c: Chain, t: nat, u: nat, n: nat, files: Files)
    requires IsRun(run) && t <= u < |run| && CurrentAt(run, c, t, n, files)
    requires !(Version(c, n) in run[u].entries && run[u].entries[Version(c, n)] == Dir(files))
    ensures SwappedBetween(run, c, t, u, 1)
    ensures SwapCount(run, c, u) == SwapCount(run, c, t) + 1 ==> n + 1 !in WriterAt(run, c, u).swaps
  {
    hide IsRun, Fragment;
    LaterState(run, c, t, u, n, files);
    StillSwapped(run, c, t, u, n, files);
    SwapsAreRising(run, c, t, u);
  }

  /** A file of the resolved generation reads as published, or it is gone and the link has moved. */
  lemma FileIsFaithful(run: seq<System>, c: Chain, t: nat, u: nat, n: nat, files: Files, f: FileName)
    requires IsRun(run) && t <= u < |run| && CurrentAt(run, c, t, n, files)
    requires f in files && files[f].File?
    ensures match ReadFile(run[u].entries, c, n, f)
            case Some(b) => files[f] == File(b)
            case None => SwappedBetween(run, c, t, u, 1)
  {
    LaterState(run, c, t, u, n, files);
    if ReadFile(run[u].entries, c, n, f).None? {
      MissingMeansSwaps(run, c, t, u, n, files);
    }
  }

  lemma SwapsOnlyGrow(run: seq<System>, c: Chain, t: nat, u: nat)
    requires IsRun(run) && t <= u < |run|
    ensures SwapCount(run, c, t) <= SwapCount(run, c, u) && LinkedVersion(run, c, t) <= LinkedVersion(run, c, u)
  {
    SwapsAreRising(run, c, t, u);
  }

  datatype Material = Material(key: string, cert: string, ca: string)

  /** `m` is the whole of the identity generation current at moment `t`. */
  ghost predicate PublishedAt(run: seq<System>, t: nat, m: Material)
    requires IsRun(run)
  {
    exists n :: CurrentAt(run, Identity, t, n, Payload(PublishIdentity(m.key, m.cert, m.ca)))
  }

  /** One attempt of `read_identity`: the link at `ticks(at)`, then key, certificate and CA. */
  method ReadAttempt(run: seq<System>, ticks: nat -> nat, at: nat) returns (resolved: bool, r: Option<Material>)
    requires IsRun(run) && Schedule(run, ticks)
    ensures !resolved ==> r == None && SwapCount(run, Identity, ticks(at)) == 0
    ensures r.Some? ==> PublishedAt(run, ticks(at), r.value)
    ensures resolved && r.None? ==> SwappedBetween(run, Identity, ticks(at), ticks(at + 3), 1)
  {
    assert ticks(at) <= ticks(at + 1) <= ticks(at + 2) <= ticks(at + 3) < |run|;
    ghost var t := ticks(at);
    LinkNamesCurrent(run, Identity, t);
    var link := ReadLink(run[ticks(at)].entries, Identity);
    if link.None? {
      return false, None;
    }
    resolved := true;
    var n := link.value;
    ghost var files :| CurrentAt(run, Identity, t, n, files) && IsGeneration(Identity, files);
    ghost var asked :| ChainOf(asked) == Identity && files == Payload(asked);
    SwapsOnlyGrow(run, Identity, ticks(at + 1), ticks(at + 3));
    SwapsOnlyGrow(run, Identity, ticks(at + 2), ticks(at + 3));

    FileIsFaithful(run, Identity, t, ticks(at + 1), n, files, Key);
    var key := ReadFile(run[ticks(at + 1)].entries, Identity, n, Key);
    if key.None? {
      return true, None;
    }
    FileIsFaithful(run, Identity, t, ticks(at + 2), n, files, Cert);
    var cert := ReadFile(run[ticks(at + 2)].entries, Identity, n, Cert);
    if cert.None? {
      return true, None;
    }
    FileIsFaithful(run, Identity, t, ticks(at + 3), n, files, Ca);
    var ca := ReadFile(run[ticks(at + 3)].entries, Identity, n, Ca);
    if ca.None? {
      return true, None;
    }
    r := Some(Material(key.value, cert.value, ca.value));
    assert asked == PublishIdentity(key.value, cert.value, ca.value);
  }

  /** `read_identity`. Whatever the writers do meanwhile, a success is one whole published identity
      that was current during the call. Giving up means nothing was published when the call began, or
      the link moved on by at least eight versions: it was swapped at least four times, and at least
      eight less the versions passed over. */
  method ReadIdentity(run: seq<System>, ticks: nat -> nat) returns (r: Option<Material>)
    requires IsRun(run) && Schedule(run, ticks)
    ensures r.Some? ==> exists t :: ticks(0) <= t <= ticks(15) && PublishedAt(run, t, r.value)
    ensures r.None? ==> || SwapCount(run, Identity, ticks(0)) == 0
                        || (&& SwappedBetween(run, Identity, ticks(0), ticks(15), 4)
                            && SwapCount(run, Identity, ticks(15))
                            >= SwapCount(run, Identity, ticks(0)) + 8 - |Skipped(run, Identity, ticks(0), ticks(15))|)
  {
    hide LinkedVersion, Skipped;
    for attempt := 0 to 4
      invariant attempt < 4 ==> SwappedBetween(run, Identity, ticks(0), ticks(4 * attempt), attempt)
      invariant attempt == 4 ==> SwappedBetween(run, Identity, ticks(0), ticks(15), 4)
    {
      var resolved;
      assert ticks(0) <= ticks(4 * attempt) <= ticks(4 * attempt + 3) <= ticks(15) < |run|;
      SwapsOnlyGrow(run, Identity, ticks(0), ticks(4 * attempt));
      resolved, r := ReadAttempt(run, ticks, 4 * attempt);
      if !resolved {
        return None;
      }
      if r.Some? {
        return;
      }
      assert ticks(4 * attempt + 3) <= ticks(4 * (attempt + 1)) < |run|;
      SwapsOnlyGrow(run, Identity, ticks(4 * attempt + 3), ticks(4 * (attempt + 1)));
    }
    SwapsAndSkips(run, Identity, ticks(0), ticks(15));
    r := None;
  }

  // ---- Tokens ----

  lemma DocIsFaithful(run: seq<System>, c: Chain, t: nat, u: nat, n: nat, files: Files, f: FileName, doc: string)
    requires IsRun(run) && t <= u < |run| && CurrentAt(run, c, t, n, files)
    requires f in files && files[f].Tree?
    ensures match ReadDoc(run[u].entries, c, n, f, doc)
            case Some(b) => doc in files[f].docs && files[f].docs[doc] == b
            case None => doc in files[f].docs ==> SwappedBetween(run, c, t, u, 1)
  {
    LaterState(run, c, t, u, n, files);
    if ReadDoc(run[u].entries, c, n, f, doc).None? && doc in files[f].docs {
      MissingMeansSwaps(run, c, t, u, n, files);
    }
  }

  function ListDocs(e: Entries, c: Chain, n: nat, f: FileName): set<string>
  {
    match ReadItem(e, c, n, f)
    case Some(Tree(docs)) => docs.Keys
    case _ => {}
  }

  lemma ListingIsFaithful(run: seq<System>, c: Chain, t: nat, u: nat, n: nat, files: Files, f: FileName)
    requires IsRun(run) && t <= u < |run| && CurrentAt(run, c, t, n, files)
    requires f in files && files[f].Tree?
    ensures ListDocs(run[u].entries, c, n, f) <= files[f].docs.Keys
    ensures ListDocs(run[u].entries, c, n, f) == files[f].docs.Keys || SwappedBetween(run, c, t, u, 1)
  {
    LaterState(run, c, t, u, n, files);
    if ListDocs(run[u].entries, c, n, f) != files[f].docs.Keys {
      MissingMeansSwaps(run, c, t, u, n, files);
    }
  }

  lemma SwapsAccumulate(run: seq<System>, c: Chain, t: nat, u: nat, v: nat, k: nat)
    requires IsRun(run) && t < |run| && u <= v < |run| && SwappedBetween(run, c, t, u, k)
    ensures SwappedBetween(run, c, t, v, k)
  {
    SwapsOnlyGrow(run, c, u, v);
  }

  ghost function TokensOf(files: Files): (tokens: seq<(string, string)>)
    requires IsGeneration(Tokens, files)
    ensures files == Payload(PublishTokens(tokens)) == map[JwtDir := Tree(Overlay(tokens))]
  {
    var r :| ChainOf(r) == Tokens && Accepted(r) && files == Payload(r);
    r.tokens
  }

  /** The loop of `read_tokens` over a listing: a document that has gone is skipped. */
  method ReadListed(run: seq<System>, ticks: nat -> nat, n: nat, listed: set<string>, ghost docs: map<string, string>)
    returns (out: map<string, string>, last: nat)
    requires IsRun(run) && Schedule(run, ticks) && listed <= docs.Keys
    requires CurrentAt(run, Tokens, ticks(0), n, map[JwtDir := Tree(docs)])
    ensures forall d :: d in out ==> d in listed && out[d] == docs[d]
    ensures last >= 1 && (out.Keys == listed || SwappedBetween(run, Tokens, ticks(0), ticks(last), 1))
  {
    out, last := map[], 1;
    var pending := listed;
    assert ticks(0) <= ticks(1) < |run|;
    ghost var torn := false;
    while pending != {}
      invariant last >= 1 && pending <= listed
      invariant forall d :: d in out ==> d in listed && out[d] == docs[d]
      invariant ticks(0) <= ticks(last) < |run|
      invariant torn ==> SwappedBetween(run, Tokens, ticks(0), ticks(last), 1)
      invariant !torn ==> out.Keys + pending == listed
      decreases pending
    {
      var d :| d in pending;
      assert ticks(last) <= ticks(last + 1) < |run|;
      if torn {
        SwapsAccumulate(run, Tokens, ticks(0), ticks(last), ticks(last + 1), 1);
      }
      last := last + 1;
      DocIsFaithful(run, Tokens, ticks(0), ticks(last), n, map[JwtDir := Tree(docs)], JwtDir, d);
      var token := ReadDoc(run[ticks(last)].entries, Tokens, n, JwtDir, d);
      if token.Some? {
        out := out[d := token.value];
      } else {
        torn := true;
      }
      pending := pending - {d};
    }
  }

  /** `read_tokens`. Every token returned belongs to the one generation the link named when the call
      began, and none is missing unless the link was swapped meanwhile and names a version at least two
      further on. `last` is the final call made. */
  method ReadTokens(run: seq<System>, ticks: nat -> nat) returns (out: map<string, string>, last: nat)
    requires IsRun(run) && Schedule(run, ticks)
    ensures SwapCount(run, Tokens, ticks(0)) == 0 ==> out == map[]
    ensures SwapCount(run, Tokens, ticks(0)) > 0 ==>
              exists n, tokens :: && CurrentAt(run, Tokens, ticks(0), n, Payload(PublishTokens(tokens)))
                                  && (forall d :: d in out ==> d in Overlay(tokens) && out[d] == Overlay(tokens)[d])
                                  && (out == Overlay(tokens) || SwappedBetween(run, Tokens, ticks(0), ticks(last), 1))
  {
    assert ticks(0) <= ticks(1) < |run|;
    LinkNamesCurrent(run, Tokens, ticks(0));
    var link := ReadLink(run[ticks(0)].entries, Tokens);
    if link.None? {
      return map[], 0;
    }
    var n := link.value;
    ghost var files :| CurrentAt(run, Tokens, ticks(0), n, files) && IsGeneration(Tokens, files);
    ghost var tokens := TokensOf(files);
    ghost var docs := Overlay(tokens);
    ListingIsFaithful(run, Tokens, ticks(0), ticks(1), n, files, JwtDir);
    var listed := ListDocs(run[ticks(1)].entries, Tokens, n, JwtDir);
    out, last := ReadListed(run, ticks, n, listed, docs);
    assert ticks(1) <= ticks(last) < |run|;
    if listed != docs.Keys {
      SwapsAccumulate(run, Tokens, ticks(0), ticks(1), ticks(last), 1);
    }
    assert CurrentAt(run, Tokens, ticks(0), n, Payload(PublishTokens(tokens)));
    SameEntries(out, docs);
  }

  lemma SameEntries(a: map<string, string>, b: map<string, string>)
    requires forall d :: d in a ==> d in b && a[d] == b[d]
    ensures a.Keys == b.Keys ==> a == b
  {
  }
}
