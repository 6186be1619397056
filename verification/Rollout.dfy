/** The rollout manifest: which ring a node belongs to, which bundle that ring runs, and whether a
    signed manifest is recent enough to act on. */
module Rollout {
  import opened Text

  // ---- Globs ----

  /** `glob_match`: `*` matches any run of characters, everything else is literal. */
  predicate GlobMatch(pattern: string, text: string)
    decreases |pattern|
  {
    var i := Find(pattern, '*');
    if i == |pattern| then pattern == text
    else
      var head, tail := pattern[..i], pattern[i + 1..];
      && head <= text
      && var rest := text[|head|..];
         if '*' in tail then exists k :: 0 <= k <= |rest| && GlobMatch(tail, rest[k..])
         else |rest| >= |tail| && rest[|rest| - |tail|..] == tail
  }

  function Stars(pattern: string): nat
  {
    if pattern == "" then 0 else (if pattern[0] == '*' then 1 else 0) + Stars(pattern[1..])
  }

  /** The pattern with a text put in for each `*`. */
  function Fill(pattern: string, fillers: seq<string>): string
    requires |fillers| == Stars(pattern)
  {
    if pattern == "" then ""
    else if pattern[0] == '*' then fillers[0] + Fill(pattern[1..], fillers[1..])
    else [pattern[0]] + Fill(pattern[1..], fillers)
  }

  /** What a glob means: some choice of texts for its stars yields the text. */
  ghost predicate Means(pattern: string, text: string)
  {
    exists fillers: seq<string> :: |fillers| == Stars(pattern) && Fill(pattern, fillers) == text
  }

  lemma {:induction false} FillHead(head: string, rest: string, fillers: seq<string>)
    requires '*' !in head && |fillers| == Stars(rest)
    ensures Stars(head + rest) == Stars(rest) && Fill(head + rest, fillers) == head + Fill(rest, fillers)
    decreases |head|
  {
    if head == "" {
      assert head + rest == rest && head + Fill(rest, fillers) == Fill(rest, fillers);
    } else {
      assert (head + rest)[0] == head[0] && head[0] in head;
      assert (head + rest)[1..] == head[1..] + rest;
      FillHead(head[1..], rest, fillers);
      assert [head[0]] + (head[1..] + Fill(rest, fillers)) == head + Fill(rest, fillers);
    }
  }

  lemma {:induction false} NoStars(pattern: string)
    requires '*' !in pattern
    ensures Stars(pattern) == 0 && Fill(pattern, []) == pattern
    decreases |pattern|
  {
    if pattern != "" {
      NoStars(pattern[1..]);
      assert pattern[0] in pattern;
    }
  }

  /** A glob with a star: the text before it, something, and then what the rest stands for. */
  lemma FillStar(head: string, tail: string, first: string, more: seq<string>)
    requires '*' !in head && |more| == Stars(tail)
    ensures Stars(head + "*" + tail) == 1 + |more|
    ensures Fill(head + "*" + tail, [first] + more) == head + (first + Fill(tail, more))
  {
    var rest := "*" + tail;
    assert rest[1..] == tail && ([first] + more)[1..] == more;
    FillHead(head, rest, [first] + more);
    assert head + rest == head + "*" + tail;
  }

  lemma AtStar(pattern: string)
    requires '*' in pattern
    ensures var i := Find(pattern, '*'); '*' !in pattern[..i] && pattern == pattern[..i] + "*" + pattern[i + 1..]
  {
  }

  lemma MatchesItself(tail: string)
    requires '*' !in tail
    ensures GlobMatch(tail, tail)
  {
  }

  /** How much of the text the first star stands for. */
  lemma StarTakes(pattern: string, text: string) returns (k: nat)
    requires GlobMatch(pattern, text) && Find(pattern, '*') < |pattern|
    ensures var i := Find(pattern, '*');
            pattern[..i] <= text && i + k <= |text| && GlobMatch(pattern[i + 1..], text[i + k..])
  {
    hide Find;
    var i := Find(pattern, '*');
    var tail, rest := pattern[i + 1..], text[i..];
    if '*' in tail {
      k :| 0 <= k <= |rest| && GlobMatch(tail, rest[k..]);
    } else {
      k := |rest| - |tail|;
      MatchesItself(tail);
    }
    assert rest[k..] == text[i + k..];
  }

  lemma InThree(head: string, text: string, k: nat)
    requires head <= text && |head| + k <= |text|
    ensures text == head + (text[|head|..|head| + k] + text[|head| + k..])
  {
  }

  /** A match splits at the first star, and the rest of the pattern matches the rest of the text. */
  lemma GlobSplits(pattern: string, text: string) returns (first: string, after: string)
    requires GlobMatch(pattern, text) && Find(pattern, '*') < |pattern|
    ensures var i := Find(pattern, '*');
            text == pattern[..i] + (first + after) && GlobMatch(pattern[i + 1..], after)
  {
    hide GlobMatch;
    var i := Find(pattern, '*');
    var k := StarTakes(pattern, text);
    InThree(pattern[..i], text, k);
    first, after := text[i..i + k], text[i + k..];
  }

  lemma {:induction false} GlobSound(pattern: string, text: string) returns (fillers: seq<string>)
    requires GlobMatch(pattern, text)
    ensures |fillers| == Stars(pattern) && Fill(pattern, fillers) == text
    decreases |pattern|
  {
    hide Find;
    if '*' !in pattern {
      NoStars(pattern);
      fillers := [];
    } else {
      var i := Find(pattern, '*');
      var first, after := GlobSplits(pattern, text);
      var more := GlobSound(pattern[i + 1..], after);
      AtStar(pattern);
      FillStar(pattern[..i], pattern[i + 1..], first, more);
      fillers := [first] + more;
    }
  }

  lemma {:induction false} GlobComplete(pattern: string, fillers: seq<string>)
    requires |fillers| == Stars(pattern)
    ensures GlobMatch(pattern, Fill(pattern, fillers))
    decreases |pattern|
  {
    var i, text := Find(pattern, '*'), Fill(pattern, fillers);
    if i == |pattern| {
      NoStars(pattern);
    } else {
      AtStar(pattern);
      var head, tail := pattern[..i], pattern[i + 1..];
      StarsSplit(head, tail);
      var first, more := fillers[0], fillers[1..];
      FillStar(head, tail, first, more);
      assert fillers == [first] + more;
      var rest := text[|head|..];
      assert rest == first + Fill(tail, more);
      if '*' in tail {
        GlobComplete(tail, more);
        assert rest[|first|..] == Fill(tail, more);
      } else {
        NoStars(tail);
      }
    }
  }

  lemma StarsSplit(head: string, tail: string)
    requires '*' !in head
    ensures Stars(head + "*" + tail) == 1 + Stars(tail)
  {
    FillStar(head, tail, "", seq(Stars(tail), k => ""));
  }

  /** `glob_match` decides exactly the meaning of `*`, for any number of wildcards. */
  lemma GlobIsExact(pattern: string, text: string)
    ensures GlobMatch(pattern, text) <==> Means(pattern, text)
  {
    if GlobMatch(pattern, text) {
      var fillers := GlobSound(pattern, text);
    }
    if Means(pattern, text) {
      var fillers: seq<string> :| |fillers| == Stars(pattern) && Fill(pattern, fillers) == text;
      GlobComplete(pattern, fillers);
    }
  }

  // ---- Rings ----

  datatype Match = Match(clusters: seq<string>, percent: Option<nat>, nodes: seq<string>)

  datatype Ring = Ring(name: string, match_: Match, bundle: string)

  /** Who is asking: `bucket` is the node's stable position below 100. */
  datatype Node = Node(cluster: string, name: string, bucket: nat)

  predicate Matches(m: Match, n: Node)
  {
    || (m.clusters == [] && m.percent.None? && m.nodes == [])
    || n.name in m.nodes
    || (exists i :: 0 <= i < |m.clusters| && GlobMatch(m.clusters[i], n.cluster))
    || (m.percent.Some? && n.bucket < m.percent.value)
  }

  /** The position of the first ring that matches, or the number of rings. */
  function TargetIndex(rings: seq<Ring>, n: Node): (i: nat)
    ensures i <= |rings|
    ensures forall j :: 0 <= j < i ==> !Matches(rings[j].match_, n)
    ensures i < |rings| ==> Matches(rings[i].match_, n)
  {
    if rings == [] || Matches(rings[0].match_, n) then 0 else 1 + TargetIndex(rings[1..], n)
  }

  /** `Rollout::target`. */
  function Target(rings: seq<Ring>, n: Node): Option<Ring>
  {
    var i := TargetIndex(rings, n);
    if i < |rings| then Some(rings[i]) else None
  }

  /** A ring with cluster patterns alone takes the nodes of the clusters one of them stands for, whatever
      their names and buckets. */
  lemma ByCluster(clusters: seq<string>, n: Node)
    requires clusters != []
    ensures Matches(Match(clusters, None, []), n) <==> exists i :: 0 <= i < |clusters| && Means(clusters[i], n.cluster)
  {
    forall i | 0 <= i < |clusters| ensures GlobMatch(clusters[i], n.cluster) <==> Means(clusters[i], n.cluster) {
      GlobIsExact(clusters[i], n.cluster);
    }
  }

  /** One with node names alone takes the nodes it lists, in every cluster. */
  lemma ByName(nodes: seq<string>, n: Node)
    requires nodes != []
    ensures Matches(Match([], None, nodes), n) <==> n.name in nodes
  {
  }

  /** One with a percentage alone takes the buckets below it. */
  lemma ByPercent(percent: nat, n: Node)
    ensures Matches(Match([], Some(percent), []), n) <==> n.bucket < percent
  {
  }

  /** One with nothing takes every node. */
  lemma Everyone(n: Node)
    ensures Matches(Match([], None, []), n)
  {
  }

  /** One with several clauses takes exactly what they take between them. */
  lemma ClausesUnite(m: Match, n: Node)
    requires m != Match([], None, [])
    ensures Matches(m, n) <==>
              || (m.clusters != [] && Matches(Match(m.clusters, None, []), n))
              || (m.nodes != [] && Matches(Match([], None, m.nodes), n))
              || (m.percent.Some? && Matches(Match([], m.percent, []), n))
  {
  }

  /** So a node's ring is the first one of which some clause takes it: by what its cluster, name and bucket
      are, and nothing else. */
  ghost predicate Chosen(m: Match, n: Node)
  {
    || m == Match([], None, [])
    || (exists i :: 0 <= i < |m.clusters| && Means(m.clusters[i], n.cluster))
    || n.name in m.nodes || (m.percent.Some? && n.bucket < m.percent.value)
  }

  lemma TargetIsFirstChosen(rings: seq<Ring>, n: Node)
    ensures match Target(rings, n)
            case None => forall j :: 0 <= j < |rings| ==> !Chosen(rings[j].match_, n)
            case Some(ring) => exists i :: && 0 <= i < |rings| && rings[i] == ring && Chosen(ring.match_, n)
                                           && forall j :: 0 <= j < i ==> !Chosen(rings[j].match_, n)
  {
    forall j | 0 <= j < |rings| ensures Chosen(rings[j].match_, n) <==> Matches(rings[j].match_, n) {
      var m := rings[j].match_;
      if m != Match([], None, []) {
        ClausesUnite(m, n);
        if m.clusters != [] {
          ByCluster(m.clusters, n);
        }
        if m.nodes != [] {
          ByName(m.nodes, n);
        }
      }
    }
    hide Matches, Chosen;
    var i := TargetIndex(rings, n);
    assert i < |rings| ==> Chosen(rings[i].match_, n);
  }

  /** Raising one ring's percentage moves each node nowhere, or from a later ring (or none) into
      exactly that ring. */
  lemma RaisingPercent(rings: seq<Ring>, r: nat, percent: nat, n: Node)
    requires r < |rings| && rings[r].match_.percent.Some? && rings[r].match_.percent.value <= percent
    ensures var raised := rings[r := rings[r].(match_ := rings[r].match_.(percent := Some(percent)))];
            var before, after := TargetIndex(rings, n), TargetIndex(raised, n);
            after == before || (after == r && before > r)
  {
    var raised := rings[r := rings[r].(match_ := rings[r].match_.(percent := Some(percent)))];
    var before, after := TargetIndex(rings, n), TargetIndex(raised, n);
    assert forall j :: 0 <= j < |rings| && j != r ==> raised[j] == rings[j];
    assert Matches(rings[r].match_, n) ==> Matches(raised[r].match_, n);
    assert before < |rings| ==> Matches(raised[before].match_, n);
  }

  // ---- Freshness ----

  datatype Manifest = Manifest(freeze: bool, sequence: Option<nat>, validUntil: Option<int>, rings: seq<Ring>)

  /** `check_freshness`: not older than anything verified, not without a sequence once one was seen,
      and not past its deadline. */
  predicate Fresh(m: Manifest, lastSequence: nat, now: int)
  {
    && (lastSequence > 0 ==> m.sequence.Some? && m.sequence.value >= lastSequence)
    && (m.validUntil.Some? ==> now <= m.validUntil.value)
  }

  /** A manifest that is fresh stays so until its deadline, and no longer: never without one. */
  lemma FreshUntilDeadline(m: Manifest, lastSequence: nat, now: int, later: int)
    requires Fresh(m, lastSequence, now)
    ensures now <= later ==> (Fresh(m, lastSequence, later) <==> m.validUntil.None? || later <= m.validUntil.value)
  {
  }

  /** Once a manifest of sequence `last` was taken, exactly those that carry one and not a lower one are
      taken; before any, all are. */
  lemma FreshBySequence(m: Manifest, lastSequence: nat, now: int)
    requires m.validUntil.None? || now <= m.validUntil.value
    ensures Fresh(m, lastSequence, now) <==>
              match m.sequence
              case None => lastSequence == 0
              case Some(q) => lastSequence <= q
  {
  }

  // ---- Bundle digests ----

  predicate HexDigit(c: char)
  {
    '0' <= c <= '9' || 'a' <= c <= 'f' || 'A' <= c <= 'F'
  }

  /** `check_digest_form`: `sha256:` and 64 hexadecimal digits. */
  predicate IsDigest(d: string)
  {
    && |d| == 71 && d[..7] == "sha256:"
    && forall i :: 7 <= i < 71 ==> HexDigit(d[i])
  }

  /** A digest is the name of the hash and 64 characters of either case of hexadecimal. */
  lemma DigestIsExact(d: string)
    ensures IsDigest(d) <==> exists hex ::
              d == "sha256:" + hex && |hex| == 64 && forall c :: c in hex ==> c in "0123456789abcdefABCDEF"
  {
    forall c ensures HexDigit(c) <==> c in "0123456789abcdefABCDEF" {
      HexDigitIs(c);
    }
    hide HexDigit;
    if IsDigest(d) {
      assert d == "sha256:" + d[7..];
      assert forall i :: 0 <= i < 64 ==> d[7..][i] == d[i + 7];
    }
    if hex :| d == "sha256:" + hex && |hex| == 64 && forall c :: c in hex ==> c in "0123456789abcdefABCDEF" {
      forall i | 7 <= i < 71 ensures HexDigit(d[i]) {
        assert d[i] == hex[i - 7];
      }
    }
  }

  lemma HexDigitIs(c: char)
    ensures HexDigit(c) <==> c in "0123456789abcdefABCDEF"
  {
    var hex := "0123456789abcdefABCDEF";
    if '0' <= c <= '9' {
      assert hex[c as int - '0' as int] == c;
    } else if 'a' <= c <= 'f' {
      assert hex[10 + c as int - 'a' as int] == c;
    } else if 'A' <= c <= 'F' {
      assert hex[16 + c as int - 'A' as int] == c;
    }
  }

  /** The directory a digest is unpacked into. */
  function DirName(d: string): (s: string)
    ensures |s| == |d| && forall i :: 0 <= i < |d| ==> s[i] == if d[i] == ':' then '-' else d[i]
  {
    seq(|d|, i requires 0 <= i < |d| => if d[i] == ':' then '-' else d[i])
  }

  /** Different digests have different directories, none of which is a staging directory. */
  lemma DirNamesAreDistinct(d: string, e: string)
    requires IsDigest(d) && IsDigest(e)
    ensures DirName(d) == DirName(e) ==> d == e
    ensures !(".staging-" <= DirName(d))
  {
  }
}
