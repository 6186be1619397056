/** Writing each volume the policy its identity should have: `Daemon::apply`, which goes by the
    published revision alone. */
module PolicyVolumes {
  import opened Text
  import opened Subscriptions

  /** What the volumes show: for each path the bundle last published there. */
  type Shown = map<string, Bundle>

  /** What the manager answered when each volume's turn came. */
  type Answers = map<string, Option<Bundle>>

  /** `published_revision`: the text of the revision file, trimmed, unless that is empty. */
  function PublishedRevision(shown: Shown, path: string): Option<string>
  {
    if path !in shown then None
    else
      var r := Trim(shown[path].revision + "\n");
      if r == "" then None else Some(r)
  }

  /** A volume is skipped: there is nothing to publish, or its revision file says it is up to date. */
  predicate Skipped(answer: Option<Bundle>, shown: Shown, path: string)
  {
    answer.None? || PublishedRevision(shown, path) == Some(answer.value.revision)
  }

  predicate Due(answers: Answers, before: Shown, fails: set<string>, p: string)
  {
    p in answers && !Skipped(answers[p], before, p) && p !in fails
  }

  predicate Same(before: Shown, shown: Shown, p: string)
  {
    (p in shown <==> p in before) && (p in shown ==> shown[p] == before[p])
  }

  /** What one path shows after `Daemon::apply`. */
  predicate Updated(answers: Answers, before: Shown, fails: set<string>, shown: Shown, p: string)
  {
    if Due(answers, before, fails, p) then p in shown && Some(shown[p]) == answers[p] else Same(before, shown, p)
  }

  function DueOf(answers: Answers, before: Shown, fails: set<string>, paths: seq<string>): set<string>
  {
    set p | p in paths && Due(answers, before, fails, p)
  }

  lemma DueMore(answers: Answers, before: Shown, fails: set<string>, paths: seq<string>, p: string)
    requires p !in paths
    ensures var was := DueOf(answers, before, fails, paths);
            |DueOf(answers, before, fails, paths + [p])| == |was| + if Due(answers, before, fails, p) then 1 else 0
  {
    hide Due;
    var was := DueOf(answers, before, fails, paths);
    assert DueOf(answers, before, fails, paths + [p]) == if Due(answers, before, fails, p) then was + {p} else was;
  }

  /** The paths of the listing so far are done, the others as they were. */
  ghost predicate Done(answers: Answers, before: Shown, fails: set<string>, paths: seq<string>, shown: Shown)
  {
    forall p :: if p in paths then Updated(answers, before, fails, shown, p) else Same(before, shown, p)
  }

  lemma DoneMore(answers: Answers, before: Shown, fails: set<string>, paths: seq<string>, p: string, shown: Shown)
    requires p !in paths && p in answers && Done(answers, before, fails, paths, shown)
    ensures Skipped(answers[p], shown, p) <==> Skipped(answers[p], before, p)
    ensures Due(answers, before, fails, p) ==>
              answers[p].Some? && Done(answers, before, fails, paths + [p], shown[p := answers[p].value])
    ensures !Due(answers, before, fails, p) ==> Done(answers, before, fails, paths + [p], shown)
  {
    assert Same(before, shown, p);
    if Due(answers, before, fails, p) {
      var after := shown[p := answers[p].value];
      forall q ensures if q in paths + [p] then Updated(answers, before, fails, after, q) else Same(before, after, q) {
        assert if q in paths then Updated(answers, before, fails, shown, q) else Same(before, shown, q);
      }
    }
  }

  /** `Daemon::apply`, the volumes listed in any order; `fails` are the paths that cannot be written. */
  method ApplyAll(answers: Answers, paths: seq<string>, before: Shown, fails: set<string>) returns (shown: Shown,
                                                                                                    written: nat)
    requires SetOf(paths) == answers.Keys && Unrepeated(paths)
    ensures forall p :: Updated(answers, before, fails, shown, p)
    ensures written == |DueOf(answers, before, fails, paths)|
  {
    hide Skipped, DueOf, Done;
    shown, written := before, 0;
    assert Done(answers, before, fails, [], shown) && DueOf(answers, before, fails, []) == {} by {
      NothingDone(answers, before, fails);
    }
    for k := 0 to |paths|
      invariant Done(answers, before, fails, paths[..k], shown)
      invariant written == |DueOf(answers, before, fails, paths[..k])|
    {
      var p := paths[k];
      NotBefore(paths, k);
      assert paths[..k + 1] == paths[..k] + [p] && p !in paths[..k];
      DoneMore(answers, before, fails, paths[..k], p, shown);
      DueMore(answers, before, fails, paths[..k], p);
      if !Skipped(answers[p], shown, p) && p !in fails {
        shown := shown[p := answers[p].value];
        written := written + 1;
      }
    }
    assert paths[..|paths|] == paths;
    AllDone(answers, before, fails, paths, shown);
  }

  lemma NothingDone(answers: Answers, before: Shown, fails: set<string>)
    ensures Done(answers, before, fails, [], before) && DueOf(answers, before, fails, []) == {}
  {
  }

  lemma AllDone(answers: Answers, before: Shown, fails: set<string>, paths: seq<string>, shown: Shown)
    requires SetOf(paths) == answers.Keys && Done(answers, before, fails, paths, shown)
    ensures forall p :: Updated(answers, before, fails, shown, p)
  {
    forall p ensures Updated(answers, before, fails, shown, p) {
      assert p in answers <==> p in SetOf(paths);
    }
  }

  /** Another bundle under the revision that is to be published. */
  predicate Mistaken(shown: Shown, path: string, bundle: Bundle)
  {
    path in shown && shown[path] != bundle && PublishedRevision(shown, path) == Some(bundle.revision)
  }

  /** A volume that can be written shows the bundle it should if and only if it did not already show
      something else under the same revision. */
  lemma ShownIff(answers: Answers, before: Shown, fails: set<string>, shown: Shown, p: string)
    requires Updated(answers, before, fails, shown, p) && p in answers && answers[p].Some? && p !in fails
    ensures (p in shown && shown[p] == answers[p].value) <==> !Mistaken(before, p, answers[p].value)
  {
  }

  /** Documents that change under one revision are not written. */
  lemma SameRevisionIsStale(shown: Shown)
    requires var now := Bundle("r1", [("d", "new")]);
             Updated(map["p" := Some(now)], map["p" := Bundle("r1", [("d", "old")])], {}, shown, "p")
    ensures "p" in shown && shown["p"] == Bundle("r1", [("d", "old")])
  {
    TrimLine("r1");
    assert TrimStart("r1") == "r1" && TrimEnd("r1") == "r1";
  }

  lemma {:induction false} TrimStartLine(s: string)
    ensures TrimStart(s + "\n") == if TrimStart(s) == "" then "" else TrimStart(s) + "\n"
    decreases |s|
  {
    if s == "" {
      assert s + "\n" == "\n" && "\n"[1..] == "";
    } else if IsWhitespace(s[0]) {
      assert (s + "\n")[1..] == s[1..] + "\n";
      TrimStartLine(s[1..]);
    }
  }

  /** The line break the revision file ends in is trimmed away. */
  lemma TrimLine(s: string)
    ensures Trim(s + "\n") == Trim(s)
  {
    TrimStartLine(s);
    var t := TrimStart(s);
    assert (t + "\n")[..|t|] == t;
  }

  /** A volume just written is skipped the next time if and only if the revision is one a trimmed file
      can hold; with any other it is written again on every pass. */
  lemma WrittenIsSkippedIff(bundle: Bundle, shown: Shown, p: string)
    requires p in shown && shown[p] == bundle
    ensures Skipped(Some(bundle), shown, p) <==> bundle.revision != "" && Trim(bundle.revision) == bundle.revision
  {
    TrimLine(bundle.revision);
  }

  // ---- A whole pass ----

  /** What the manager answers for every volume, asked one after another with no update in between. */
  function AnswersFor(b: Books, volumes: Volumes): (answers: Answers)
    ensures answers.Keys == volumes.Keys
  {
    map p | p in volumes :: BundleOf(b, volumes[p])
  }

  /** What a volume of this identity shows after a pass: the bundle to publish, unless there is none, it
      cannot be written, or it showed another one under the same revision; else what it showed before. */
  predicate ShowsAfter(b: Books, id: string, before: Shown, fails: set<string>, shown: Shown, p: string)
  {
    var bundle := BundleOf(b, id);
    if bundle.Some? && p !in fails && !Mistaken(before, p, bundle.value) then p in shown && shown[p] == bundle.value
    else Same(before, shown, p)
  }

  lemma PassShows(b: Books, volumes: Volumes, before: Shown, fails: set<string>, shown: Shown, p: string)
    requires Updated(AnswersFor(b, volumes), before, fails, shown, p)
    ensures if p in volumes then ShowsAfter(b, volumes[p], before, fails, shown, p) else Same(before, shown, p)
  {
    hide PublishedRevision;
    if p in volumes && BundleOf(b, volumes[p]).Some? && p !in fails {
      ShownIff(AnswersFor(b, volumes), before, fails, shown, p);
    }
  }

  /** One pass of the loop: the scan, then the writing. Afterwards every volume found shows what its
      identity should have, the exceptions being exactly those of `ShowsAfter`, the identities wanted are
      those of the volumes found, and no other volume is touched. */
  method RunPass(d: Daemon, readings: seq<(string, Reading)>, listed: seq<string>, relisted: seq<string>,
                 before: Shown, fails: set<string>) returns (shown: Shown, written: nat)
    requires d.InStep() && Lists(listed, d.volumes) && Lists(relisted, Found(readings)) && Unrepeated(relisted)
    modifies d, d.policy
    ensures d.InStep() && d.volumes == Found(readings)
    ensures forall p :: p in d.volumes ==> ShowsAfter(d.policy.books, d.volumes[p], before, fails, shown, p)
    ensures forall p :: p !in d.volumes ==> Same(before, shown, p)
  {
    hide Found, PublishedRevision;
    var _, _ := d.Scan(readings, listed, relisted);
    var answers := AnswersFor(d.policy.books, d.volumes);
    shown, written := ApplyAll(answers, relisted, before, fails);
    forall p
      ensures if p in d.volumes then ShowsAfter(d.policy.books, d.volumes[p], before, fails, shown, p)
              else Same(before, shown, p)
    {
      PassShows(d.policy.books, d.volumes, before, fails, shown, p);
    }
  }
}
