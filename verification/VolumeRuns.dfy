/** Runs of the three writers sharing one volume, and what an application sees at any moment of one. */
module VolumeRuns {
  import opened Text
  import opened VolumeNames
  import opened Volume

  datatype System = System(entries: Entries, writers: map<Chain, Writer>)

  ghost predicate Total(s: System)
  {
    forall c: Chain :: c in s.writers
  }

  /** An empty volume with no publication under way. */
  ghost predicate Initial(s: System)
  {
    s.entries == map[] && Total(s) && forall c :: s.writers[c] == START
  }

  /** One filesystem call by the writer of chain `c`. */
  ghost predicate Moves(c: Chain, s: System, s': System)
    requires Total(s) && Total(s')
  {
    && Step(c, s.entries, s.writers[c], s'.entries, s'.writers[c])
    && forall d :: d != c ==> s'.writers[d] == s.writers[d]
  }

  ghost predicate Next(s: System, s': System)
  {
    Total(s) && Total(s') && (s == s' || exists c :: Moves(c, s, s'))
  }

  ghost predicate NextAt(run: seq<System>, i: nat)
  {
    0 < i < |run| && Next(run[i - 1], run[i])
  }

  ghost predicate IsRun(run: seq<System>)
  {
    |run| > 0 && Initial(run[0]) && forall i :: 0 < i < |run| ==> NextAt(run, i)
  }

  lemma RunIsTotal(run: seq<System>, i: nat)
    requires IsRun(run) && i < |run|
    ensures Total(run[i])
  {
    assert i > 0 ==> NextAt(run, i);
  }

  // ---- Chains do not meet ----

  /** The two directories hold the same entries under the names chain `c` owns. */
  ghost predicate SameFor(c: Chain, e: Entries, e': Entries)
  {
    forall x :: Owner(x) == c ==> (x in e <==> x in e') && (x in e ==> e'[x] == e[x])
  }

  lemma EraseIsLocal(c: Chain, d: Chain, e: Entries, w: Writer, e': Entries, w': Writer)
    requires c != d && StepErase(d, e, w, e', w')
    ensures SameFor(c, e, e')
  {
  }

  lemma LinkIsLocal(c: Chain, d: Chain, e: Entries, w: Writer, e': Entries, w': Writer)
    requires c != d && StepLink(d, e, w, e', w') && forall f :: f in w.phase.links ==> f in VisibleFiles(d)
    ensures SameFor(c, e, e')
  {
    assert w.phase.links[0] in VisibleFiles(d);
    assert Owner(Visible(w.phase.links[0])) == d;
  }

  lemma SwapIsLocal(c: Chain, d: Chain, e: Entries, w: Writer, e': Entries, w': Writer)
    requires c != d
    requires StepRemoveTmp(d, e, w, e', w') || StepMakeTmp(d, e, w, e', w') || StepRename(d, e, w, e', w')
    ensures SameFor(c, e, e')
  {
  }

  /** A step of one chain's writer touches no name of another chain. */
  lemma StepIsLocal(c: Chain, d: Chain, e: Entries, w: Writer, e': Entries, w': Writer)
    requires c != d && Step(d, e, w, e', w')
    requires w.phase.Linking? ==> forall f :: f in w.phase.links ==> f in VisibleFiles(d)
    ensures SameFor(c, e, e')
  {
    if StepLink(d, e, w, e', w') {
      LinkIsLocal(c, d, e, w, e', w');
    } else if StepErase(d, e, w, e', w') {
      EraseIsLocal(c, d, e, w, e', w');
    } else if StepRemoveTmp(d, e, w, e', w') || StepMakeTmp(d, e, w, e', w') || StepRename(d, e, w, e', w') {
      SwapIsLocal(c, d, e, w, e', w');
    }
  }

  lemma GenerationsRest(c: Chain, e: Entries, e': Entries, w: Writer)
    requires VersionsOk(c, e, w) && VersionsOk(c, e', w) && GenerationsOk(c, e, w) && SameFor(c, e, e')
    ensures GenerationsOk(c, e', w)
  {
  }

  /** The invariant of a chain reads nothing but that chain's names. */
  lemma InvIsLocal(c: Chain, e: Entries, e': Entries, w: Writer)
    requires Inv(c, e, w) && SameFor(c, e, e')
    ensures Inv(c, e', w)
  {
    assert forall n: nat :: Owner(Version(c, n)) == c;
    assert forall f :: f in VisibleFiles(c) ==> Owner(Visible(f)) == c;
    assert Owner(DataTmp(c)) == c;
    assert VersionsOk(c, e', w);
    GenerationsRest(c, e, e', w);
  }

  ghost predicate Good(s: System)
  {
    Total(s) && forall c :: Inv(c, s.entries, s.writers[c])
  }

  lemma MoveKeepsInv(c: Chain, d: Chain, s: System, s': System)
    requires Total(s) && Total(s') && Moves(d, s, s')
    requires Inv(c, s.entries, s.writers[c]) && Inv(d, s.entries, s.writers[d])
    ensures Inv(c, s'.entries, s'.writers[c])
  {
    if c == d {
      StepKeepsInv(c, s.entries, s.writers[c], s'.entries, s'.writers[c]);
    } else {
      StepIsLocal(c, d, s.entries, s.writers[d], s'.entries, s'.writers[d]);
      InvIsLocal(c, s.entries, s'.entries, s.writers[c]);
    }
  }

  lemma NextKeepsGood(s: System, s': System)
    requires Good(s) && Next(s, s')
    ensures Good(s')
  {
    if s != s' {
      var d :| Moves(d, s, s');
      forall c: Chain ensures Inv(c, s'.entries, s'.writers[c]) {
        MoveKeepsInv(c, d, s, s');
      }
    }
  }

  lemma {:induction false} RunIsGood(run: seq<System>, i: nat)
    requires IsRun(run) && i < |run|
    ensures Good(run[i])
  {
    if i > 0 {
      RunIsGood(run, i - 1);
      assert NextAt(run, i);
      NextKeepsGood(run[i - 1], run[i]);
    }
  }

  // ---- What an application sees ----

  /** No visible name of the chain can be opened. */
  ghost predicate NothingShown(c: Chain, e: Entries)
  {
    forall f :: f in VisibleFiles(c) ==> Read(e, f) == None
  }

  /** Every visible name of the chain reads as `files` has it. */
  ghost predicate Shows(c: Chain, e: Entries, files: Files)
  {
    forall f :: f in VisibleFiles(c) ==> f in files && Read(e, f) == Some(files[f])
  }

  lemma ViewOfChain(c: Chain, e: Entries, w: Writer)
    requires Inv(c, e, w)
    ensures w.swaps == [] ==> NothingShown(c, e)
    ensures w.swaps != [] ==> 1 <= Current(w).value <= |w.asked| && Shows(c, e, w.asked[Current(w).value - 1])
  {
  }

  /** In every reachable state of the three interleaved writers, stopped wherever they were, each
      chain's visible names all read the one generation that was asked of the version swapped in last,
      or none can be opened. */
  lemma AllOrNothing(run: seq<System>, i: nat, c: Chain)
    requires IsRun(run) && i < |run|
    ensures c in run[i].writers
    ensures var w := run[i].writers[c];
            if w.swaps == [] then NothingShown(c, run[i].entries)
            else && 1 <= Current(w).value <= |w.asked|
                 && IsGeneration(c, w.asked[Current(w).value - 1])
                 && Shows(c, run[i].entries, w.asked[Current(w).value - 1])
  {
    RunIsGood(run, i);
    ViewOfChain(c, run[i].entries, run[i].writers[c]);
  }

  /** What a chain's names read depends on that chain's entries alone. */
  lemma ReadIsLocal(c: Chain, e: Entries, e': Entries, f: FileName)
    requires SameFor(c, e, e') && f in VisibleFiles(c)
    requires Visible(f) in e ==> e[Visible(f)] == ToFile(c, f)
    requires Data(c) in e ==> e[Data(c)].ToVersion? && e[Data(c)].chain == c
    ensures Read(e', f) == Read(e, f)
  {
  }

  lemma StepLeavesOthersReading(c: Chain, d: Chain, f: FileName, e: Entries, v: Writer, w: Writer, e': Entries,
                                w': Writer)
    requires c != d && f in VisibleFiles(c) && Inv(c, e, v) && Inv(d, e, w) && Step(d, e, w, e', w')
    ensures Read(e', f) == Read(e, f)
  {
    StepIsLocal(c, d, e, w, e', w');
    ReadIsLocal(c, e, e', f);
  }

  /** A step of one chain never changes what another chain's names read. */
  lemma ChainsAreIndependent(run: seq<System>, i: nat, c: Chain, d: Chain, f: FileName)
    requires IsRun(run) && i + 1 < |run| && Total(run[i]) && Total(run[i + 1])
    requires Moves(d, run[i], run[i + 1]) && c != d && f in VisibleFiles(c)
    ensures Read(run[i + 1].entries, f) == Read(run[i].entries, f)
  {
    RunIsGood(run, i);
    var s, s' := run[i], run[i + 1];
    StepLeavesOthersReading(c, d, f, s.entries, s.writers[c], s.writers[d], s'.entries, s'.writers[d]);
  }

  // ---- What only grows ----

  ghost predicate Grows(c: Chain, s: System, s': System)
    requires Total(s) && Total(s')
  {
    s.writers[c].asked <= s'.writers[c].asked && s.writers[c].swaps <= s'.writers[c].swaps
  }

  lemma StepGrows(c: Chain, e: Entries, w: Writer, e': Entries, w': Writer)
    requires Step(c, e, w, e', w')
    ensures w.asked <= w'.asked && w.swaps <= w'.swaps
  {
  }

  lemma NextGrows(c: Chain, s: System, s': System)
    requires Next(s, s')
    ensures Grows(c, s, s')
  {
    if s != s' {
      var d :| Moves(d, s, s');
      if c == d {
        StepGrows(c, s.entries, s.writers[c], s'.entries, s'.writers[c]);
      }
    }
  }

  lemma {:induction false} RunGrows(run: seq<System>, c: Chain, i: nat, j: nat)
    requires IsRun(run) && i <= j < |run|
    ensures Total(run[i]) && Total(run[j]) && Grows(c, run[i], run[j])
    decreases j
  {
    RunIsTotal(run, i);
    RunIsTotal(run, j);
    if i < j {
      RunGrows(run, c, i, j - 1);
      assert NextAt(run, j);
      NextGrows(c, run[j - 1], run[j]);
    }
  }

  lemma StepDoesNotReuse(c: Chain, n: nat, e: Entries, w: Writer, e': Entries, w': Writer)
    requires Step(c, e, w, e', w') && n <= |w.asked| && Version(c, n) !in e
    requires w.phase.Numbered? ==> w.phase.v == |w.asked| + 1
    ensures Version(c, n) !in e'
  {
  }

  lemma MoveDoesNotReuse(c: Chain, d: Chain, n: nat, s: System, s': System)
    requires Total(s) && Total(s') && Moves(d, s, s') && Inv(d, s.entries, s.writers[d])
    requires n <= |s.writers[c].asked| && Version(c, n) !in s.entries
    ensures Version(c, n) !in s'.entries
  {
    if c == d {
      StepDoesNotReuse(c, n, s.entries, s.writers[c], s'.entries, s'.writers[c]);
    } else {
      StepIsLocal(c, d, s.entries, s.writers[d], s'.entries, s'.writers[d]);
      assert Owner(Version(c, n)) == c;
    }
  }

  /** A version directory that has gone does not come into being again. */
  lemma NextDoesNotReuse(c: Chain, n: nat, s: System, s': System)
    requires Good(s) && Next(s, s')
    requires n <= |s.writers[c].asked| && Version(c, n) !in s.entries
    ensures Version(c, n) !in s'.entries
  {
    if s != s' {
      var d :| Moves(d, s, s');
      MoveDoesNotReuse(c, d, n, s, s');
    }
  }

  lemma AskedBefore(run: seq<System>, c: Chain, n: nat, i: nat, k: nat)
    requires IsRun(run) && i <= k < |run| && Version(c, n) in run[i].entries
    ensures Total(run[k]) && n <= |run[k].writers[c].asked|
  {
    RunIsGood(run, i);
    assert Inv(c, run[i].entries, run[i].writers[c]);
    RunGrows(run, c, i, k);
  }

  lemma StaysGone(run: seq<System>, c: Chain, n: nat, i: nat, k: nat)
    requires IsRun(run) && i < k < |run|
    requires Version(c, n) in run[i].entries && Version(c, n) !in run[k - 1].entries
    ensures Version(c, n) !in run[k].entries
  {
    AskedBefore(run, c, n, i, k - 1);
    RunIsGood(run, k - 1);
    assert NextAt(run, k);
    NextDoesNotReuse(c, n, run[k - 1], run[k]);
  }

  /** Version numbers only grow: once a version directory is collected, no later state holds a
      directory of that name. */
  lemma {:induction false} NeverReused(run: seq<System>, c: Chain, n: nat, i: nat, j: nat, k: nat)
    requires IsRun(run) && i <= j <= k < |run|
    requires Version(c, n) in run[i].entries && Version(c, n) !in run[j].entries
    ensures Version(c, n) !in run[k].entries
    decreases k
  {
    if j < k {
      NeverReused(run, c, n, i, j, k - 1);
      StaysGone(run, c, n, i, k);
    }
  }
}
