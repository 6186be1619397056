/** The volume directory as a state machine: three writers interleave filesystem calls in one
    directory, each may stop between any two of them, and readers look at any moment.

    A step is one filesystem call of one writer. The machine carries two things the directory
    itself does not: what each version was asked to hold, and which versions were swapped in. */
module Volume {
  import opened Text
  import opened VolumeNames

  // ---- The directory ----

  datatype Item = File(bytes: string) | Tree(docs: map<string, string>)

  type Files = map<FileName, Item>

  /** A version directory, a data link, or a visible link through a data link. */
  datatype Node =
    | Dir(files: Files)
    | ToVersion(chain: Chain, n: nat)
    | ToFile(chain: Chain, file: FileName)

  type Entries = map<Name, Node>

  /** What an application reads when it opens a visible name, following both links. */
  function Read(e: Entries, file: FileName): Option<Item>
  {
    if Visible(file) !in e || !e[Visible(file)].ToFile? then None else
    var l := e[Visible(file)];
    if Data(l.chain) !in e || !e[Data(l.chain)].ToVersion? then None else
    var d := e[Data(l.chain)];
    if Version(d.chain, d.n) !in e || !e[Version(d.chain, d.n)].Dir? then None else
    var files := e[Version(d.chain, d.n)].files;
    if l.file in files then Some(files[l.file]) else None
  }

  // ---- What a publication writes ----

  datatype Request =
    | PublishIdentity(key: string, cert: string, ca: string)
    | PublishPolicy(revision: string, documents: seq<(string, string)>)
    | PublishTokens(tokens: seq<(string, string)>)

  function ChainOf(r: Request): Chain
  {
    match r
    case PublishIdentity(_, _, _) => Identity
    case PublishPolicy(_, _) => Policy
    case PublishTokens(_) => Tokens
  }

  predicate IsAlias(alias: string)
  {
    alias != "" && '/' !in alias && alias[0] != '.'
  }

  /** An alias is one step below the directory of the tokens, and not a hidden one. */
  lemma AliasIsOneStep(alias: string)
    ensures IsAlias(alias) <==> SplitOn("jwt/" + alias, '/') == ["jwt", alias] && alias != "" && !("." <= alias)
  {
    var path := "jwt/" + alias;
    FindUnique(path, '/', 3);
    assert path[..3] == "jwt" && path[4..] == alias;
    assert SplitOn(path, '/') == ["jwt"] + SplitOn(alias, '/');
    if '/' !in alias {
      assert SplitOn(alias, '/') == [alias];
    } else {
      assert forall p :: p in SplitOn(path, '/') ==> '/' !in p;
      assert alias !in SplitOn(path, '/');
      assert ["jwt", alias][1] == alias;
    }
  }

  /** A token set with a bad alias is refused before anything is created. */
  predicate Accepted(r: Request)
  {
    r.PublishTokens? ==> forall i :: 0 <= i < |r.tokens| ==> IsAlias(r.tokens[i].0)
  }

  /** Documents written one after another: a later one of the same name wins. */
  function Overlay(docs: seq<(string, string)>): map<string, string>
  {
    if docs == [] then map[] else map[docs[0].0 := docs[0].1] + Overlay(docs[1..])
  }

  /** Document `i` is the last of its name. */
  predicate LastOf(docs: seq<(string, string)>, name: string, content: string, i: nat)
  {
    i < |docs| && docs[i] == (name, content) && forall j :: i < j < |docs| ==> docs[j].0 != name
  }

  /** The documents written are each name's last. */
  lemma {:induction false} OverlayIsLast(docs: seq<(string, string)>, name: string, content: string)
    ensures name in Overlay(docs) && Overlay(docs)[name] == content <==> exists i: nat :: LastOf(docs, name, content, i)
    decreases |docs|
  {
    if docs != [] {
      var rest := docs[1..];
      OverlayIsLast(rest, name, content);
      if i: nat :| LastOf(rest, name, content, i) {
        assert LastOf(docs, name, content, i + 1);
      }
      if i: nat :| LastOf(docs, name, content, i) {
        assert i > 0 ==> LastOf(rest, name, content, i - 1);
        assert i == 0 ==> forall d :: d in rest ==> d.0 != name;
      }
      OverlayNames(rest, name);
      if docs[0] == (name, content) && name !in Overlay(rest) {
        assert forall j :: 0 < j < |docs| ==> docs[j] == rest[j - 1];
        assert LastOf(docs, name, content, 0);
      }
    }
  }

  lemma {:induction false} OverlayNames(docs: seq<(string, string)>, name: string)
    ensures name in Overlay(docs) <==> exists i :: 0 <= i < |docs| && docs[i].0 == name
    decreases |docs|
  {
    if docs != [] {
      OverlayNames(docs[1..], name);
      assert forall j :: 0 < j < |docs| ==> docs[j] == docs[1..][j - 1];
    }
  }

  /** The generation a request stands for. */
  function Payload(r: Request): Files
  {
    match r
    case PublishIdentity(key, cert, ca) => map[Key := File(key), Cert := File(cert), Ca := File(ca)]
    case PublishPolicy(revision, docs) => map[PolicyDir := Tree(Overlay(docs)), Revision := File(revision + "\n")]
    case PublishTokens(tokens) => map[JwtDir := Tree(Overlay(tokens))]
  }

  /** One call that changes a version directory under construction. A file is created empty and
      filled afterwards. */
  datatype Write =
    | Create(file: FileName)
    | Fill(file: FileName, bytes: string)
    | MakeTree(file: FileName)
    | CreateDoc(tree: FileName, doc: string)
    | FillDoc(tree: FileName, doc: string, bytes: string)

  function Apply(files: Files, w: Write): Files
  {
    match w
    case Create(f) => files[f := File("")]
    case Fill(f, b) => files[f := File(b)]
    case MakeTree(f) => files[f := Tree(map[])]
    case CreateDoc(t, d) => if t in files && files[t].Tree? then files[t := Tree(files[t].docs[d := ""])] else files
    case FillDoc(t, d, b) => if t in files && files[t].Tree? then files[t := Tree(files[t].docs[d := b])] else files
  }

  function ApplyAll(files: Files, ws: seq<Write>): Files
    decreases |ws|
  {
    if ws == [] then files else ApplyAll(Apply(files, ws[0]), ws[1..])
  }

  function WriteDocs(tree: FileName, docs: seq<(string, string)>): seq<Write>
  {
    if docs == [] then []
    else [CreateDoc(tree, docs[0].0), FillDoc(tree, docs[0].0, docs[0].1)] + WriteDocs(tree, docs[1..])
  }

  /** The writes of `publish_identity`, `publish_policy` and `publish_tokens`, in order. */
  function Plan(r: Request): seq<Write>
  {
    match r
    case PublishIdentity(key, cert, ca) =>
      [Create(Key), Fill(Key, key), Create(Cert), Fill(Cert, cert), Create(Ca), Fill(Ca, ca)]
    case PublishPolicy(revision, docs) =>
      [MakeTree(PolicyDir)] + (WriteDocs(PolicyDir, docs) + [Create(Revision), Fill(Revision, revision + "\n")])
    case PublishTokens(tokens) =>
      [MakeTree(JwtDir)] + WriteDocs(JwtDir, tokens)
  }

  lemma {:induction false} ApplyAllConcat(files: Files, a: seq<Write>, b: seq<Write>)
    ensures ApplyAll(files, a + b) == ApplyAll(ApplyAll(files, a), b)
    decreases |a|
  {
    if a == [] {
      assert a + b == b;
    } else {
      assert (a + b)[1..] == a[1..] + b;
      ApplyAllConcat(Apply(files, a[0]), a[1..], b);
    }
  }

  lemma ApplyFirst(files: Files, ws: seq<Write>)
    requires ws != []
    ensures ApplyAll(files, ws) == ApplyAll(Apply(files, ws[0]), ws[1..])
  {
  }

  /** A file is created and then filled. */
  lemma TwoWrites(files: Files, a: Write, b: Write, rest: seq<Write>)
    ensures ApplyAll(files, [a, b] + rest) == ApplyAll(Apply(Apply(files, a), b), rest)
  {
  }

  lemma WriteOneDoc(files: Files, tree: FileName, m: map<string, string>, name: string, content: string,
                    rest: seq<Write>)
    ensures ApplyAll(files[tree := Tree(m)], [CreateDoc(tree, name), FillDoc(tree, name, content)] + rest)
            == ApplyAll(files[tree := Tree(m[name := content])], rest)
  {
    var start := files[tree := Tree(m)];
    TwoWrites(start, CreateDoc(tree, name), FillDoc(tree, name, content), rest);
    assert m[name := ""][name := content] == m[name := content];
    var created := Apply(start, CreateDoc(tree, name));
    assert created == files[tree := Tree(m[name := ""])];
    assert Apply(created, FillDoc(tree, name, content)) == files[tree := Tree(m[name := content])];
  }

  lemma {:induction false} WriteDocsBuilds(files: Files, tree: FileName, m: map<string, string>,
                                           docs: seq<(string, string)>)
    ensures ApplyAll(files[tree := Tree(m)], WriteDocs(tree, docs)) == files[tree := Tree(m + Overlay(docs))]
    decreases |docs|
  {
    if docs == [] {
      assert m + map[] == m;
    } else {
      WriteOneDoc(files, tree, m, docs[0].0, docs[0].1, WriteDocs(tree, docs[1..]));
      WriteDocsBuilds(files, tree, m[docs[0].0 := docs[0].1], docs[1..]);
      OverlayOnto(m, docs[0].0, docs[0].1, Overlay(docs[1..]));
    }
  }

  lemma OverlayOnto(m: map<string, string>, k: string, v: string, rest: map<string, string>)
    ensures m[k := v] + rest == m + (map[k := v] + rest)
  {
  }

  lemma IdentityPlan(key: string, cert: string, ca: string)
    ensures ApplyAll(map[], Plan(PublishIdentity(key, cert, ca))) == Payload(PublishIdentity(key, cert, ca))
  {
    var last := [Create(Ca), Fill(Ca, ca)] + [];
    var middle := [Create(Cert), Fill(Cert, cert)] + last;
    assert Plan(PublishIdentity(key, cert, ca)) == [Create(Key), Fill(Key, key)] + middle;
    WriteOneFile(map[], Key, key, middle);
    WriteOneFile(map[Key := File(key)], Cert, cert, last);
    WriteOneFile(map[Key := File(key), Cert := File(cert)], Ca, ca, []);
  }

  lemma WriteOneFile(files: Files, f: FileName, bytes: string, rest: seq<Write>)
    ensures ApplyAll(files, [Create(f), Fill(f, bytes)] + rest) == ApplyAll(files[f := File(bytes)], rest)
  {
    TwoWrites(files, Create(f), Fill(f, bytes), rest);
    assert files[f := File("")][f := File(bytes)] == files[f := File(bytes)];
  }

  lemma PolicyPlan(revision: string, docs: seq<(string, string)>)
    ensures ApplyAll(map[], Plan(PublishPolicy(revision, docs))) == Payload(PublishPolicy(revision, docs))
  {
    var tail := [Create(Revision), Fill(Revision, revision + "\n")] + [];
    var tree: Files := map[][PolicyDir := Tree(map[])];
    assert Plan(PublishPolicy(revision, docs))[1..] == WriteDocs(PolicyDir, docs) + tail;
    assert ApplyAll(map[], Plan(PublishPolicy(revision, docs))) == ApplyAll(tree, WriteDocs(PolicyDir, docs) + tail);
    ApplyAllConcat(tree, WriteDocs(PolicyDir, docs), tail);
    WriteDocsBuilds(map[], PolicyDir, map[], docs);
    assert map[] + Overlay(docs) == Overlay(docs);
    WriteOneFile(map[][PolicyDir := Tree(Overlay(docs))], Revision, revision + "\n", []);
  }

  lemma TokensPlan(tokens: seq<(string, string)>)
    ensures ApplyAll(map[], Plan(PublishTokens(tokens))) == Payload(PublishTokens(tokens))
  {
    var tree: Files := map[][JwtDir := Tree(map[])];
    assert Plan(PublishTokens(tokens))[1..] == WriteDocs(JwtDir, tokens);
    assert ApplyAll(map[], Plan(PublishTokens(tokens))) == ApplyAll(tree, WriteDocs(JwtDir, tokens));
    WriteDocsBuilds(map[], JwtDir, map[], tokens);
    assert map[] + Overlay(tokens) == Overlay(tokens);
  }

  /** Carried out to the end on a fresh directory, the writes leave exactly the generation asked for. */
  lemma PlanBuildsPayload(r: Request)
    ensures ApplyAll(map[], Plan(r)) == Payload(r)
  {
    match r
    case PublishIdentity(key, cert, ca) => IdentityPlan(key, cert, ca);
    case PublishPolicy(revision, docs) => PolicyPlan(revision, docs);
    case PublishTokens(tokens) => TokensPlan(tokens);
  }

  // ---- The writers ----

  datatype SwapStage = RemoveTmp | MakeTmp | Rename

  /** Where a writer stands in its publication. */
  datatype Phase =
    | Idle
    | Numbered(v: nat, r: Request)
    | Filling(v: nat, todo: seq<Write>)
    | Linking(v: nat, links: seq<FileName>)
    | Swapping(v: nat, stage: SwapStage)
    | Collecting(v: nat)

  /** `asked[n - 1]` is what version `n` was created to hold; `swaps` lists the versions the data
      link was pointed at, oldest first. */
  datatype Writer = Writer(phase: Phase, asked: seq<Files>, swaps: seq<nat>)

  const START := Writer(Idle, [], [])

  function Current(w: Writer): Option<nat>
  {
    if w.swaps == [] then None else Some(w.swaps[|w.swaps| - 1])
  }

  /** The version `next_version` picks: above every version directory of the chain, by one. */
  ghost predicate IsNext(c: Chain, e: Entries, v: nat)
  {
    && v >= 1
    && (forall n: nat {:trigger Version(c, n)} :: Version(c, n) in e ==> n < v)
    && (v == 1 || Version(c, v - 1) in e)
  }

  ghost predicate StepNumber(c: Chain, e: Entries, w: Writer, e': Entries, w': Writer)
  {
    && w.phase.Idle? && w'.phase.Numbered?
    && ChainOf(w'.phase.r) == c && Accepted(w'.phase.r) && IsNext(c, e, w'.phase.v)
    && e' == e && w' == w.(phase := w'.phase)
  }

  ghost predicate StepMakeDir(c: Chain, e: Entries, w: Writer, e': Entries, w': Writer)
  {
    && w.phase.Numbered? && Version(c, w.phase.v) !in e
    && e' == e[Version(c, w.phase.v) := Dir(map[])]
    && w' == w.(phase := Filling(w.phase.v, Plan(w.phase.r)), asked := w.asked + [Payload(w.phase.r)])
  }

  ghost predicate StepWrite(c: Chain, e: Entries, w: Writer, e': Entries, w': Writer)
  {
    && w.phase.Filling? && w.phase.todo != []
    && Version(c, w.phase.v) in e && e[Version(c, w.phase.v)].Dir?
    && e' == e[Version(c, w.phase.v) := Dir(Apply(e[Version(c, w.phase.v)].files, w.phase.todo[0]))]
    && w' == w.(phase := Filling(w.phase.v, w.phase.todo[1..]))
  }

  /** The last write done, the writer turns to the visible links. No call is made. */
  ghost predicate StepWritten(c: Chain, e: Entries, w: Writer, e': Entries, w': Writer)
  {
    && w.phase.Filling? && w.phase.todo == []
    && e' == e && w' == w.(phase := Linking(w.phase.v, VisibleFiles(c)))
  }

  ghost predicate StepLink(c: Chain, e: Entries, w: Writer, e': Entries, w': Writer)
  {
    && w.phase.Linking? && w.phase.links != []
    && e' == (if Visible(w.phase.links[0]) in e then e
              else e[Visible(w.phase.links[0]) := ToFile(c, w.phase.links[0])])
    && w' == w.(phase := Linking(w.phase.v, w.phase.links[1..]))
  }

  ghost predicate StepLinked(c: Chain, e: Entries, w: Writer, e': Entries, w': Writer)
  {
    && w.phase.Linking? && w.phase.links == []
    && e' == e && w' == w.(phase := Swapping(w.phase.v, RemoveTmp))
  }

  ghost predicate StepRemoveTmp(c: Chain, e: Entries, w: Writer, e': Entries, w': Writer)
  {
    && w.phase.Swapping? && w.phase.stage == RemoveTmp
    && e' == e - {DataTmp(c)} && w' == w.(phase := Swapping(w.phase.v, MakeTmp))
  }

  ghost predicate StepMakeTmp(c: Chain, e: Entries, w: Writer, e': Entries, w': Writer)
  {
    && w.phase.Swapping? && w.phase.stage == MakeTmp && DataTmp(c) !in e
    && e' == e[DataTmp(c) := ToVersion(c, w.phase.v)]
    && w' == w.(phase := Swapping(w.phase.v, Rename))
  }

  ghost predicate StepRename(c: Chain, e: Entries, w: Writer, e': Entries, w': Writer)
  {
    && w.phase.Swapping? && w.phase.stage == Rename && DataTmp(c) in e
    && e' == (e - {DataTmp(c)})[Data(c) := e[DataTmp(c)]]
    && w' == w.(phase := Collecting(w.phase.v), swaps := w.swaps + [w.phase.v])
  }

  /** One file, document or empty subdirectory unlinked by `remove_dir_all`. */
  ghost predicate Unlinked(files: Files, files': Files)
  {
    || (exists f :: f in files && (files[f].File? || files[f].docs == map[]) && files' == files - {f})
    || (exists f, d :: f in files && files[f].Tree? && d in files[f].docs
                       && files' == files[f := Tree(files[f].docs - {d})])
  }

  /** One call of the collection: something inside a stale version goes, or the emptied directory. */
  ghost predicate StepErase(c: Chain, e: Entries, w: Writer, e': Entries, w': Writer)
  {
    && w.phase.Collecting? && w' == w
    && exists n :: && Version(c, n) in e && e[Version(c, n)].Dir? && Stale(n, w.phase.v)
                   && var files := e[Version(c, n)].files;
                      || (files == map[] && e' == e - {Version(c, n)})
                      || exists files' :: Unlinked(files, files') && e' == e[Version(c, n) := Dir(files')]
  }

  /** The publication returns: finished, failed, or the process stopped. */
  ghost predicate StepReturn(c: Chain, e: Entries, w: Writer, e': Entries, w': Writer)
  {
    e' == e && w' == w.(phase := Idle)
  }

  ghost predicate Step(c: Chain, e: Entries, w: Writer, e': Entries, w': Writer)
  {
    || StepNumber(c, e, w, e', w') || StepMakeDir(c, e, w, e', w')
    || StepWrite(c, e, w, e', w') || StepWritten(c, e, w, e', w')
    || StepLink(c, e, w, e', w') || StepLinked(c, e, w, e', w')
    || StepRemoveTmp(c, e, w, e', w') || StepMakeTmp(c, e, w, e', w') || StepRename(c, e, w, e', w')
    || StepErase(c, e, w, e', w') || StepReturn(c, e, w, e', w')
  }

  // ---- What every step keeps ----

  /** Part of a generation: whatever is still there is what was asked for. */
  ghost predicate Fragment(files: Files, whole: Files)
  {
    forall f :: f in files ==>
      && f in whole
      && match files[f]
         case File(b) => whole[f] == File(b)
         case Tree(docs) =>
           whole[f].Tree? && forall d :: d in docs ==> d in whole[f].docs && docs[d] == whole[f].docs[d]
  }

  /** Version numbers in use, and that the newest is never collected. */
  ghost predicate VersionsOk(c: Chain, e: Entries, w: Writer)
  {
    && (forall n: nat {:trigger Version(c, n)} :: Version(c, n) in e ==> 1 <= n <= |w.asked| && e[Version(c, n)].Dir?)
    && (|w.asked| > 0 ==> Version(c, |w.asked|) in e)
    && (forall i :: 0 <= i < |w.swaps| ==> 1 <= w.swaps[i] <= |w.asked|)
    && (forall i, j :: 0 <= i < j < |w.swaps| ==> w.swaps[i] < w.swaps[j])
  }

  ghost predicate Whole(c: Chain, e: Entries, w: Writer, n: nat)
  {
    1 <= n <= |w.asked| && Version(c, n) in e && e[Version(c, n)] == Dir(w.asked[n - 1])
  }

  /** A version that was once current: whole while it is the current one or the one just before,
      afterwards at worst partly collected. */
  ghost predicate GenerationOk(c: Chain, e: Entries, w: Writer, n: nat)
    requires 1 <= n <= |w.asked| && w.swaps != []
  {
    && (!Stale(n, Current(w).value) ==> Whole(c, e, w, n))
    && (Version(c, n) in e && e[Version(c, n)].Dir? ==> Fragment(e[Version(c, n)].files, w.asked[n - 1]))
  }

  /** The data link names the last version swapped in. */
  ghost predicate GenerationsOk(c: Chain, e: Entries, w: Writer)
    requires VersionsOk(c, e, w)
  {
    && (Data(c) in e <==> w.swaps != [])
    && (w.swaps != [] ==> e[Data(c)] == ToVersion(c, Current(w).value))
    && (forall i :: 0 <= i < |w.swaps| ==> GenerationOk(c, e, w, w.swaps[i]))
  }

  ghost predicate LinksOk(c: Chain, e: Entries, w: Writer)
  {
    && (forall f :: f in VisibleFiles(c) && Visible(f) in e ==> e[Visible(f)] == ToFile(c, f))
    && (w.swaps != [] ==> forall f :: f in VisibleFiles(c) ==> Visible(f) in e)
  }

  ghost predicate Newest(w: Writer, v: nat)
  {
    v == |w.asked| && v >= 1 && (w.swaps != [] ==> Current(w).value < v)
  }

  ghost predicate PhaseOk(c: Chain, e: Entries, w: Writer)
    requires VersionsOk(c, e, w)
  {
    match w.phase
    case Idle => true
    case Numbered(v, r) => v == |w.asked| + 1 && ChainOf(r) == c && Accepted(r)
    case Filling(v, todo) => Newest(w, v) && ApplyAll(e[Version(c, v)].files, todo) == w.asked[v - 1]
    case Linking(v, links) =>
      && Newest(w, v) && Whole(c, e, w, v)
      && (forall f :: f in links ==> f in VisibleFiles(c))
      && (forall f :: f in VisibleFiles(c) && f !in links ==> Visible(f) in e)
    case Swapping(v, stage) =>
      && Newest(w, v) && Whole(c, e, w, v) && (forall f :: f in VisibleFiles(c) ==> Visible(f) in e)
      && (stage == Rename ==> DataTmp(c) in e && e[DataTmp(c)] == ToVersion(c, v))
    case Collecting(v) => w.swaps != [] && Current(w).value == v == |w.asked|
  }

  /** A generation some accepted request of this chain stands for. */
  ghost predicate IsGeneration(c: Chain, files: Files)
  {
    exists r :: ChainOf(r) == c && Accepted(r) && files == Payload(r)
  }

  /** Every version was asked to hold a generation of this chain. */
  ghost predicate AskedOk(c: Chain, w: Writer)
  {
    forall i :: 0 <= i < |w.asked| ==> IsGeneration(c, w.asked[i])
  }

  ghost predicate Inv(c: Chain, e: Entries, w: Writer)
  {
    AskedOk(c, w) && VersionsOk(c, e, w) && GenerationsOk(c, e, w) && LinksOk(c, e, w) && PhaseOk(c, e, w)
  }

  /** A step that leaves the data link and every once-current version alone. */
  lemma GenerationsFrame(c: Chain, e: Entries, w: Writer, e': Entries, w': Writer)
    requires VersionsOk(c, e, w) && VersionsOk(c, e', w') && GenerationsOk(c, e, w)
    requires w'.swaps == w.swaps && w.asked <= w'.asked
    requires Data(c) in e <==> Data(c) in e'
    requires Data(c) in e ==> e'[Data(c)] == e[Data(c)]
    requires forall i :: 0 <= i < |w.swaps| ==>
               && (Version(c, w.swaps[i]) in e <==> Version(c, w.swaps[i]) in e')
               && (Version(c, w.swaps[i]) in e ==> e'[Version(c, w.swaps[i])] == e[Version(c, w.swaps[i])])
    ensures GenerationsOk(c, e', w')
  {
  }

  lemma KeepsNumber(c: Chain, e: Entries, w: Writer, e': Entries, w': Writer)
    requires Inv(c, e, w) && StepNumber(c, e, w, e', w')
    ensures Inv(c, e', w')
  {
  }

  lemma KeepsMakeDir(c: Chain, e: Entries, w: Writer, e': Entries, w': Writer)
    requires Inv(c, e, w) && StepMakeDir(c, e, w, e', w')
    ensures Inv(c, e', w')
  {
    PlanBuildsPayload(w.phase.r);
    GenerationsFrame(c, e, w, e', w');
  }

  lemma KeepsFilling(c: Chain, e: Entries, w: Writer, files: Files, todo: seq<Write>)
    requires Inv(c, e, w) && w.phase.Filling? && ApplyAll(files, todo) == w.asked[w.phase.v - 1]
    ensures Inv(c, e[Version(c, w.phase.v) := Dir(files)], w.(phase := Filling(w.phase.v, todo)))
  {
    var e', w' := e[Version(c, w.phase.v) := Dir(files)], w.(phase := Filling(w.phase.v, todo));
    assert VersionsOk(c, e', w') && LinksOk(c, e', w') && PhaseOk(c, e', w');
    assert forall i :: 0 <= i < |w.swaps| ==> w.swaps[i] <= Current(w).value < w.phase.v;
    GenerationsFrame(c, e, w, e', w');
  }

  lemma KeepsWrite(c: Chain, e: Entries, w: Writer, e': Entries, w': Writer)
    requires Inv(c, e, w) && StepWrite(c, e, w, e', w')
    ensures Inv(c, e', w')
  {
    var files := e[Version(c, w.phase.v)].files;
    ApplyFirst(files, w.phase.todo);
    KeepsFilling(c, e, w, Apply(files, w.phase.todo[0]), w.phase.todo[1..]);
  }

  lemma KeepsWritten(c: Chain, e: Entries, w: Writer, e': Entries, w': Writer)
    requires Inv(c, e, w) && StepWritten(c, e, w, e', w')
    ensures Inv(c, e', w')
  {
    GenerationsFrame(c, e, w, e', w');
    assert ApplyAll(e[Version(c, w.phase.v)].files, []) == e[Version(c, w.phase.v)].files;
  }

  lemma KeepsLink(c: Chain, e: Entries, w: Writer, e': Entries, w': Writer)
    requires Inv(c, e, w) && StepLink(c, e, w, e', w')
    ensures Inv(c, e', w')
  {
    assert w.phase.links == [w.phase.links[0]] + w.phase.links[1..];
    GenerationsFrame(c, e, w, e', w');
  }

  lemma KeepsLinked(c: Chain, e: Entries, w: Writer, e': Entries, w': Writer)
    requires Inv(c, e, w) && StepLinked(c, e, w, e', w')
    ensures Inv(c, e', w')
  {
    GenerationsFrame(c, e, w, e', w');
  }

  lemma KeepsRemoveTmp(c: Chain, e: Entries, w: Writer, e': Entries, w': Writer)
    requires Inv(c, e, w) && StepRemoveTmp(c, e, w, e', w')
    ensures Inv(c, e', w')
  {
    GenerationsFrame(c, e, w, e', w');
  }

  lemma KeepsMakeTmp(c: Chain, e: Entries, w: Writer, e': Entries, w': Writer)
    requires Inv(c, e, w) && StepMakeTmp(c, e, w, e', w')
    ensures Inv(c, e', w')
  {
    GenerationsFrame(c, e, w, e', w');
  }

  lemma KeepsReturn(c: Chain, e: Entries, w: Writer, e': Entries, w': Writer)
    requires Inv(c, e, w) && StepReturn(c, e, w, e', w')
    ensures Inv(c, e', w')
  {
    GenerationsFrame(c, e, w, e', w');
  }

  lemma RenameGenerations(c: Chain, e: Entries, w: Writer, e': Entries, w': Writer)
    requires VersionsOk(c, e, w) && GenerationsOk(c, e, w) && VersionsOk(c, e', w')
    requires w.phase.Swapping? && Newest(w, w.phase.v) && Whole(c, e, w, w.phase.v)
    requires DataTmp(c) in e && e[DataTmp(c)] == ToVersion(c, w.phase.v)
    requires StepRename(c, e, w, e', w')
    ensures GenerationsOk(c, e', w')
  {
    forall i | 0 <= i < |w'.swaps| ensures GenerationOk(c, e', w', w'.swaps[i]) {
      if i < |w.swaps| {
        assert GenerationOk(c, e, w, w.swaps[i]);
        assert w.swaps[i] <= Current(w).value;
      } else {
        assert Whole(c, e', w', w.phase.v);
      }
    }
  }

  lemma KeepsRename(c: Chain, e: Entries, w: Writer, e': Entries, w': Writer)
    requires Inv(c, e, w) && StepRename(c, e, w, e', w')
    ensures Inv(c, e', w')
  {
    assert VersionsOk(c, e', w');
    RenameGenerations(c, e, w, e', w');
  }

  lemma UnlinkedIsFragment(files: Files, files': Files, whole: Files)
    requires Fragment(files, whole) && Unlinked(files, files')
    ensures Fragment(files', whole)
  {
  }

  lemma EraseGenerations(c: Chain, e: Entries, w: Writer, e': Entries, w': Writer)
    requires VersionsOk(c, e, w) && GenerationsOk(c, e, w) && VersionsOk(c, e', w')
    requires w.swaps != [] && w.phase == Collecting(Current(w).value) && StepErase(c, e, w, e', w')
    ensures GenerationsOk(c, e', w')
  {
    forall i | 0 <= i < |w.swaps| ensures GenerationOk(c, e', w, w.swaps[i]) {
      var n := w.swaps[i];
      assert GenerationOk(c, e, w, n);
      if Version(c, n) in e' && e'[Version(c, n)] != e[Version(c, n)] {
        UnlinkedIsFragment(e[Version(c, n)].files, e'[Version(c, n)].files, w.asked[n - 1]);
      }
    }
  }

  lemma KeepsErase(c: Chain, e: Entries, w: Writer, e': Entries, w': Writer)
    requires Inv(c, e, w) && StepErase(c, e, w, e', w')
    ensures Inv(c, e', w')
  {
    assert VersionsOk(c, e', w');
    EraseGenerations(c, e, w, e', w');
  }

  /** Every filesystem call of a chain's writer, and a stop at any point, keeps its invariant. */
  lemma StepKeepsInv(c: Chain, e: Entries, w: Writer, e': Entries, w': Writer)
    requires Inv(c, e, w) && Step(c, e, w, e', w')
    ensures Inv(c, e', w')
  {
    if StepNumber(c, e, w, e', w') {
      KeepsNumber(c, e, w, e', w');
    } else if StepMakeDir(c, e, w, e', w') {
      KeepsMakeDir(c, e, w, e', w');
    } else if StepWrite(c, e, w, e', w') {
      KeepsWrite(c, e, w, e', w');
    } else if StepWritten(c, e, w, e', w') {
      KeepsWritten(c, e, w, e', w');
    } else if StepLink(c, e, w, e', w') {
      KeepsLink(c, e, w, e', w');
    } else if StepLinked(c, e, w, e', w') {
      KeepsLinked(c, e, w, e', w');
    } else if StepRemoveTmp(c, e, w, e', w') {
      KeepsRemoveTmp(c, e, w, e', w');
    } else if StepMakeTmp(c, e, w, e', w') {
      KeepsMakeTmp(c, e, w, e', w');
    } else if StepRename(c, e, w, e', w') {
      KeepsRename(c, e, w, e', w');
    } else if StepErase(c, e, w, e', w') {
      KeepsErase(c, e, w, e', w');
    } else {
      KeepsReturn(c, e, w, e', w');
    }
  }
}
