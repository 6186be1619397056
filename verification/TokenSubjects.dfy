/** Whose token a caller gets: the subject of every token is the caller's own ID exactly when the
    template substitutes nothing but trust domain, cluster, namespace and service account. */
module TokenSubjects {
  import opened Text
  import opened Template
  import opened TemplateMatch
  import opened TemplateCompile
  import opened Catalog
  import W = Window
  import opened Tokens
  import opened TokenRuns

  predicate OnlyIdentityFields(parts: seq<Part>)
  {
    forall f :: f in Fields(parts) ==> f == TrustDomain || f == Cluster || f == Namespace || f == ServiceAccount
  }

  /** An ID of this cluster is settled by the namespace and the account it names. */
  ghost predicate Determined(c: Config)
  {
    forall id, id', namespace, account ::
      SubjectOf(c, id, namespace, account) && SubjectOf(c, id', namespace, account) ==> id == id'
  }

  lemma CapturedIsNotEmpty(parts: seq<Part>, id: string, f: Field)
    requires Distinct(Fields(parts)) && AttributesOf(parts, id).Some? && f in Fields(parts)
    ensures AttributesOf(parts, id).value.Get(f) != ""
  {
    MatchIsSound(parts, id);
    var fields, caps := Fields(parts), Match(parts, id).value;
    var i :| 0 <= i < |fields| && fields[i] == f;
    SetAllThere(fields, caps, EMPTY, i);
    assert IsCapture(caps[i]);
  }

  lemma SameFieldsSameId(c: Config, id: string, id': string, namespace: string, account: string)
    requires Distinct(Fields(c.parts)) && OnlyIdentityFields(c.parts)
    requires CallerId(c, id, namespace, account) && CallerId(c, id', namespace, account)
    ensures id == id'
  {
    hide AttributesOf, IdOk, Distinct, Fields;
    var a, a' := AttributesOf(c.parts, id).value, AttributesOf(c.parts, id').value;
    var fields := Fields(c.parts);
    forall f | f in fields ensures a.Get(f) == a'.Get(f) {
      CapturedIsNotEmpty(c.parts, id, f);
      CapturedIsNotEmpty(c.parts, id', f);
    }
    RenderUndoesParse(c.parts, id);
    RenderUndoesParse(c.parts, id');
    assert Values(fields, a) == Values(fields, a') by {
      assert forall i :: 0 <= i < |fields| ==> fields[i] in fields;
    }
  }

  /** So it is whenever the template substitutes only trust domain, cluster, namespace and account. */
  lemma IdentityFieldsDetermine(c: Config)
    requires Distinct(Fields(c.parts)) && OnlyIdentityFields(c.parts)
    ensures Determined(c)
  {
    hide CallerId, IsName;
    forall id, id', namespace, account | SubjectOf(c, id, namespace, account) && SubjectOf(c, id', namespace, account)
      ensures id == id'
    {
      SameFieldsSameId(c, id, id', namespace, account);
    }
  }

  lemma SubjectIsOwn(c: Config, catalog: seq<Identity>, keys: Keys, caller: Caller, audience: string, now: int,
                     g: Grant)
    requires Determined(c) && IsCaller(c, caller) && Good(c, catalog, keys, caller, audience, now, g)
    ensures c.decode(g.token).value.sub == caller.id
  {
    hide CallerId, IsName, Lookup, Approves;
    assert SubjectOf(c, caller.id, caller.namespace, caller.serviceAccount);
  }

  /** After this run, a token granted to this certificate has the caller's own ID for its subject. */
  predicate OwnSubject(c: Config, b: Broker, ops: seq<Op>, cert: Certificate, audience: string, now: int,
                       answer: Answer)
  {
    Starting(b) && CallerOf(c, cert, now).Ok? ==>
      var caller := CallerOf(c, cert, now).value;
      var r := Single(c, Run(c, b, ops), caller, audience, now, answer).1;
      r.Ok? ==> c.decode(r.value.token).Some? && c.decode(r.value.token).value.sub == caller.id
  }

  ghost predicate SubjectLaw(c: Config)
  {
    forall b, ops, cert, audience, now, answer :: OwnSubject(c, b, ops, cert, audience, now, answer)
  }

  /** If namespace and account settle the ID, then over every run, cached or not, the subject of every
      token granted is the caller's own ID. */
  lemma DeterminedIsEnough(c: Config)
    requires Determined(c)
    ensures SubjectLaw(c)
  {
    hide Run, CallerOf, Single, Good, Determined, IsCaller, Starting;
    forall b, ops, cert, audience, now, answer ensures OwnSubject(c, b, ops, cert, audience, now, answer) {
      if Starting(b) && CallerOf(c, cert, now).Ok? {
        var caller, before := CallerOf(c, cert, now).value, Run(c, b, ops);
        var (after, r) := Single(c, before, caller, audience, now, answer);
        EveryGrantIsGood(c, b, ops, cert, audience, now, answer);
        CallerIsCaller(c, cert, now);
        if r.Ok? {
          SubjectIsOwn(c, before.catalog, after.keys, caller, audience, now, r.value);
          GoodDecodes(c, before.catalog, after.keys, caller, audience, now, r.value);
        }
      }
    }
  }

  /** So it is for every template without pod and node fields. */
  lemma SubjectLawHolds(c: Config)
    requires Distinct(Fields(c.parts)) && OnlyIdentityFields(c.parts)
    ensures SubjectLaw(c)
  {
    hide Determined, OnlyIdentityFields, Distinct, OwnSubject;
    IdentityFieldsDetermine(c);
    DeterminedIsEnough(c);
  }

  lemma GoodDecodes(c: Config, catalog: seq<Identity>, keys: Keys, caller: Caller, audience: string, now: int, g: Grant)
    requires Good(c, catalog, keys, caller, audience, now, g)
    ensures c.decode(g.token).Some?
  {
  }

  // ---- Two IDs of one account ----

  /** The value with another first character. */
  function Other(v: string): (w: string)
    requires v != ""
    ensures |w| == |v| && w != v && w[1..] == v[1..] && w[0] != '/'
  {
    (if v[0] == 'a' then "b" else "a") + v[1..]
  }

  /** Texts of one shape: slashes at the same places, and no character wider than before. */
  ghost predicate SameShape(s: string, t: string)
  {
    |s| == |t| && forall i :: 0 <= i < |s| ==> (s[i] == '/' <==> t[i] == '/') && Utf8Width(t[i]) <= Utf8Width(s[i])
  }

  lemma OtherHasSameShape(v: string)
    requires IsCapture(v)
    ensures SameShape(v, Other(v)) && IsCapture(Other(v))
  {
    var w := Other(v);
    assert v == [v[0]] + v[1..] && w == [w[0]] + w[1..];
  }

  lemma SameShapeConcat(s: string, t: string, s': string, t': string)
    requires SameShape(s, t) && SameShape(s', t')
    ensures SameShape(s + s', t + t')
  {
  }

  lemma {:induction false} SubstituteSameShape(parts: seq<Part>, caps: seq<string>, other: seq<string>)
    requires |caps| == |other| == Count(parts) && forall i :: 0 <= i < |caps| ==> SameShape(caps[i], other[i])
    ensures SameShape(Substitute(parts, caps), Substitute(parts, other))
    decreases |parts|
  {
    hide SameShape;
    ShapeOfItself("");
    if parts != [] {
      var rest := parts[1..];
      if parts[0].Literal? {
        SubstituteSameShape(rest, caps, other);
        assert SameShape(parts[0].text, parts[0].text) by { ShapeOfItself(parts[0].text); }
        SameShapeConcat(parts[0].text, parts[0].text, Substitute(rest, caps), Substitute(rest, other));
      } else {
        SubstituteSameShape(rest, caps[1..], other[1..]);
        SameShapeConcat(caps[0], other[0], Substitute(rest, caps[1..]), Substitute(rest, other[1..]));
      }
    }
  }

  lemma ShapeOfItself(s: string)
    ensures SameShape(s, s)
  {
  }

  lemma {:induction false} ShapeNotLonger(s: string, t: string)
    requires SameShape(s, t)
    ensures Utf8Len(t) <= Utf8Len(s)
    decreases |s|
  {
    if s != "" {
      ShapeNotLonger(s[1..], t[1..]);
    }
  }

  lemma ShapeFind(s: string, t: string)
    requires SameShape(s, t)
    ensures Find(s, '/') == Find(t, '/')
  {
    var i := Find(s, '/');
    if i < |s| {
      FindUnique(t, '/', i);
    }
  }

  lemma {:induction false} ShapeSplits(s: string, t: string)
    requires SameShape(s, t)
    ensures "" in SplitOn(s, '/') <==> "" in SplitOn(t, '/')
    decreases |s|
  {
    ShapeFind(s, t);
    hide Find;
    var i := Find(s, '/');
    if i < |s| {
      hide SplitOn;
      ShapeSplits(s[i + 1..], t[i + 1..]);
      EmptyPiece(s);
      EmptyPiece(t);
    } else {
      assert SplitOn(s, '/') == [s] && SplitOn(t, '/') == [t];
    }
  }

  lemma EmptyPiece(s: string)
    requires Find(s, '/') < |s|
    ensures "" in SplitOn(s, '/') <==> Find(s, '/') == 0 || "" in SplitOn(s[Find(s, '/') + 1..], '/')
  {
    var i := Find(s, '/');
    assert SplitOn(s, '/') == [s[..i]] + SplitOn(s[i + 1..], '/');
  }

  lemma ShapeDrop(s: string, t: string, n: nat)
    requires SameShape(s, t) && n <= |s|
    ensures |s| == |t| && SameShape(s[n..], t[n..])
  {
  }

  /** An ID of the same shape is an ID. */
  lemma ShapeIsOk(id: string, id': string)
    requires IdOk(id) && SameShape(id, id') && SCHEME <= id'
    ensures IdOk(id')
  {
    hide SplitOn, Utf8Len, SameShape, Find;
    ShapeNotLonger(id, id');
    ShapeDrop(id, id', |SCHEME|);
    var rest, rest' := id[|SCHEME|..], id'[|SCHEME|..];
    ShapeFind(rest, rest');
    var i := Find(rest, '/');
    ShapeDrop(rest, rest', 0);
    if i + 1 < |rest| {
      ShapeDrop(rest, rest', i + 1);
      ShapeSplits(rest[i + 1..], rest'[i + 1..]);
    }
  }

  lemma EarlyIgnoresFirst(v: string, w: string, next: string)
    requires |v| == |w| > 0 && v[1..] == w[1..]
    ensures Early(v, next) == Early(w, next)
  {
    forall i | 1 <= i < |v| ensures OccursAt(v + next, i, next) == OccursAt(w + next, i, next) {
      assert (v + next)[i..i + |next|] == (w + next)[i..i + |next|] by {
        assert forall k :: 1 <= k < |v| ==> v[k] == v[1..][k - 1] && w[k] == w[1..][k - 1];
      }
    }
  }

  /** Another first character makes no value end early. */
  lemma {:induction false} ClearIgnoresFirst(parts: seq<Part>, caps: seq<string>, other: seq<string>)
    requires |caps| == |other| == Count(parts)
    requires forall i :: 0 <= i < |caps| ==> |caps[i]| == |other[i]| > 0 && caps[i][1..] == other[i][1..]
    ensures Clear(parts, caps) == Clear(parts, other)
    decreases |parts|
  {
    hide Early;
    if parts != [] {
      if parts[0].Literal? {
        ClearIgnoresFirst(parts[1..], caps, other);
      } else {
        ClearIgnoresFirst(parts[1..], caps[1..], other[1..]);
        EarlyIgnoresFirst(caps[0], other[0], Lead(parts[1..]));
      }
    }
  }

  /** The template starts with the scheme, as every one that compiles does. */
  predicate Schemed(parts: seq<Part>)
  {
    parts != [] && parts[0].Literal? && SCHEME <= parts[0].text
  }

  lemma SchemeStays(parts: seq<Part>, caps: seq<string>)
    requires Schemed(parts) && |caps| == Count(parts)
    ensures SCHEME <= Substitute(parts, caps)
  {
    var t := parts[0].text;
    assert (t + Substitute(parts[1..], caps))[..|SCHEME|] == t[..|SCHEME|];
  }

  /** With another first character in one captured value an ID is still an ID of the template, another
      one, and only that field reads differently. */
  lemma AnotherId(parts: seq<Part>, id: string, f: Field) returns (id': string)
    requires Schemed(parts) && Distinct(Fields(parts)) && f in Fields(parts) && IdOk(id)
    requires AttributesOf(parts, id).Some?
    ensures id' != id && IdOk(id') && AttributesOf(parts, id').Some?
    ensures forall g :: g != f ==> AttributesOf(parts, id').value.Get(g) == AttributesOf(parts, id).value.Get(g)
  {
    hide IdOk, Match, Clear, Substitute, SameShape, SetAll;
    var fields, caps := Fields(parts), Match(parts, id).value;
    MatchIsSound(parts, id);
    var j :| 0 <= j < |fields| && fields[j] == f;
    assert IsCapture(caps[j]);
    var caps' := caps[j := Other(caps[j])];
    OtherHasSameShape(caps[j]);
    forall i | 0 <= i < |caps| ensures SameShape(caps[i], caps'[i]) && IsCapture(caps'[i]) {
      ShapeOfItself(caps[i]);
    }
    SubstituteSameShape(parts, caps, caps');
    SchemeStays(parts, caps');
    id' := Substitute(parts, caps');
    ShapeIsOk(id, id');
    MatchesBackIffClear(parts, caps);
    ClearIgnoresFirst(parts, caps, caps');
    MatchesBackIffClear(parts, caps');
    assert caps'[j] != caps[j];
    OtherFieldsStay(fields, caps, caps', j);
  }

  lemma OtherFieldsStay(fields: seq<Field>, caps: seq<string>, other: seq<string>, j: nat)
    requires Distinct(fields) && |fields| == |caps| == |other| && j < |fields|
    requires forall i :: 0 <= i < |caps| && i != j ==> other[i] == caps[i]
    ensures forall g :: g != fields[j] ==> SetAll(fields, other, EMPTY).Get(g) == SetAll(fields, caps, EMPTY).Get(g)
  {
    hide SetAll;
    forall g | g != fields[j] ensures SetAll(fields, other, EMPTY).Get(g) == SetAll(fields, caps, EMPTY).Get(g) {
      if g in fields {
        var i :| 0 <= i < |fields| && fields[i] == g;
        SetAllThere(fields, caps, EMPTY, i);
        SetAllThere(fields, other, EMPTY, i);
      } else {
        SetAllOther(fields, caps, EMPTY, g);
        SetAllOther(fields, other, EMPTY, g);
      }
    }
  }

  // ---- A run that breaks the law ----

  /** A catalog, certificates and answers. */
  function OneEntry(namespace: string, account: string): seq<Identity>
  {
    [Identity("*", namespace, account, None, [Audience("a", "x")])]
  }

  function CertificateFor(id: string): Certificate
  {
    Certificate(false, 0, 10, Some([id]))
  }

  lemma OneEntryIsFound(cluster: string, namespace: string, account: string)
    requires IsName(namespace) && IsName(account)
    ensures EntriesOk(OneEntry(namespace, account))
    ensures Lookup(OneEntry(namespace, account), cluster, namespace, account) == Some(OneEntry(namespace, account)[0])
  {
  }

  lemma Accepted(c: Config, id: string, namespace: string, account: string)
    requires SubjectOf(c, id, namespace, account)
    ensures CallerOf(c, CertificateFor(id), 0) == Ok(Caller(id, namespace, account, 10))
  {
  }

  /** A broker that published key "k" and served `id` one token with audience "x". */
  function ServedOnce(c: Config, id: string, namespace: string, account: string, token: string): seq<Op>
  {
    [Refresh(Some({"k"})), Ask(CertificateFor(id), "x", 0, Answer(Ok(token), None))]
  }

  lemma AfterServing(c: Config, id: string, namespace: string, account: string, token: string, jti: string)
    requires SubjectOf(c, id, namespace, account)
    requires c.decode(token) == Some(Unverified("k", id, ["x"], 10, 0, jti))
    ensures var start := Broker(map[], Keys(None, I64_MIN), W.NEW, OneEntry(namespace, account));
            var after := Run(c, start, ServedOnce(c, id, namespace, account, token));
            && after.catalog == OneEntry(namespace, account) && after.keys.kids == Some({"k"})
            && after.cache ==
                  map[(RoleName(c.cluster, namespace, account), "x") := Cached(token, c.decode(token).value)]
  {
    hide CallerOf, SubjectOf, Lookup, RoleName, W.Apply;
    var start := Broker(map[], Keys(None, I64_MIN), W.NEW, OneEntry(namespace, account));
    var ops := ServedOnce(c, id, namespace, account, token);
    var ready := Apply(c, start, ops[0]);
    TwoSteps(c, start, ops);
    Accepted(c, id, namespace, account);
    assert IsName(namespace) && IsName(account) by { SubjectMeans(c, id, namespace, account); }
    OneEntryIsFound(c.cluster, namespace, account);
    var entry := OneEntry(namespace, account)[0];
    assert AliasOf(entry.audiences, "x") == Some("a");
    assert ready.keys == Keys(Some({"k"}), I64_MIN);
  }

  lemma TwoSteps(c: Config, b: Broker, ops: seq<Op>)
    requires |ops| == 2
    ensures Run(c, b, ops) == Apply(c, Apply(c, b, ops[0]), ops[1])
  {
    hide Apply;
    var mid := Apply(c, b, ops[0]);
    assert ops[1..][0] == ops[1] && ops[1..][1..] == [];
    assert Run(c, mid, ops[1..]) == Run(c, Apply(c, mid, ops[1]), []);
  }

  lemma SubjectMeans(c: Config, id: string, namespace: string, account: string)
    requires SubjectOf(c, id, namespace, account)
    ensures IsName(namespace) && IsName(account)
  {
  }

  /** If two IDs of the cluster name the same namespace and account, there is a run after which the one
      is granted a token whose subject is the other. */
  lemma SharedToken(c: Config, id: string, id': string, namespace: string, account: string, token: string,
                    jti: string, answer: Answer)
    requires id != id' && SubjectOf(c, id, namespace, account) && SubjectOf(c, id', namespace, account)
    requires c.decode(token) == Some(Unverified("k", id, ["x"], 10, 0, jti))
    ensures var start := Broker(map[], Keys(None, I64_MIN), W.NEW, OneEntry(namespace, account));
            !OwnSubject(c, start, ServedOnce(c, id, namespace, account, token), CertificateFor(id'), "x", 0, answer)
  {
    hide CallerOf, SubjectOf, Lookup, RoleName, Run, EntriesOk, Mint;
    AfterServing(c, id, namespace, account, token, jti);
    Accepted(c, id', namespace, account);
    SubjectMeans(c, id, namespace, account);
    OneEntryIsFound(c.cluster, namespace, account);
    assert AliasOf(OneEntry(namespace, account)[0].audiences, "x") == Some("a");
  }

  /** Vault can mint a token for any subject. */
  ghost predicate Mintable(c: Config)
  {
    forall id :: HasToken(c, id)
  }

  ghost predicate HasToken(c: Config, id: string)
  {
    exists token :: c.decode(token) == Some(Unverified("k", id, ["x"], 10, 0, ""))
  }

  /** The law, exactly, for any template and pattern: every token has its caller's own ID for its subject
      if and only if no two accepted IDs name the same namespace and account. */
  lemma SubjectLawIffDetermined(c: Config)
    requires Mintable(c)
    ensures SubjectLaw(c) <==> Determined(c)
  {
    hide SubjectOf, OwnSubject;
    if Determined(c) {
      DeterminedIsEnough(c);
    } else {
      var id, id', namespace, account :|
        SubjectOf(c, id, namespace, account) && SubjectOf(c, id', namespace, account) && id != id';
      assert HasToken(c, id);
      var token :| c.decode(token) == Some(Unverified("k", id, ["x"], 10, 0, ""));
      SharedToken(c, id, id', namespace, account, token, "", Answer(Err(Broken), None));
    }
  }

  /** On the template: where any caller is accepted at all and no pattern is set, every token has its
      caller's own ID for its subject if and only if the template substitutes only trust domain,
      cluster, namespace and service account. */
  lemma SubjectLawIff(c: Config, id: string, namespace: string, account: string)
    requires Schemed(c.parts) && Distinct(Fields(c.parts)) && Mintable(c) && SubjectOf(c, id, namespace, account)
    requires forall x :: c.pattern(x)
    ensures SubjectLaw(c) <==> OnlyIdentityFields(c.parts)
  {
    hide AttributesOf, IdOk, Fields, Distinct, IsName, OwnSubject;
    if OnlyIdentityFields(c.parts) {
      SubjectLawHolds(c);
    } else {
      var f :| f in Fields(c.parts) && f != TrustDomain && f != Cluster && f != Namespace && f != ServiceAccount;
      var id' := AnotherId(c.parts, id, f);
      var a, b := AttributesOf(c.parts, id).value, AttributesOf(c.parts, id').value;
      assert a.Get(TrustDomain) == b.Get(TrustDomain) && a.Get(Cluster) == b.Get(Cluster);
      assert a.Get(Namespace) == b.Get(Namespace) && a.Get(ServiceAccount) == b.Get(ServiceAccount);
      assert SubjectOf(c, id', namespace, account);
      assert HasToken(c, id);
      var token :| c.decode(token) == Some(Unverified("k", id, ["x"], 10, 0, ""));
      SharedToken(c, id, id', namespace, account, token, "", Answer(Err(Broken), None));
    }
  }

  // ---- Templates that compile ----

  lemma {:induction false} LiteralStays(raw: string, literal: string)
    requires literal != "" && Split(raw, literal).Ok?
    ensures var parts := Split(raw, literal).value; parts != [] && parts[0].Literal? && literal <= parts[0].text
    decreases |raw|
  {
    if raw != "" {
      if raw[0] == '{' && |raw| > 1 && raw[1] == '{' {
        LiteralStays(raw[2..], literal + "{");
      } else if raw[0] == '}' && |raw| > 1 && raw[1] == '}' {
        LiteralStays(raw[2..], literal + "}");
      } else if raw[0] != '{' && raw[0] != '}' {
        LiteralStays(raw[1..], literal + [raw[0]]);
      }
    }
  }

  lemma {:induction false} PlainIsRead(text: string, rest: string, literal: string)
    requires '{' !in text && '}' !in text
    ensures Split(text + rest, literal) == Split(rest, literal + text)
    decreases |text|
  {
    if text == "" {
      assert text + rest == rest && literal + text == literal;
    } else {
      assert (text + rest)[1..] == text[1..] + rest;
      PlainIsRead(text[1..], rest, literal + [text[0]]);
      assert literal + [text[0]] + text[1..] == literal + text;
    }
  }

  /** Every template that compiles starts with the scheme and has distinct fields, so the law holds of
      it exactly as stated. */
  lemma CompiledIsSchemed(raw: string)
    requires Compile(raw).Ok?
    ensures Schemed(Compile(raw).value.parts) && Distinct(Fields(Compile(raw).value.parts))
  {
    hide Split, Render, AttributesOf;
    var rest := raw[|SCHEME|..];
    assert raw == SCHEME + rest && "" + SCHEME == SCHEME;
    PlainIsRead(SCHEME, rest, "");
    LiteralStays(rest, SCHEME);
  }
}
