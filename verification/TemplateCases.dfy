/** A template with a dot between two placeholders compiles, and does not always read its IDs back. */
module TemplateCases {
  import opened Text
  import opened Template
  import opened TemplateMatch
  import opened TemplateCompile

  /** The template `spiffe://{trust_domain}/{cluster}.{namespace}/{service_account}`. */
  const RAW := "spiffe://" + ("{trust_domain}" + ("/" + ("{cluster}" + ("." + ("{namespace}" + ("/" +
               ("{service_account}" + "")))))))

  const ACCOUNT := [Placeholder(ServiceAccount)] + []
  const FROM_NAMESPACE := [Placeholder(Namespace)] + ([Literal("/")] + ACCOUNT)
  const FROM_CLUSTER := [Placeholder(Cluster)] + ([Literal(".")] + FROM_NAMESPACE)
  const DOTTED := [Literal("spiffe://")] + ([Placeholder(TrustDomain)] + ([Literal("/")] + FROM_CLUSTER))

  // ---- One part at a time ----

  lemma LiteralFirst(t: string, rest: seq<Part>, caps: seq<string>)
    ensures var all := [Literal(t)] + rest;
            && Count(all) == Count(rest) && Fields(all) == Fields(rest) && Lead(all) == t + Lead(rest)
            && Write(all) == Escape(t) + Write(rest)
            && (|caps| == Count(rest) ==>
                  Substitute(all, caps) == t + Substitute(rest, caps) && Clear(all, caps) == Clear(rest, caps))
  {
    var all := [Literal(t)] + rest;
    assert all[0] == Literal(t) && all[1..] == rest;
  }

  lemma PlaceholderFirst(f: Field, rest: seq<Part>, v: string, caps: seq<string>)
    ensures var all := [Placeholder(f)] + rest;
            && Count(all) == 1 + Count(rest) && Fields(all) == [f] + Fields(rest) && Lead(all) == ""
            && Write(all) == ("{" + FieldName(f) + "}") + Write(rest)
            && (|caps| == Count(rest) ==>
                  && Substitute(all, [v] + caps) == v + Substitute(rest, caps)
                  && (Clear(all, [v] + caps) <==> (Count(rest) > 0 ==> !Early(v, Lead(rest))) && Clear(rest, caps)))
  {
    var all := [Placeholder(f)] + rest;
    assert all[0] == Placeholder(f) && all[1..] == rest && ([v] + caps)[1..] == caps;
  }

  lemma AccountIs(d: string)
    ensures Count(ACCOUNT) == 1 && Fields(ACCOUNT) == [ServiceAccount] && Lead(ACCOUNT) == ""
    ensures Write(ACCOUNT) == "{service_account}" + ""
    ensures Substitute(ACCOUNT, [d]) == d && Clear(ACCOUNT, [d])
  {
    PlaceholderFirst(ServiceAccount, [], d, []);
    assert [d] + [] == [d] && d + "" == d;
    assert "{" + "service_account" + "}" == "{service_account}";
  }

  lemma FromNamespace(c: string, d: string)
    ensures Count(FROM_NAMESPACE) == 2 && Fields(FROM_NAMESPACE) == [Namespace, ServiceAccount]
    ensures Lead(FROM_NAMESPACE) == ""
    ensures Write(FROM_NAMESPACE) == "{namespace}" + (Escape("/") + Write(ACCOUNT))
    ensures Substitute(FROM_NAMESPACE, [c, d]) == c + ("/" + d) && (Clear(FROM_NAMESPACE, [c, d]) <==> !Early(c, "/"))
  {
    AccountIs(d);
    LiteralFirst("/", ACCOUNT, [d]);
    PlaceholderFirst(Namespace, [Literal("/")] + ACCOUNT, c, [d]);
    assert [c] + [d] == [c, d] && "/" + "" == "/";
    assert "{" + "namespace" + "}" == "{namespace}";
  }

  lemma FromCluster(b: string, c: string, d: string)
    ensures Count(FROM_CLUSTER) == 3 && Fields(FROM_CLUSTER) == [Cluster, Namespace, ServiceAccount]
    ensures Lead(FROM_CLUSTER) == ""
    ensures Write(FROM_CLUSTER) == "{cluster}" + (Escape(".") + Write(FROM_NAMESPACE))
    ensures Substitute(FROM_CLUSTER, [b, c, d]) == b + ("." + (c + ("/" + d)))
    ensures Clear(FROM_CLUSTER, [b, c, d]) <==> !Early(b, ".") && !Early(c, "/")
  {
    FromNamespace(c, d);
    LiteralFirst(".", FROM_NAMESPACE, [c, d]);
    PlaceholderFirst(Cluster, [Literal(".")] + FROM_NAMESPACE, b, [c, d]);
    assert [b] + [c, d] == [b, c, d] && "." + "" == ".";
    assert "{" + "cluster" + "}" == "{cluster}";
  }

  lemma Whole(a: string, b: string, c: string, d: string)
    ensures Count(DOTTED) == 4 && Fields(DOTTED) == [TrustDomain, Cluster, Namespace, ServiceAccount]
    ensures Write(DOTTED) == Escape("spiffe://") + ("{trust_domain}" + (Escape("/") + Write(FROM_CLUSTER)))
    ensures Substitute(DOTTED, [a, b, c, d]) == "spiffe://" + (a + ("/" + (b + ("." + (c + ("/" + d))))))
    ensures Clear(DOTTED, [a, b, c, d]) <==> !Early(a, "/") && !Early(b, ".") && !Early(c, "/")
  {
    hide Clear, Substitute, Fields, Write, Early, Lead, Count, Escape;
    FromCluster(b, c, d);
    LiteralFirst("/", FROM_CLUSTER, [b, c, d]);
    PlaceholderFirst(TrustDomain, [Literal("/")] + FROM_CLUSTER, a, [b, c, d]);
    assert [a] + [b, c, d] == [a, b, c, d] && "/" + "" == "/";
    LiteralFirst("spiffe://", [Placeholder(TrustDomain)] + ([Literal("/")] + FROM_CLUSTER), [a, b, c, d]);
    assert "{" + "trust_domain" + "}" == "{trust_domain}";
  }

  lemma OneCharacter(v: string, x: char)
    requires v != ""
    ensures Early(v, [x]) <==> x in v[1..]
  {
    var s := v + [x];
    if x in v[1..] {
      var k :| 0 <= k < |v[1..]| && v[1..][k] == x;
      assert s[k + 1..k + 1 + 1] == [x];
      assert OccursAt(s, k + 1, [x]);
    }
    if Early(v, [x]) {
      var i :| 1 <= i < |v| && OccursAt(s, i, [x]);
      assert s[i..i + 1][0] == v[1..][i - 1];
    }
  }

  /** Only the cluster can end early: it must not contain a dot after its first character. */
  lemma ClearIs(a: string, b: string, c: string, d: string)
    requires IsCapture(a) && IsCapture(b) && IsCapture(c)
    ensures Count(DOTTED) == 4
    ensures Clear(DOTTED, [a, b, c, d]) <==> '.' !in b[1..]
  {
    hide Clear, Early;
    Whole(a, b, c, d);
    OneCharacter(a, '/');
    OneCharacter(b, '.');
    OneCharacter(c, '/');
  }

  // ---- The template compiles ----

  lemma {:induction false} PlainEscape(text: string)
    requires '{' !in text && '}' !in text
    ensures Escape(text) == text
    decreases |text|
  {
    if text != "" {
      PlainEscape(text[1..]);
      assert text == [text[0]] + text[1..];
    }
  }

  lemma SplitIs()
    ensures Split(RAW, "") == Ok(DOTTED)
  {
    hide Escape, Split, Normal, Write;
    Whole("", "", "", "");
    FromCluster("", "", "");
    FromNamespace("", "");
    AccountIs("");
    PlainEscape("spiffe://");
    PlainEscape("/");
    PlainEscape(".");
    assert Write(DOTTED) == RAW;
    NormalIs();
    SplitUndoesWrite(DOTTED);
  }

  lemma NormalIs()
    ensures Normal(DOTTED)
  {
  }

  predicate IsAscii(s: string)
  {
    forall i :: 0 <= i < |s| ==> s[i] as int < 0x80
  }

  lemma {:induction false} AsciiLength(s: string)
    requires IsAscii(s)
    ensures Utf8Len(s) == |s|
    decreases |s|
  {
    if s != "" {
      AsciiLength(s[1..]);
    }
  }

  lemma AsciiBoth(s: string, t: string)
    requires IsAscii(s) && IsAscii(t)
    ensures IsAscii(s + t)
  {
  }

  lemma TwoSegments(x: string, y: string)
    requires IsCapture(x) && IsCapture(y)
    ensures SplitOn(x + "/" + y, '/') == [x, y]
  {
    var s := x + "/" + y;
    FindUnique(s, '/', |x|);
    assert s[..|x|] == x && s[|x| + 1..] == y;
    assert Find(y, '/') == |y|;
  }

  function Id(a: string, x: string, y: string): string
  {
    SCHEME + (a + ("/" + (x + "/" + y)))
  }

  lemma IdLength(a: string, x: string, y: string)
    requires IsAscii(a) && IsAscii(x) && IsAscii(y)
    ensures Utf8Len(Id(a, x, y)) == |Id(a, x, y)| == 11 + |a| + |x| + |y|
  {
    hide IsAscii, Utf8Len;
    assert IsAscii("/") && IsAscii(SCHEME) by { PlainAscii(); }
    AsciiBoth(x, "/");
    AsciiBoth(x + "/", y);
    AsciiBoth("/", x + "/" + y);
    AsciiBoth(a, "/" + (x + "/" + y));
    AsciiBoth(SCHEME, a + ("/" + (x + "/" + y)));
    AsciiLength(Id(a, x, y));
  }

  lemma PlainAscii()
    ensures IsAscii("/") && IsAscii(SCHEME) && IsAscii(".")
  {
  }

  lemma IdSlash(a: string, rest: string)
    requires IsCapture(a)
    ensures var s := a + ("/" + rest); Find(s, '/') == |a| && s[|a| + 1..] == rest
  {
    FindUnique(a + ("/" + rest), '/', |a|);
  }

  /** An authority and two segments, all plain and not too long, make an ID. */
  lemma IdIsOk(a: string, x: string, y: string)
    requires IsCapture(a) && IsCapture(x) && IsCapture(y) && IsAscii(a) && IsAscii(x) && IsAscii(y)
    requires |a| + |x| + |y| <= 2036
    ensures IdOk(Id(a, x, y))
  {
    hide IsAscii, Utf8Len, SplitOn, Find;
    IdLength(a, x, y);
    IdSlash(a, x + "/" + y);
    TwoSegments(x, y);
    assert Id(a, x, y)[|SCHEME|..] == a + ("/" + (x + "/" + y));
    assert "" !in [x, y];
  }

  lemma FourValues(attrs: Attributes)
    ensures Values(Fields(DOTTED), attrs) == [attrs.trustDomain, attrs.cluster, attrs.namespace, attrs.serviceAccount]
    ensures Distinct(Fields(DOTTED))
  {
    hide Substitute, Clear, Write, Fields, Escape, Count, Early;
    Whole("", "", "", "");
    var fields := [TrustDomain, Cluster, Namespace, ServiceAccount];
    assert Values(fields, attrs) == [attrs.trustDomain, attrs.cluster, attrs.namespace, attrs.serviceAccount];
  }

  /** What the template makes of four values. */
  lemma RendersTo(attrs: Attributes)
    requires SegmentOk(attrs.trustDomain) && SegmentOk(attrs.cluster) && SegmentOk(attrs.namespace)
    requires SegmentOk(attrs.serviceAccount)
    requires |attrs.trustDomain| + |attrs.cluster| + |attrs.namespace| + |attrs.serviceAccount| <= 2035
    ensures Render(DOTTED, attrs) ==
              Ok(Id(attrs.trustDomain, attrs.cluster + "." + attrs.namespace, attrs.serviceAccount))
    ensures Values(Fields(DOTTED), attrs) == [attrs.trustDomain, attrs.cluster, attrs.namespace, attrs.serviceAccount]
  {
    hide IsAscii, IdOk, Substitute, Clear, SegmentOk, Fields, Values, Write, Escape, Count, Early, FirstBad, Id;
    var a, b, c, d := attrs.trustDomain, attrs.cluster, attrs.namespace, attrs.serviceAccount;
    Whole(a, b, c, d);
    FourValues(attrs);
    Segment(a);
    Segment(b);
    Segment(c);
    Segment(d);
    AsciiBoth(b, ".") by { PlainAscii(); }
    AsciiBoth(b + ".", c);
    IdIsOk(a, b + "." + c, d);
    Regrouped(a, b, c, d);
    NoneBad(attrs);
  }

  lemma Segment(v: string)
    requires SegmentOk(v)
    ensures IsCapture(v) && IsAscii(v)
  {
  }

  lemma Regrouped(a: string, b: string, c: string, d: string)
    ensures "spiffe://" + (a + ("/" + (b + ("." + (c + ("/" + d)))))) == Id(a, b + "." + c, d)
  {
    assert b + ("." + (c + ("/" + d))) == (b + "." + c) + "/" + d;
  }

  lemma NoneBad(attrs: Attributes)
    requires SegmentOk(attrs.trustDomain) && SegmentOk(attrs.cluster) && SegmentOk(attrs.namespace)
    requires SegmentOk(attrs.serviceAccount)
    ensures FirstBad(DOTTED, attrs).None?
  {
    hide SegmentOk;
    BadFirst(Placeholder(ServiceAccount), [], attrs);
    BadFirst(Literal("/"), ACCOUNT, attrs);
    BadFirst(Placeholder(Namespace), [Literal("/")] + ACCOUNT, attrs);
    BadFirst(Literal("."), FROM_NAMESPACE, attrs);
    BadFirst(Placeholder(Cluster), [Literal(".")] + FROM_NAMESPACE, attrs);
    BadFirst(Literal("/"), FROM_CLUSTER, attrs);
    BadFirst(Placeholder(TrustDomain), [Literal("/")] + FROM_CLUSTER, attrs);
    BadFirst(Literal("spiffe://"), [Placeholder(TrustDomain)] + ([Literal("/")] + FROM_CLUSTER), attrs);
  }

  lemma BadFirst(p: Part, rest: seq<Part>, attrs: Attributes)
    ensures FirstBad([p] + rest, attrs)
         == if p.Placeholder? && !SegmentOk(attrs.Get(p.field)) then Some(p.field) else FirstBad(rest, attrs)
  {
    assert ([p] + rest)[0] == p && ([p] + rest)[1..] == rest;
  }

  /** The template is accepted. */
  lemma DottedCompiles()
    ensures Compile(RAW).Ok? && Compile(RAW).value.parts == DOTTED
  {
    hide Split, Compile, Render, Clear, Early, Probe, ProbeValues, Fields, SegmentOk, Substitute, Write, Escape, Count;
    SplitIs();
    CompileIsExact(RAW);
    Whole("", "", "", "");
    var fields := Fields(DOTTED);
    ProbeIs();
    var probe := Probe(fields);
    RendersTo(probe);
    ClearIs("probe0", "probe1", "probe2", "probe3");
    PartsOf();
  }

  lemma PartsOf()
    requires Split(RAW, "") == Ok(DOTTED) && Compile(RAW).Ok?
    ensures Compile(RAW).value.parts == DOTTED
  {
    hide Split, Render, AttributesOf;
  }

  lemma ProbeAre()
    ensures ProbeValue(0) == "probe0" && ProbeValue(1) == "probe1" && ProbeValue(2) == "probe2"
    ensures ProbeValue(3) == "probe3"
    ensures SegmentOk("probe0") && SegmentOk("probe1") && SegmentOk("probe2") && SegmentOk("probe3")
  {
    ProbeValueOk(0);
    ProbeValueOk(1);
    ProbeValueOk(2);
    ProbeValueOk(3);
  }

  lemma ProbeIs()
    ensures Probe([TrustDomain, Cluster, Namespace, ServiceAccount])
         == EMPTY.(trustDomain := "probe0", cluster := "probe1", namespace := "probe2", serviceAccount := "probe3")
    ensures ProbeValues(4) == ["probe0", "probe1", "probe2", "probe3"]
    ensures SegmentOk("probe0") && SegmentOk("probe1") && SegmentOk("probe2") && SegmentOk("probe3")
  {
    ProbeAre();
    hide ProbeValue, SegmentOk;
    var f := [TrustDomain, Cluster, Namespace, ServiceAccount];
    var v := ProbeValues(4);
    assert f[1..] == [Cluster, Namespace, ServiceAccount] && f[1..][1..] == [Namespace, ServiceAccount];
    assert f[1..][1..][1..] == [ServiceAccount] && f[1..][1..][1..][1..] == [];
    assert v[1..] == ["probe1", "probe2", "probe3"] && v[1..][1..] == ["probe2", "probe3"];
    assert v[1..][1..][1..] == ["probe3"] && v[1..][1..][1..][1..] == [];
  }

  /** IDs of this template read back if and only if the cluster has no dot after its first character. */
  lemma DottedReadsBackIff(attrs: Attributes)
    requires Render(DOTTED, attrs).Ok? && IsCapture(attrs.trustDomain) && IsCapture(attrs.cluster)
    requires IsCapture(attrs.namespace)
    ensures var back := AttributesOf(DOTTED, Render(DOTTED, attrs).value);
            back.Some? && (IsRestriction(back.value, attrs, Fields(DOTTED)) <==> '.' !in attrs.cluster[1..])
  {
    hide Render, AttributesOf, Clear, IsRestriction, Substitute, Write, Fields, Values, Distinct;
    FourValues(attrs);
    ParseUndoesRenderIff(DOTTED, attrs);
    ClearIs(attrs.trustDomain, attrs.cluster, attrs.namespace, attrs.serviceAccount);
  }

  const EU := EMPTY.(trustDomain := "t", cluster := "eu.1", namespace := "a", serviceAccount := "s")
  const OTHER := EMPTY.(trustDomain := "t", cluster := "eu", namespace := "1.a", serviceAccount := "s")

  /** Cluster `eu.1` does not read back, and its namespace `a` shares the ID of `1.a` in cluster `eu`. */
  lemma DottedCollides()
    ensures Render(DOTTED, EU).Ok? && Render(DOTTED, EU) == Render(DOTTED, OTHER)
    ensures AttributesOf(DOTTED, Render(DOTTED, EU).value).Some?
    ensures !IsRestriction(AttributesOf(DOTTED, Render(DOTTED, EU).value).value, EU, Fields(DOTTED))
  {
    hide Render, AttributesOf, IsRestriction, Fields;
    RendersTo(EU);
    RendersTo(OTHER);
    assert "eu.1" + "." + "a" == "eu" + "." + "1.a";
    DottedReadsBackIff(EU);
    assert EU.cluster[1..][1] == '.';
  }
}
