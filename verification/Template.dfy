/** SPIFFE ID templates: splitting a template into parts, rendering an ID, and taking one apart with
    the lazy matcher the parts compile to. */
module Template {
  import opened Text

  datatype Field = TrustDomain | Cluster | Namespace | ServiceAccount | PodName | PodUid | NodeName

  function FieldName(f: Field): string
  {
    match f
    case TrustDomain => "trust_domain"
    case Cluster => "cluster"
    case Namespace => "namespace"
    case ServiceAccount => "service_account"
    case PodName => "pod_name"
    case PodUid => "pod_uid"
    case NodeName => "node_name"
  }

  function ParseField(name: string): Option<Field>
  {
    if name == "trust_domain" then Some(TrustDomain)
    else if name == "cluster" then Some(Cluster)
    else if name == "namespace" then Some(Namespace)
    else if name == "service_account" then Some(ServiceAccount)
    else if name == "pod_name" then Some(PodName)
    else if name == "pod_uid" then Some(PodUid)
    else if name == "node_name" then Some(NodeName)
    else None
  }

  datatype Attributes = Attributes(
    trustDomain: string, cluster: string, namespace: string, serviceAccount: string,
    podName: string, podUid: string, nodeName: string)
  {
    function Get(f: Field): string
    {
      match f
      case TrustDomain => trustDomain
      case Cluster => cluster
      case Namespace => namespace
      case ServiceAccount => serviceAccount
      case PodName => podName
      case PodUid => podUid
      case NodeName => nodeName
    }

    function Set(f: Field, v: string): Attributes
    {
      match f
      case TrustDomain => this.(trustDomain := v)
      case Cluster => this.(cluster := v)
      case Namespace => this.(namespace := v)
      case ServiceAccount => this.(serviceAccount := v)
      case PodName => this.(podName := v)
      case PodUid => this.(podUid := v)
      case NodeName => this.(nodeName := v)
    }
  }

  const EMPTY := Attributes("", "", "", "", "", "", "")

  lemma SameAttributes(a: Attributes, b: Attributes)
    requires forall f :: a.Get(f) == b.Get(f)
    ensures a == b
  {
    assert a.Get(TrustDomain) == b.Get(TrustDomain) && a.Get(Cluster) == b.Get(Cluster);
    assert a.Get(Namespace) == b.Get(Namespace) && a.Get(ServiceAccount) == b.Get(ServiceAccount);
    assert a.Get(PodName) == b.Get(PodName) && a.Get(PodUid) == b.Get(PodUid) && a.Get(NodeName) == b.Get(NodeName);
  }

  datatype Part = Literal(text: string) | Placeholder(field: Field)

  datatype Error =
    | Unclosed | UnknownPlaceholder | UnmatchedBrace
    | Repeated | NoScheme | NoPlaceholder | NotInvertible
    | BadSegment(field: Field) | BadId

  // ---- Splitting a template ----

  function Flush(literal: string): seq<Part>
  {
    if literal == "" then [] else [Literal(literal)]
  }

  function Prepend(parts: seq<Part>, r: Result<seq<Part>, Error>): Result<seq<Part>, Error>
  {
    if r.Ok? then Ok(parts + r.value) else r
  }

  /** The parts of a template, given the literal text read so far. */
  function Split(raw: string, literal: string): Result<seq<Part>, Error>
    decreases |raw|
  {
    if raw == "" then Ok(Flush(literal))
    else if raw[0] == '{' && |raw| > 1 && raw[1] == '{' then Split(raw[2..], literal + "{")
    else if raw[0] == '}' && |raw| > 1 && raw[1] == '}' then Split(raw[2..], literal + "}")
    else if raw[0] == '{' then
      var close := Find(raw[1..], '}');
      if close == |raw| - 1 then Err(Unclosed)
      else
        var field := ParseField(Trim(raw[1..close + 1]));
        if field.None? then Err(UnknownPlaceholder)
        else Prepend(Flush(literal) + [Placeholder(field.value)], Split(raw[close + 2..], ""))
    else if raw[0] == '}' then Err(UnmatchedBrace)
    else Split(raw[1..], literal + [raw[0]])
  }

  lemma PrependTwice(a: seq<Part>, b: seq<Part>, r: Result<seq<Part>, Error>)
    ensures Prepend(a, Prepend(b, r)) == Prepend(a + b, r)
  {
    if r.Ok? {
      assert a + (b + r.value) == a + b + r.value;
    }
  }

  lemma PrependNothing(r: Result<seq<Part>, Error>)
    ensures Prepend([], r) == r
  {
    if r.Ok? {
      assert [] + r.value == r.value;
    }
  }

  /** `split`, reading the template character by character. */
  method SplitTemplate(raw: string) returns (r: Result<seq<Part>, Error>)
    ensures r == Split(raw, "")
  {
    var parts: seq<Part>, literal, rest := [], "", raw;
    PrependNothing(Split(raw, ""));
    while rest != ""
      invariant Split(raw, "") == Prepend(parts, Split(rest, literal))
      decreases |rest|
    {
      if rest[0] == '{' && |rest| > 1 && rest[1] == '{' {
        literal, rest := literal + "{", rest[2..];
      } else if rest[0] == '}' && |rest| > 1 && rest[1] == '}' {
        literal, rest := literal + "}", rest[2..];
      } else if rest[0] == '{' {
        var close := Find(rest[1..], '}');
        if close == |rest| - 1 {
          return Err(Unclosed);
        }
        var field := ParseField(Trim(rest[1..close + 1]));
        if field.None? {
          return Err(UnknownPlaceholder);
        }
        PrependTwice(parts, Flush(literal) + [Placeholder(field.value)], Split(rest[close + 2..], ""));
        parts := parts + (Flush(literal) + [Placeholder(field.value)]);
        literal, rest := "", rest[close + 2..];
      } else if rest[0] == '}' {
        return Err(UnmatchedBrace);
      } else {
        literal, rest := literal + [rest[0]], rest[1..];
      }
    }
    r := Ok(parts + Flush(literal));
  }

  /** Literal text as a template writes it, braces doubled. */
  function EscapeChar(c: char): string
  {
    if c == '{' then "{{" else if c == '}' then "}}" else [c]
  }

  function Escape(text: string): string
  {
    if text == "" then "" else EscapeChar(text[0]) + Escape(text[1..])
  }

  function Write(parts: seq<Part>): string
  {
    if parts == [] then ""
    else (match parts[0]
          case Literal(t) => Escape(t)
          case Placeholder(f) => "{" + FieldName(f) + "}") + Write(parts[1..])
  }

  /** Literals are non-empty and never adjacent, as `split` leaves them. */
  predicate Normal(parts: seq<Part>)
  {
    && (forall i :: 0 <= i < |parts| && parts[i].Literal? ==> parts[i].text != "")
    && (forall i :: 0 <= i < |parts| - 1 && parts[i].Literal? ==> parts[i + 1].Placeholder?)
  }

  lemma NormalTail(parts: seq<Part>)
    requires Normal(parts) && parts != []
    ensures Normal(parts[1..])
    ensures parts[0].Literal? ==> parts[0].text != "" && (|parts| > 1 ==> parts[1].Placeholder?)
  {
  }

  lemma SplitChar(c: char, tail: string, literal: string)
    ensures Split(EscapeChar(c) + tail, literal) == Split(tail, literal + [c])
  {
  }

  lemma {:induction false} SplitEscape(text: string, rest: string, literal: string)
    ensures Split(Escape(text) + rest, literal) == Split(rest, literal + text)
    decreases |text|
  {
    if text == "" {
      assert Escape(text) + rest == rest && literal + text == literal;
    } else {
      assert Escape(text) + rest == EscapeChar(text[0]) + (Escape(text[1..]) + rest);
      SplitChar(text[0], Escape(text[1..]) + rest, literal);
      SplitEscape(text[1..], rest, literal + [text[0]]);
      assert literal + [text[0]] + text[1..] == literal + text;
    }
  }

  lemma FieldNameParses(f: Field)
    ensures ParseField(FieldName(f)) == Some(f) && Trim(FieldName(f)) == FieldName(f)
    ensures FieldName(f) != "" && FieldName(f)[0] != '{' && '}' !in FieldName(f)
  {
    var s := FieldName(f);
    assert !IsWhitespace(s[0]) && !IsWhitespace(s[|s| - 1]);
  }

  lemma SplitPlaceholder(f: Field, rest: string, literal: string)
    ensures Split("{" + FieldName(f) + "}" + rest, literal)
         == Prepend(Flush(literal) + [Placeholder(f)], Split(rest, ""))
  {
    var raw := "{" + FieldName(f) + "}" + rest;
    var n := |FieldName(f)|;
    FieldNameParses(f);
    assert raw[1] == FieldName(f)[0];
    assert forall j :: 0 <= j < n ==> raw[1..][j] == FieldName(f)[j];
    assert raw[1..][n] == '}';
    FindUnique(raw[1..], '}', n);
    assert raw[1..n + 1] == FieldName(f) && raw[n + 2..] == rest;
  }

  lemma FlushThen(literal: string, p: Part, rest: seq<Part>)
    ensures Prepend(Flush(literal) + [p], Ok(Flush("") + rest)) == Ok(Flush(literal) + ([p] + rest))
  {
    assert Flush(literal) + [p] + (Flush("") + rest) == Flush(literal) + ([p] + rest);
  }

  lemma {:induction false} SplitWrittenAfter(parts: seq<Part>, literal: string)
    requires Normal(parts) && (literal != "" && parts != [] ==> parts[0].Placeholder?)
    ensures Split(Write(parts), literal) == Ok(Flush(literal) + parts)
    decreases |parts|
  {
    if parts == [] {
      assert Flush(literal) + parts == Flush(literal);
    } else {
      var rest := parts[1..];
      assert parts == [parts[0]] + rest;
      NormalTail(parts);
      if parts[0].Literal? {
        var t := parts[0].text;
        assert literal == "" && literal + t == t;
        SplitEscape(t, Write(rest), literal);
        SplitWrittenAfter(rest, t);
        assert Flush(literal) + parts == Flush(t) + rest;
      } else {
        SplitPlaceholder(parts[0].field, Write(rest), literal);
        SplitWrittenAfter(rest, "");
        FlushThen(literal, parts[0], rest);
      }
    }
  }

  /** Splitting undoes writing: every sequence of parts `split` can return is the split of some template. */
  lemma SplitUndoesWrite(parts: seq<Part>)
    requires Normal(parts)
    ensures Split(Write(parts), "") == Ok(parts)
  {
    SplitWrittenAfter(parts, "");
    assert Flush("") + parts == parts;
  }
}
