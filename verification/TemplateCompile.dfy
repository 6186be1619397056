/** Compiling a template, rendering IDs with it, and reading attributes back out of an ID. */
module TemplateCompile {
  import opened Text
  import opened Template
  import opened TemplateMatch

  const SCHEME := "spiffe://"
  const MAX_ID_LEN := 2048

  /** The fields substituted, in order; also the order of the captures. */
  function Fields(parts: seq<Part>): (fields: seq<Field>)
    ensures |fields| == Count(parts)
  {
    if parts == [] then []
    else (if parts[0].Placeholder? then [parts[0].field] else []) + Fields(parts[1..])
  }

  function Values(fields: seq<Field>, attrs: Attributes): (vs: seq<string>)
    ensures |vs| == |fields| && forall i :: 0 <= i < |vs| ==> vs[i] == attrs.Get(fields[i])
  {
    seq(|fields|, i requires 0 <= i < |fields| => attrs.Get(fields[i]))
  }

  predicate Distinct(fields: seq<Field>)
  {
    forall i, j :: 0 <= i < j < |fields| ==> fields[i] != fields[j]
  }

  /** Attributes with each field set in turn. */
  function SetAll(fields: seq<Field>, values: seq<string>, attrs: Attributes): Attributes
    requires |fields| == |values|
  {
    if fields == [] then attrs else SetAll(fields[1..], values[1..], attrs.Set(fields[0], values[0]))
  }

  lemma {:induction false} SetAllOther(fields: seq<Field>, values: seq<string>, attrs: Attributes, f: Field)
    requires |fields| == |values| && f !in fields
    ensures SetAll(fields, values, attrs).Get(f) == attrs.Get(f)
    decreases |fields|
  {
    if fields != [] {
      SetAllOther(fields[1..], values[1..], attrs.Set(fields[0], values[0]), f);
    }
  }

  lemma {:induction false} SetAllThere(fields: seq<Field>, values: seq<string>, attrs: Attributes, i: nat)
    requires |fields| == |values| && Distinct(fields) && i < |fields|
    ensures SetAll(fields, values, attrs).Get(fields[i]) == values[i]
    decreases |fields|
  {
    var next := attrs.Set(fields[0], values[0]);
    if i == 0 {
      assert fields[0] !in fields[1..];
      SetAllOther(fields[1..], values[1..], next, fields[0]);
    } else {
      SetAllThere(fields[1..], values[1..], next, i - 1);
    }
  }

  lemma ValuesOfSetAll(fields: seq<Field>, values: seq<string>)
    requires |fields| == |values| && Distinct(fields)
    ensures Values(fields, SetAll(fields, values, EMPTY)) == values
  {
    forall i | 0 <= i < |fields| ensures Values(fields, SetAll(fields, values, EMPTY))[i] == values[i] {
      SetAllThere(fields, values, EMPTY, i);
    }
  }

  /** Attributes holding the given fields of `attrs` and nothing else. */
  ghost predicate IsRestriction(r: Attributes, attrs: Attributes, fields: seq<Field>)
  {
    forall f :: r.Get(f) == if f in fields then attrs.Get(f) else ""
  }

  lemma SetAllRestricts(fields: seq<Field>, attrs: Attributes)
    requires Distinct(fields)
    ensures IsRestriction(SetAll(fields, Values(fields, attrs), EMPTY), attrs, fields)
  {
    var r := SetAll(fields, Values(fields, attrs), EMPTY);
    forall f ensures r.Get(f) == if f in fields then attrs.Get(f) else "" {
      if f in fields {
        var i :| 0 <= i < |fields| && fields[i] == f;
        SetAllThere(fields, Values(fields, attrs), EMPTY, i);
      } else {
        SetAllOther(fields, Values(fields, attrs), EMPTY, f);
      }
    }
  }

  // ---- Rendering ----

  predicate SegmentChar(c: char)
  {
    || 'a' <= c <= 'z' || 'A' <= c <= 'Z' || '0' <= c <= '9'
    || c == '-' || c == '.' || c == '_'
  }

  /** `check_segment`. */
  predicate SegmentOk(value: string)
  {
    value != "" && forall i :: 0 <= i < |value| ==> SegmentChar(value[i])
  }

  lemma SegmentIsCapture(value: string)
    requires SegmentOk(value)
    ensures IsCapture(value)
  {
  }

  /** `SpiffeId::parse`. */
  predicate IdOk(raw: string)
  {
    && SCHEME <= raw && Utf8Len(raw) <= MAX_ID_LEN
    && var rest := raw[|SCHEME|..];
       var i := Find(rest, '/');
       && i > 0
       && (i + 1 < |rest| ==> "" !in SplitOn(rest[i + 1..], '/'))
  }

  function FirstBad(parts: seq<Part>, attrs: Attributes): Option<Field>
  {
    if parts == [] then None
    else if parts[0].Placeholder? && !SegmentOk(attrs.Get(parts[0].field)) then Some(parts[0].field)
    else FirstBad(parts[1..], attrs)
  }

  function Rendered(parts: seq<Part>, attrs: Attributes): string
  {
    Substitute(parts, Values(Fields(parts), attrs))
  }

  function Render(parts: seq<Part>, attrs: Attributes): Result<string, Error>
  {
    match FirstBad(parts, attrs)
    case Some(f) => Err(BadSegment(f))
    case None => if IdOk(Rendered(parts, attrs)) then Ok(Rendered(parts, attrs)) else Err(BadId)
  }

  lemma RenderedFirst(parts: seq<Part>, attrs: Attributes)
    requires parts != []
    ensures Rendered(parts, attrs)
         == (if parts[0].Literal? then parts[0].text else attrs.Get(parts[0].field)) + Rendered(parts[1..], attrs)
  {
    var fields := Fields(parts);
    if parts[0].Placeholder? {
      assert fields[1..] == Fields(parts[1..]);
      assert Values(fields, attrs)[1..] == Values(fields[1..], attrs);
    } else {
      assert fields == Fields(parts[1..]);
    }
  }

  /** `render`: append part after part, stopping at the first value that is not a segment. */
  method RenderId(parts: seq<Part>, attrs: Attributes) returns (r: Result<string, Error>)
    ensures r == Render(parts, attrs)
  {
    var out, rest := "", parts;
    while rest != []
      invariant FirstBad(parts, attrs) == FirstBad(rest, attrs)
      invariant Rendered(parts, attrs) == out + Rendered(rest, attrs)
      decreases |rest|
    {
      RenderedFirst(rest, attrs);
      match rest[0] {
        case Literal(text) =>
          assert out + (text + Rendered(rest[1..], attrs)) == (out + text) + Rendered(rest[1..], attrs);
          out := out + text;
        case Placeholder(field) =>
          var value := attrs.Get(field);
          if !SegmentOk(value) {
            return Err(BadSegment(field));
          }
          assert out + (value + Rendered(rest[1..], attrs)) == (out + value) + Rendered(rest[1..], attrs);
          out := out + value;
      }
      rest := rest[1..];
    }
    assert out == Rendered(parts, attrs);
    r := if IdOk(out) then Ok(out) else Err(BadId);
  }

  /** `attributes_of`. */
  function AttributesOf(parts: seq<Part>, id: string): Option<Attributes>
  {
    match Match(parts, id)
    case None => None
    case Some(caps) =>
      MatchIsSound(parts, id);
      Some(SetAll(Fields(parts), caps, EMPTY))
  }

  lemma {:induction false} GoodValues(parts: seq<Part>, attrs: Attributes)
    requires FirstBad(parts, attrs).None?
    ensures forall f :: f in Fields(parts) ==> SegmentOk(attrs.Get(f))
    decreases |parts|
  {
    if parts != [] {
      GoodValues(parts[1..], attrs);
    }
  }

  lemma ValuesAreCaptures(parts: seq<Part>, attrs: Attributes)
    requires FirstBad(parts, attrs).None?
    ensures Captures(Values(Fields(parts), attrs))
  {
    GoodValues(parts, attrs);
    var fields := Fields(parts);
    forall i | 0 <= i < |fields| ensures IsCapture(attrs.Get(fields[i])) {
      SegmentIsCapture(attrs.Get(fields[i]));
    }
  }

  /** Round trip: reading a rendered ID returns exactly the substituted fields. */
  lemma ParseUndoesRender(parts: seq<Part>, attrs: Attributes)
    requires Separated(parts) && Distinct(Fields(parts)) && Render(parts, attrs).Ok?
    ensures AttributesOf(parts, Render(parts, attrs).value).Some?
    ensures IsRestriction(AttributesOf(parts, Render(parts, attrs).value).value, attrs, Fields(parts))
  {
    ValuesAreCaptures(parts, attrs);
    MatchUndoesSubstitute(parts, Values(Fields(parts), attrs));
    SetAllRestricts(Fields(parts), attrs);
  }

  /** Different field values never render the same ID. */
  lemma RenderIsInjective(parts: seq<Part>, a: Attributes, b: Attributes, f: Field)
    requires Separated(parts) && Distinct(Fields(parts)) && f in Fields(parts)
    requires Render(parts, a).Ok? && Render(parts, b) == Render(parts, a)
    ensures a.Get(f) == b.Get(f)
  {
    ParseUndoesRender(parts, a);
    ParseUndoesRender(parts, b);
  }

  /** For any template, what was read out of an ID substitutes back to that ID. */
  lemma RenderUndoesParse(parts: seq<Part>, id: string)
    requires Distinct(Fields(parts)) && AttributesOf(parts, id).Some?
    ensures Rendered(parts, AttributesOf(parts, id).value) == id
    ensures forall f :: f !in Fields(parts) ==> AttributesOf(parts, id).value.Get(f) == ""
  {
    MatchIsSound(parts, id);
    var fields, caps := Fields(parts), Match(parts, id).value;
    ValuesOfSetAll(fields, caps);
    forall f | f !in fields ensures SetAll(fields, caps, EMPTY).Get(f) == "" {
      SetAllOther(fields, caps, EMPTY, f);
    }
  }

  // ---- Compiling ----

  datatype IdTemplate = IdTemplate(raw: string, parts: seq<Part>, fields: seq<Field>)

  function ProbeValue(i: nat): string
  {
    "probe" + Numeral(i, 10)
  }

  function ProbeValues(n: nat): (vs: seq<string>)
    ensures |vs| == n && forall i :: 0 <= i < n ==> vs[i] == ProbeValue(i)
  {
    seq(n, i requires 0 <= i < n => ProbeValue(i))
  }

  function Probe(fields: seq<Field>): Attributes
  {
    SetAll(fields, ProbeValues(|fields|), EMPTY)
  }

  function Compile(raw: string): Result<IdTemplate, Error>
  {
    match Split(raw, "")
    case Err(e) => Err(e)
    case Ok(parts) =>
      var fields := Fields(parts);
      if !Distinct(fields) then Err(Repeated)
      else if !(SCHEME <= raw) then Err(NoScheme)
      else if fields == [] then Err(NoPlaceholder)
      else match Render(parts, Probe(fields))
        case Err(e) => Err(e)
        case Ok(id) =>
          if AttributesOf(parts, id) != Some(Probe(fields)) then Err(NotInvertible)
          else Ok(IdTemplate(raw, parts, fields))
  }

  /** `compile`: collect the fields, refusing a repeated one, then render and re-read a probe. */
  method CompileTemplate(raw: string) returns (r: Result<IdTemplate, Error>)
    ensures r == Compile(raw)
  {
    var split := SplitTemplate(raw);
    if split.Err? {
      return Err(split.error);
    }
    var parts := split.value;
    var fields, rest := [], parts;
    while rest != []
      invariant Fields(parts) == fields + Fields(rest)
      invariant Distinct(fields)
      decreases |rest|
    {
      if rest[0].Placeholder? {
        assert Fields(rest) == [rest[0].field] + Fields(rest[1..]);
        assert fields + Fields(rest) == fields + [rest[0].field] + Fields(rest[1..]);
        if rest[0].field in fields {
          var i :| 0 <= i < |fields| && fields[i] == rest[0].field;
          assert Fields(parts)[i] == Fields(parts)[|fields|];
          return Err(Repeated);
        }
        fields := fields + [rest[0].field];
      }
      rest := rest[1..];
    }
    assert fields == Fields(parts);
    if !(SCHEME <= raw) {
      return Err(NoScheme);
    }
    if fields == [] {
      return Err(NoPlaceholder);
    }
    var rendered := RenderId(parts, Probe(fields));
    if rendered.Err? {
      return Err(rendered.error);
    }
    if AttributesOf(parts, rendered.value) != Some(Probe(fields)) {
      return Err(NotInvertible);
    }
    r := Ok(IdTemplate(raw, parts, fields));
  }

  lemma ProbeValueOk(i: nat)
    ensures SegmentOk(ProbeValue(i)) && |ProbeValue(i)| > 1
  {
  }

  lemma ProbeIsSound(parts: seq<Part>)
    requires Distinct(Fields(parts))
    ensures Values(Fields(parts), Probe(Fields(parts))) == ProbeValues(|Fields(parts)|)
    ensures Captures(ProbeValues(|Fields(parts)|))
    ensures forall i :: 0 <= i < |Fields(parts)| ==> |ProbeValues(|Fields(parts)|)[i]| > 1
  {
    ValuesOfSetAll(Fields(parts), ProbeValues(|Fields(parts)|));
    forall i: nat | i < |Fields(parts)| ensures IsCapture(ProbeValue(i)) && |ProbeValue(i)| > 1 {
      ProbeValueOk(i);
      SegmentIsCapture(ProbeValue(i));
    }
  }

  /** Reading a rendered ID returns exactly the substituted fields if and only if no value ends early. */
  lemma ParseUndoesRenderIff(parts: seq<Part>, attrs: Attributes)
    requires Distinct(Fields(parts)) && Render(parts, attrs).Ok?
    ensures var back := AttributesOf(parts, Render(parts, attrs).value);
            back.Some? && (IsRestriction(back.value, attrs, Fields(parts)) <==>
                            Clear(parts, Values(Fields(parts), attrs)))
  {
    hide FirstBad, IdOk, Match, Clear, Substitute;
    var fields, id := Fields(parts), Rendered(parts, attrs);
    var values := Values(fields, attrs);
    assert FirstBad(parts, attrs).None? && Render(parts, attrs).value == id;
    ValuesAreCaptures(parts, attrs);
    MatchesBackIffClear(parts, values);
    MatchIsLeast(parts, id, values);
    MatchIsSound(parts, id);
    var caps := Match(parts, id).value;
    SetAllRestricts(fields, attrs);
    ValuesOfSetAll(fields, caps);
    var back := SetAll(fields, caps, EMPTY);
    if IsRestriction(back, attrs, fields) {
      forall i | 0 <= i < |fields| ensures Values(fields, back)[i] == values[i] {
        assert fields[i] in fields;
      }
      assert caps == values;
    }
  }

  /** What compilation accepts, exactly: distinct fields, at least one, the scheme, and a probe that is
      a well-formed ID in which no value ends early. */
  lemma CompileIsExact(raw: string)
    ensures Compile(raw).Ok? <==>
              && Split(raw, "").Ok?
              && var parts := Split(raw, "").value;
                 var fields := Fields(parts);
                 && Distinct(fields) && SCHEME <= raw && fields != []
                 && Render(parts, Probe(fields)).Ok? && Clear(parts, ProbeValues(|fields|))
  {
    hide Split, IdOk, FirstBad, Match, Clear, Substitute;
    if Split(raw, "").Ok? {
      var parts := Split(raw, "").value;
      var fields := Fields(parts);
      var probe := Probe(fields);
      if Distinct(fields) && Render(parts, probe).Ok? {
        ProbeIsSound(parts);
        ParseUndoesRenderIff(parts, probe);
        var back := AttributesOf(parts, Render(parts, probe).value).value;
        ProbeRestricts(fields, back);
      }
    }
  }

  lemma ProbeRestricts(fields: seq<Field>, back: Attributes)
    requires Distinct(fields)
    ensures IsRestriction(back, Probe(fields), fields) <==> back == Probe(fields)
  {
    var probe := Probe(fields);
    forall f | f !in fields ensures probe.Get(f) == "" {
      SetAllOther(fields, ProbeValues(|fields|), EMPTY, f);
    }
    if IsRestriction(back, probe, fields) {
      SameAttributes(back, probe);
    }
  }

  /** The start-up probe refuses every template with two placeholders side by side. */
  lemma CompileRefusesAdjacent(raw: string)
    requires Compile(raw).Ok?
    ensures !Adjacent(Compile(raw).value.parts)
  {
    var t := Compile(raw).value;
    var probes := ProbeValues(|t.fields|);
    ProbeIsSound(t.parts);
    var id := Rendered(t.parts, Probe(t.fields));
    MatchIsSound(t.parts, id);
    ValuesOfSetAll(t.fields, Match(t.parts, id).value);
    assert Match(t.parts, id) == Some(probes);
    if Adjacent(t.parts) {
      AdjacentDoesNotMatchBack(t.parts, probes);
    }
  }

  /** Whatever shape it has, a compiled template reads its own probe back. On slash-separated
      templates the probe never fails, so only the earlier checks decide. */
  lemma CompileAcceptsSeparated(raw: string)
    requires Split(raw, "").Ok? && Separated(Split(raw, "").value)
    ensures var parts := Split(raw, "").value;
            Compile(raw).Ok? <==>
              && Distinct(Fields(parts)) && SCHEME <= raw && Fields(parts) != []
              && Render(parts, Probe(Fields(parts))).Ok?
  {
    var parts := Split(raw, "").value;
    var fields := Fields(parts);
    var probe := Probe(fields);
    if Distinct(fields) && Render(parts, probe).Ok? {
      ParseUndoesRender(parts, probe);
      var back := AttributesOf(parts, Render(parts, probe).value).value;
      forall f ensures back.Get(f) == probe.Get(f) {
        if f !in fields {
          SetAllOther(fields, ProbeValues(|fields|), EMPTY, f);
        }
      }
      SameAttributes(back, probe);
    }
  }
}
