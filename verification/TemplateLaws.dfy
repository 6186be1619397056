/** What a template, a rendered ID and an accepted ID look like, character by character. */
module TemplateLaws {
  import opened Text
  import opened Template
  import opened TemplateMatch
  import opened TemplateCompile

  // ---- Templates ----

  /** The text is a way to write these parts: literals with braces doubled, placeholders in braces, with
      white space around the name if one likes. */
  ghost predicate IsWriting(raw: string, parts: seq<Part>)
    decreases |parts|
  {
    if parts == [] then raw == ""
    else match parts[0]
      case Literal(t) => Escape(t) <= raw && IsWriting(raw[|Escape(t)|..], parts[1..])
      case Placeholder(f) => exists inner :: IsPlaceholder(raw, inner, f) && IsWriting(raw[|inner| + 2..], parts[1..])
  }

  predicate IsPlaceholder(raw: string, inner: string, f: Field)
  {
    "{" + inner + "}" <= raw && '}' !in inner && Trim(inner) == FieldName(f)
  }

  lemma {:induction false} EscapeMore(text: string, c: char)
    ensures Escape(text + [c]) == Escape(text) + EscapeChar(c)
    decreases |text|
  {
    if text == "" {
      assert text + [c] == [c] && [c][1..] == "";
      assert Escape([c]) == EscapeChar(c) + "" == EscapeChar(c);
      assert "" + EscapeChar(c) == EscapeChar(c);
    } else {
      assert (text + [c])[1..] == text[1..] + [c];
      EscapeMore(text[1..], c);
      assert EscapeChar(text[0]) + (Escape(text[1..]) + EscapeChar(c))
          == EscapeChar(text[0]) + Escape(text[1..]) + EscapeChar(c);
    }
  }

  lemma FieldNames(f: Field, name: string)
    ensures ParseField(name) == Some(f) <==> name == FieldName(f)
  {
  }

  lemma WritingFlush(literal: string, raw: string, parts: seq<Part>)
    requires IsWriting(raw, parts)
    ensures IsWriting(Escape(literal) + raw, Flush(literal) + parts)
  {
    if literal == "" {
      assert Escape(literal) + raw == raw && Flush(literal) + parts == parts;
    } else {
      var all := [Literal(literal)] + parts;
      assert Flush(literal) + parts == all && all[1..] == parts;
      assert (Escape(literal) + raw)[|Escape(literal)|..] == raw;
    }
  }

  lemma WritingPlaceholder(inner: string, f: Field, raw: string, parts: seq<Part>)
    requires IsWriting(raw, parts) && '}' !in inner && Trim(inner) == FieldName(f)
    ensures IsWriting("{" + inner + "}" + raw, [Placeholder(f)] + parts)
  {
    var all, whole := [Placeholder(f)] + parts, "{" + inner + "}" + raw;
    assert all[1..] == parts && whole[|inner| + 2..] == raw;
    assert IsPlaceholder(whole, inner, f);
  }

  lemma NormalPlaceholder(literal: string, f: Field, parts: seq<Part>)
    requires Normal(parts)
    ensures Normal(Flush(literal) + [Placeholder(f)] + parts)
  {
  }

  /** A template that splits and starts with a placeholder. */
  lemma ReadsPlaceholder(raw: string, literal: string) returns (inner: string, f: Field)
    requires Split(raw, literal).Ok? && raw != "" && raw[0] == '{' && (|raw| == 1 || raw[1] != '{')
    ensures IsPlaceholder(raw, inner, f) && |inner| + 2 <= |raw|
    ensures var rest := Split(raw[|inner| + 2..], "");
            rest.Ok? && Split(raw, literal).value == Flush(literal) + [Placeholder(f)] + rest.value
  {
    hide Trim, ParseField, FieldName;
    var close := Find(raw[1..], '}');
    inner := raw[1..close + 1];
    f := ParseField(Trim(inner)).value;
    FieldNames(f, Trim(inner));
    assert forall j :: 0 <= j < |inner| ==> inner[j] == raw[1..][j];
    assert raw[close + 1] == raw[1..][close];
  }

  /** A template that splits and starts with literal text. */
  lemma ReadsLiteral(raw: string, literal: string)
    requires Split(raw, literal).Ok? && raw != "" && !(raw[0] == '{' && (|raw| == 1 || raw[1] != '{'))
    ensures EscapeChar(raw[0]) <= raw && EscapeChar(raw[0]) != ""
    ensures Split(raw, literal) == Split(raw[|EscapeChar(raw[0])|..], literal + [raw[0]])
  {
  }

  /** What `split` accepts is a writing of the parts it returns. */
  lemma {:induction false} SplitIsWriting(raw: string, literal: string)
    requires Split(raw, literal).Ok?
    ensures var parts := Split(raw, literal).value; IsWriting(Escape(literal) + raw, parts) && Normal(parts)
    decreases |raw|
  {
    hide *;
    if raw == "" {
      WritesNothing(literal);
    } else if raw[0] == '{' && (|raw| == 1 || raw[1] != '{') {
      var inner, f := ReadsPlaceholder(raw, literal);
      SplitIsWriting(raw[|inner| + 2..], "");
      WritesPlaceholder(raw, literal, inner, f, Split(raw[|inner| + 2..], "").value);
    } else {
      ReadsLiteral(raw, literal);
      var c, rest := raw[0], raw[|EscapeChar(raw[0])|..];
      SplitIsWriting(rest, literal + [c]);
      EscapeMore(literal, c);
      assert raw == EscapeChar(c) + rest;
      assert Escape(literal) + raw == Escape(literal) + EscapeChar(c) + rest;
    }
  }

  lemma WritesNothing(literal: string)
    ensures Split("", literal).Ok?
    ensures var parts := Split("", literal).value; IsWriting(Escape(literal) + "", parts) && Normal(parts)
  {
    WritingFlush(literal, "", []);
    assert Flush(literal) + [] == Flush(literal);
  }

  lemma WritesPlaceholder(raw: string, literal: string, inner: string, f: Field, parts: seq<Part>)
    requires IsPlaceholder(raw, inner, f) && IsWriting(Escape("") + raw[|inner| + 2..], parts) && Normal(parts)
    ensures var all := Flush(literal) + [Placeholder(f)] + parts;
            IsWriting(Escape(literal) + raw, all) && Normal(all)
  {
    hide IsWriting, Normal;
    var rest := raw[|inner| + 2..];
    assert Escape("") + rest == rest;
    WritingPlaceholder(inner, f, rest, parts);
    assert raw == "{" + inner + "}" + rest;
    WritingFlush(literal, raw, [Placeholder(f)] + parts);
    assert Flush(literal) + ([Placeholder(f)] + parts) == Flush(literal) + [Placeholder(f)] + parts;
    NormalPlaceholder(literal, f, parts);
  }

  lemma SplitsPlaceholder(raw: string, inner: string, f: Field, literal: string)
    requires IsPlaceholder(raw, inner, f)
    ensures Split(raw, literal) == Prepend(Flush(literal) + [Placeholder(f)], Split(raw[|inner| + 2..], ""))
  {
    var n := |inner|;
    FieldNames(f, Trim(inner));
    assert raw == "{" + inner + "}" + raw[n + 2..];
    assert raw[1..n + 1] == inner && raw[1..][n] == '}';
    assert inner != "" && inner[0] != '{' by { TrimmedStart(inner, f); }
    assert raw[1] == inner[0];
    assert forall j :: 0 <= j < n ==> raw[1..][j] == inner[j];
    FindUnique(raw[1..], '}', n);
  }

  lemma TrimmedStart(inner: string, f: Field)
    requires Trim(inner) == FieldName(f)
    ensures inner != "" && inner[0] != '{'
  {
    FieldNameParses(f);
    if inner != "" && inner[0] == '{' {
      assert TrimStart(inner) == inner;
      TrimEndStarts(inner);
    }
  }

  lemma {:induction false} TrimEndStarts(s: string)
    requires s != "" && !IsWhitespace(s[0])
    ensures TrimEnd(s) != "" && TrimEnd(s)[0] == s[0]
    decreases |s|
  {
    if IsWhitespace(s[|s| - 1]) {
      TrimEndStarts(s[..|s| - 1]);
    }
  }

  lemma {:induction false} WritingSplits(raw: string, parts: seq<Part>, literal: string)
    requires IsWriting(raw, parts) && Normal(parts) && (literal != "" && parts != [] ==> parts[0].Placeholder?)
    ensures Split(raw, literal) == Ok(Flush(literal) + parts)
    decreases |parts|
  {
    if parts == [] {
      assert Flush(literal) + parts == Flush(literal);
    } else {
      var rest := parts[1..];
      assert parts == [parts[0]] + rest;
      NormalTail(parts);
      if parts[0].Literal? {
        var t := parts[0].text;
        assert literal == "" && literal + t == t;
        var after := raw[|Escape(t)|..];
        assert raw == Escape(t) + after;
        SplitEscape(t, after, literal);
        WritingSplits(after, rest, t);
        assert Flush(literal) + parts == Flush(t) + rest;
      } else {
        var f := parts[0].field;
        var inner :| IsPlaceholder(raw, inner, f) && IsWriting(raw[|inner| + 2..], rest);
        SplitsPlaceholder(raw, inner, f, literal);
        WritingSplits(raw[|inner| + 2..], rest, "");
        FlushThen(literal, parts[0], rest);
      }
    }
  }

  /** `split` returns these parts if and only if the template is a writing of them, literals non-empty and
      never adjacent. */
  lemma SplitIsExact(raw: string, parts: seq<Part>)
    ensures Split(raw, "") == Ok(parts) <==> IsWriting(raw, parts) && Normal(parts)
  {
    if Split(raw, "") == Ok(parts) {
      SplitIsWriting(raw, "");
      assert Escape("") + raw == raw;
    }
    if IsWriting(raw, parts) && Normal(parts) {
      WritingSplits(raw, parts, "");
      assert Flush("") + parts == parts;
    }
  }

  /** Which error a template is refused with: that of the first thing wrong with it, in this order. */
  lemma CompileErrors(raw: string)
    ensures var parsed := Split(raw, "");
            && (parsed.Err? ==> Compile(raw) == Err(parsed.error))
            && (parsed.Ok? ==>
                  var parts := parsed.value;
                  var fields := Fields(parts);
                  && (Compile(raw) == Err(Repeated) <==> !Distinct(fields))
                  && (Compile(raw) == Err(NoScheme) <==> Distinct(fields) && !(SCHEME <= raw))
                  && (Compile(raw) == Err(NoPlaceholder) <==> Distinct(fields) && SCHEME <= raw && fields == [])
                  && (Compile(raw) == Err(BadId) <==>
                        && Distinct(fields) && SCHEME <= raw && fields != []
                        && !IdOk(Substitute(parts, ProbeValues(|fields|)))))
  {
    hide Split, IdOk, Match, Substitute, AttributesOf;
    if Split(raw, "").Ok? {
      var parts := Split(raw, "").value;
      if Distinct(Fields(parts)) {
        ProbeIsSound(parts);
        ProbeIsGood(parts);
      }
    }
  }

  lemma ProbeIsGood(parts: seq<Part>)
    requires Distinct(Fields(parts))
    ensures FirstBad(parts, Probe(Fields(parts))).None?
  {
    var probe, fields := Probe(Fields(parts)), Fields(parts);
    ProbeIsSound(parts);
    forall f | f in fields ensures SegmentOk(probe.Get(f)) {
      var i :| 0 <= i < |fields| && fields[i] == f;
      assert Values(fields, probe)[i] == ProbeValues(|fields|)[i];
      ProbeValueOk(i);
    }
    NoneBad(parts, probe);
  }

  lemma {:induction false} NoneBad(parts: seq<Part>, attrs: Attributes)
    requires forall f :: f in Fields(parts) ==> SegmentOk(attrs.Get(f))
    ensures FirstBad(parts, attrs).None?
    decreases |parts|
  {
    if parts != [] {
      assert parts[0].Placeholder? ==> parts[0].field in Fields(parts);
      assert forall f :: f in Fields(parts[1..]) ==> f in Fields(parts);
      NoneBad(parts[1..], attrs);
    }
  }

  // ---- Rendered IDs ----

  /** Letters of ASCII, digits, and `-`, `.` and `_`, by their codes. */
  predicate PortableCode(n: int)
  {
    0x61 <= n <= 0x7A || 0x41 <= n <= 0x5A || 0x30 <= n <= 0x39 || n in [0x2D, 0x2E, 0x5F]
  }

  /** A value can be substituted if it is not empty and has only portable characters. */
  lemma SegmentIsExact(value: string)
    ensures SegmentOk(value) <==> value != "" && forall i :: 0 <= i < |value| ==> PortableCode(value[i] as int)
  {
  }

  /** The field of the `i`th part is the first that has no usable value. */
  predicate FirstUnusable(parts: seq<Part>, attrs: Attributes, i: nat)
  {
    && i < |parts| && parts[i].Placeholder? && !SegmentOk(attrs.Get(parts[i].field))
    && forall j :: 0 <= j < i && parts[j].Placeholder? ==> SegmentOk(attrs.Get(parts[j].field))
  }

  lemma {:induction false} FirstBadIsFirst(parts: seq<Part>, attrs: Attributes) returns (i: nat)
    ensures match FirstBad(parts, attrs)
            case Some(f) => FirstUnusable(parts, attrs, i) && parts[i].field == f
            case None => forall j :: 0 <= j < |parts| && parts[j].Placeholder? ==> SegmentOk(attrs.Get(parts[j].field))
    decreases |parts|
  {
    hide SegmentOk;
    i := 0;
    if parts != [] && !(parts[0].Placeholder? && !SegmentOk(attrs.Get(parts[0].field))) {
      var k := FirstBadIsFirst(parts[1..], attrs);
      i := k + 1;
      assert forall j :: 1 <= j < |parts| ==> parts[j] == parts[1..][j - 1];
    }
  }

  /** What rendering answers: the first placeholder without a usable value, or whether the ID is well formed. */
  lemma RenderIsExact(parts: seq<Part>, attrs: Attributes)
    ensures forall f :: Render(parts, attrs) == Err(BadSegment(f)) <==>
              exists i: nat :: FirstUnusable(parts, attrs, i) && parts[i].field == f
    ensures Render(parts, attrs).Ok? <==>
              && (forall j :: 0 <= j < |parts| && parts[j].Placeholder? ==> SegmentOk(attrs.Get(parts[j].field)))
              && IdOk(Rendered(parts, attrs))
  {
    hide SegmentOk, IdOk, Rendered;
    var i := FirstBadIsFirst(parts, attrs);
    if FirstBad(parts, attrs).Some? {
      forall k | FirstUnusable(parts, attrs, k) ensures k == i {
        assert !(k < i) && !(i < k);
      }
    }
  }

  function Slashes(s: string): nat
  {
    if s == "" then 0 else (if s[0] == '/' then 1 else 0) + Slashes(s[1..])
  }

  lemma {:induction false} SlashesConcat(a: string, b: string)
    ensures Slashes(a + b) == Slashes(a) + Slashes(b)
    decreases |a|
  {
    if a == "" {
      assert a + b == b;
    } else {
      assert (a + b)[1..] == a[1..] + b;
      SlashesConcat(a[1..], b);
    }
  }

  lemma {:induction false} SegmentHasNoSlash(s: string)
    requires forall i :: 0 <= i < |s| ==> SegmentChar(s[i])
    ensures Slashes(s) == 0
    decreases |s|
  {
    if s != "" {
      SegmentHasNoSlash(s[1..]);
    }
  }

  function LiteralSlashes(parts: seq<Part>): nat
  {
    if parts == [] then 0
    else (if parts[0].Literal? then Slashes(parts[0].text) else 0) + LiteralSlashes(parts[1..])
  }

  /** No value adds a segment to an ID: it has the slashes of the template, whatever is substituted. */
  lemma {:induction false} NoSegmentIsSmuggled(parts: seq<Part>, attrs: Attributes)
    requires FirstBad(parts, attrs).None?
    ensures Slashes(Rendered(parts, attrs)) == LiteralSlashes(parts)
    decreases |parts|
  {
    if parts != [] {
      hide Slashes, Rendered, SegmentChar;
      RenderedFirst(parts, attrs);
      NoSegmentIsSmuggled(parts[1..], attrs);
      var first := if parts[0].Literal? then parts[0].text else attrs.Get(parts[0].field);
      SlashesConcat(first, Rendered(parts[1..], attrs));
      if parts[0].Placeholder? {
        SegmentHasNoSlash(first);
      }
    } else {
      assert Rendered(parts, attrs) == "";
    }
  }

  // ---- Accepted IDs ----

  predicate Doubled(s: string)
  {
    exists i :: 0 <= i < |s| - 1 && s[i] == '/' && s[i + 1] == '/'
  }

  lemma DoubledAfter(s: string, i: nat)
    requires i + 1 < |s| && s[i] == '/' && '/' !in s[..i]
    ensures Doubled(s) <==> s[i + 1] == '/' || Doubled(s[i + 1..])
  {
    var path := s[i + 1..];
    if Doubled(s) {
      var k :| 0 <= k < |s| - 1 && s[k] == '/' && s[k + 1] == '/';
      assert forall j :: 0 <= j < i ==> s[..i][j] == s[j];
      if k > i {
        assert path[k - i - 1] == '/' && path[k - i - 1 + 1] == '/';
      }
    }
    if Doubled(path) {
      var k :| 0 <= k < |path| - 1 && path[k] == '/' && path[k + 1] == '/';
      assert s[i + 1 + k] == '/' && s[i + 1 + k + 1] == '/';
    }
  }

  lemma {:induction false} EmptyPieceIff(s: string)
    requires s != ""
    ensures "" in SplitOn(s, '/') <==> s[0] == '/' || s[|s| - 1] == '/' || Doubled(s)
    decreases |s|
  {
    var i := Find(s, '/');
    if i < |s| {
      hide Doubled;
      var rest := s[i + 1..];
      assert SplitOn(s, '/') == [s[..i]] + SplitOn(rest, '/');
      if rest == "" {
        assert SplitOn(rest, '/')[0] == "";
      } else {
        EmptyPieceIff(rest);
        DoubledAfter(s, i);
      }
    } else {
      assert '/' !in s;
    }
  }

  /** An ID in characters: after the scheme comes something other than a slash, no two slashes follow each
      other, and only the first slash may end the ID. */
  lemma IdIsExact(raw: string)
    ensures IdOk(raw) <==>
              && SCHEME <= raw && Utf8Len(raw) <= 2048 && |raw| > 9 && raw[9] != '/' && !Doubled(raw[9..])
              && (raw[|raw| - 1] == '/' ==> '/' !in raw[9..|raw| - 1])
  {
    hide Utf8Len;
    if SCHEME <= raw && |raw| > 9 {
      var rest := raw[9..];
      RestIsExact(rest);
      assert rest[..|rest| - 1] == raw[9..|raw| - 1];
    }
  }

  lemma RestIsExact(rest: string)
    requires rest != ""
    ensures var i := Find(rest, '/');
            i > 0 && (i + 1 < |rest| ==> "" !in SplitOn(rest[i + 1..], '/')) <==>
              && rest[0] != '/' && !Doubled(rest)
              && (rest[|rest| - 1] == '/' ==> '/' !in rest[..|rest| - 1])
  {
    var i := Find(rest, '/');
    if i + 1 < |rest| {
      var path := rest[i + 1..];
      EmptyPieceIff(path);
      hide SplitOn;
      assert rest[..|rest| - 1][i] == '/';
      DoubledAfter(rest, i);
    } else if i + 1 == |rest| {
      assert forall j :: 0 <= j < i ==> rest[..|rest| - 1][j] == rest[j];
    }
  }
}
