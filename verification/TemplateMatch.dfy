/** The matcher a template compiles to: literals match themselves, a placeholder captures one or more
    characters other than `/`, and shorter captures are tried first. */
module TemplateMatch {
  import opened Text
  import opened Template

  /** How many placeholders the parts have. */
  function Count(parts: seq<Part>): nat
  {
    if parts == [] then 0 else (if parts[0].Placeholder? then 1 else 0) + Count(parts[1..])
  }

  /** The parts with one value put in for each placeholder, in order. */
  function Substitute(parts: seq<Part>, caps: seq<string>): string
    requires |caps| == Count(parts)
  {
    if parts == [] then ""
    else match parts[0]
      case Literal(t) => t + Substitute(parts[1..], caps)
      case Placeholder(_) => caps[0] + Substitute(parts[1..], caps[1..])
  }

  predicate IsCapture(c: string)
  {
    c != "" && '/' !in c
  }

  predicate Captures(caps: seq<string>)
  {
    forall i :: 0 <= i < |caps| ==> IsCapture(caps[i])
  }

  /** `caps` is one way of reading `s` as an instance of the parts. */
  predicate IsMatch(parts: seq<Part>, s: string, caps: seq<string>)
  {
    |caps| == Count(parts) && Captures(caps) && Substitute(parts, caps) == s
  }

  /** The anchored regular expression, run by backtracking. */
  function Match(parts: seq<Part>, s: string): Option<seq<string>>
    decreases |parts|, |s| + 1
  {
    if parts == [] then (if s == "" then Some([]) else None)
    else match parts[0]
      case Literal(t) => if t <= s then Match(parts[1..], s[|t|..]) else None
      case Placeholder(_) => MatchFrom(parts, s, 1)
  }

  /** `([^/]+?)`: a capture of `k` characters, or else a longer one. */
  function MatchFrom(parts: seq<Part>, s: string, k: nat): Option<seq<string>>
    requires parts != [] && k >= 1
    decreases |parts|, if k <= |s| then |s| + 1 - k else 0
  {
    if k > |s| || s[k - 1] == '/' then None
    else match Match(parts[1..], s[k..])
      case Some(caps) => Some([s[..k]] + caps)
      case None => MatchFrom(parts, s, k + 1)
  }

  /** The capture lengths of `a` come no later than those of `b` in lexicographic order. */
  predicate LexLeq(a: seq<string>, b: seq<string>)
    requires |a| == |b|
  {
    a == [] || |a[0]| < |b[0]| || (|a[0]| == |b[0]| && LexLeq(a[1..], b[1..]))
  }

  // ---- What the matcher returns is a match ----

  lemma {:induction false} MatchIsSound(parts: seq<Part>, s: string)
    requires Match(parts, s).Some?
    ensures IsMatch(parts, s, Match(parts, s).value)
    decreases |parts|, |s| + 1
  {
    if parts != [] {
      match parts[0]
      case Literal(t) =>
        MatchIsSound(parts[1..], s[|t|..]);
        assert t + s[|t|..] == s;
      case Placeholder(_) =>
        MatchFromIsSound(parts, s, 1);
    }
  }

  lemma {:induction false} MatchFromIsSound(parts: seq<Part>, s: string, k: nat)
    requires parts != [] && parts[0].Placeholder? && k >= 1
    requires forall i :: 0 <= i < k - 1 && i < |s| ==> s[i] != '/'
    requires MatchFrom(parts, s, k).Some?
    ensures IsMatch(parts, s, MatchFrom(parts, s, k).value)
    decreases |parts|, if k <= |s| then |s| + 1 - k else 0
  {
    match Match(parts[1..], s[k..])
    case Some(caps) =>
      MatchIsSound(parts[1..], s[k..]);
      assert ([s[..k]] + caps)[1..] == caps;
      assert s[..k] + s[k..] == s;
    case None =>
      MatchFromIsSound(parts, s, k + 1);
  }

  // ---- It finds a match if there is one, and the least ----

  lemma MatchTail(parts: seq<Part>, s: string, b: seq<string>)
    requires IsMatch(parts, s, b) && parts != []
    ensures parts[0].Literal? ==> parts[0].text <= s && IsMatch(parts[1..], s[|parts[0].text|..], b)
    ensures parts[0].Placeholder? ==>
              && b != [] && IsCapture(b[0]) && b[0] <= s && IsMatch(parts[1..], s[|b[0]|..], b[1..])
  {
  }

  /** Every reading of the text is found, or one with lexicographically smaller capture lengths. */
  lemma {:induction false} MatchIsLeast(parts: seq<Part>, s: string, b: seq<string>)
    requires IsMatch(parts, s, b)
    ensures Match(parts, s).Some? && |Match(parts, s).value| == |b| && LexLeq(Match(parts, s).value, b)
    decreases |parts|, |s| + 1
  {
    if parts != [] {
      MatchTail(parts, s, b);
      match parts[0]
      case Literal(t) => MatchIsLeast(parts[1..], s[|t|..], b);
      case Placeholder(_) => MatchFromIsLeast(parts, s, 1, b);
    }
  }

  lemma {:induction false} MatchFromIsLeast(parts: seq<Part>, s: string, k: nat, b: seq<string>)
    requires parts != [] && parts[0].Placeholder? && IsMatch(parts, s, b) && 1 <= k <= |b[0]|
    ensures MatchFrom(parts, s, k).Some? && |MatchFrom(parts, s, k).value| == |b|
    ensures LexLeq(MatchFrom(parts, s, k).value, b)
    decreases |parts|, if k <= |s| then |s| + 1 - k else 0
  {
    MatchTail(parts, s, b);
    assert s[k - 1] == b[0][k - 1];
    if k == |b[0]| {
      MatchIsLeast(parts[1..], s[k..], b[1..]);
      var caps := Match(parts[1..], s[k..]).value;
      assert ([s[..k]] + caps)[1..] == caps;
    } else if Match(parts[1..], s[k..]).Some? {
      MatchIsSound(parts[1..], s[k..]);
    } else {
      MatchFromIsLeast(parts, s, k + 1, b);
    }
  }

  lemma {:induction false} LexLeqIsAntisymmetric(parts: seq<Part>, s: string, a: seq<string>, b: seq<string>)
    requires IsMatch(parts, s, a) && IsMatch(parts, s, b) && LexLeq(a, b) && LexLeq(b, a)
    ensures a == b
    decreases |parts|
  {
    if parts != [] {
      MatchTail(parts, s, a);
      MatchTail(parts, s, b);
      if parts[0].Placeholder? {
        assert a[0] == s[..|a[0]|] && b[0] == s[..|b[0]|];
        LexLeqIsAntisymmetric(parts[1..], s[|a[0]|..], a[1..], b[1..]);
        assert a == [a[0]] + a[1..] && b == [b[0]] + b[1..];
      } else {
        LexLeqIsAntisymmetric(parts[1..], s[|parts[0].text|..], a, b);
      }
    }
  }

  /** For any template: values come back out of the text they were put into exactly when no other
      reading of that text has smaller capture lengths. */
  lemma MatchesBackIffLeast(parts: seq<Part>, caps: seq<string>)
    requires |caps| == Count(parts) && Captures(caps)
    ensures Match(parts, Substitute(parts, caps)) == Some(caps) <==>
            forall b :: IsMatch(parts, Substitute(parts, caps), b) ==> LexLeq(caps, b)
  {
    var s := Substitute(parts, caps);
    MatchIsLeast(parts, s, caps);
    MatchIsSound(parts, s);
    var found := Match(parts, s).value;
    if found == caps {
      forall b | IsMatch(parts, s, b) ensures LexLeq(caps, b) {
        MatchIsLeast(parts, s, b);
      }
    } else if LexLeq(caps, found) {
      LexLeqIsAntisymmetric(parts, s, caps, found);
    }
  }

  // ---- Templates whose placeholders are separated by a slash ----

  /** The literal text before the next placeholder, or before the end. */
  function Lead(parts: seq<Part>): string
  {
    if parts == [] || parts[0].Placeholder? then "" else parts[0].text + Lead(parts[1..])
  }

  /** The text between any two consecutive placeholders contains a `/`. */
  predicate Separated(parts: seq<Part>)
  {
    parts != [] ==>
      && (parts[0].Placeholder? && Count(parts[1..]) > 0 ==> '/' in Lead(parts[1..]))
      && Separated(parts[1..])
  }

  lemma {:induction false} StartsWithLead(parts: seq<Part>, caps: seq<string>)
    requires |caps| == Count(parts)
    ensures Lead(parts) <= Substitute(parts, caps)
    ensures Count(parts) == 0 ==> Substitute(parts, caps) == Lead(parts)
    decreases |parts|
  {
    if parts != [] && parts[0].Literal? {
      StartsWithLead(parts[1..], caps);
      var t, lead, rest := parts[0].text, Lead(parts[1..]), Substitute(parts[1..], caps);
      assert t + rest == (t + lead) + rest[|lead|..];
    }
  }

  lemma FirstSlash(a: string, lead: string, s: string)
    requires '/' !in a && '/' in lead && a + lead <= s
    ensures Find(s, '/') == |a| + Find(lead, '/')
  {
    var k := |a| + Find(lead, '/');
    assert forall j :: 0 <= j < k ==> s[j] == (a + lead)[j];
    assert s[k] == (a + lead)[k];
    FindUnique(s, '/', k);
  }

  lemma FirstCaptureLength(parts: seq<Part>, s: string, a: seq<string>)
    requires parts != [] && parts[0].Placeholder? && Separated(parts) && IsMatch(parts, s, a)
    ensures var rest := parts[1..];
            |a[0]| == (if Count(rest) == 0 then |s| - |Lead(rest)| else Find(s, '/') - Find(Lead(rest), '/'))
  {
    var rest := parts[1..];
    StartsWithLead(rest, a[1..]);
    if Count(rest) > 0 {
      var tail := Substitute(rest, a[1..]);
      assert a[0] + tail == (a[0] + Lead(rest)) + tail[|Lead(rest)|..];
      FirstSlash(a[0], Lead(rest), s);
    }
  }

  lemma FirstCaptureIsUnique(parts: seq<Part>, s: string, a: seq<string>, b: seq<string>)
    requires parts != [] && parts[0].Placeholder? && Separated(parts) && IsMatch(parts, s, a) && IsMatch(parts, s, b)
    ensures a[0] == b[0]
  {
    FirstCaptureLength(parts, s, a);
    FirstCaptureLength(parts, s, b);
    MatchTail(parts, s, a);
    MatchTail(parts, s, b);
    assert a[0] == s[..|a[0]|] && b[0] == s[..|b[0]|];
  }

  /** There is at most one way to take an ID apart. */
  lemma {:induction false} MatchIsUnique(parts: seq<Part>, s: string, a: seq<string>, b: seq<string>)
    requires Separated(parts) && IsMatch(parts, s, a) && IsMatch(parts, s, b)
    ensures a == b
    decreases |parts|
  {
    if parts != [] {
      MatchTail(parts, s, a);
      MatchTail(parts, s, b);
      if parts[0].Placeholder? {
        FirstCaptureIsUnique(parts, s, a, b);
        MatchIsUnique(parts[1..], s[|a[0]|..], a[1..], b[1..]);
        assert a == [a[0]] + a[1..] && b == [b[0]] + b[1..];
      } else {
        MatchIsUnique(parts[1..], s[|parts[0].text|..], a, b);
      }
    }
  }

  /** On such templates the matcher undoes substitution. */
  lemma MatchUndoesSubstitute(parts: seq<Part>, caps: seq<string>)
    requires Separated(parts) && |caps| == Count(parts) && Captures(caps)
    ensures Match(parts, Substitute(parts, caps)) == Some(caps)
  {
    var s := Substitute(parts, caps);
    MatchIsLeast(parts, s, caps);
    MatchIsSound(parts, s);
    MatchIsUnique(parts, s, Match(parts, s).value, caps);
  }

  // ---- All templates ----

  predicate OccursAt(s: string, i: nat, part: string)
  {
    i + |part| <= |s| && s[i..i + |part|] == part
  }

  /** Looking for the text after a value from its second character on, one finds it too early. */
  predicate Early(value: string, next: string)
  {
    exists i :: 1 <= i < |value| && OccursAt(value + next, i, next)
  }

  /** No value that another one follows ends early. */
  predicate Clear(parts: seq<Part>, caps: seq<string>)
    requires |caps| == Count(parts)
  {
    parts == [] ||
    match parts[0]
    case Literal(_) => Clear(parts[1..], caps)
    case Placeholder(_) => (Count(parts[1..]) > 0 ==> !Early(caps[0], Lead(parts[1..]))) && Clear(parts[1..], caps[1..])
  }

  lemma ShorterIsEarly(v: string, next: string, tail: string, i: nat)
    requires 1 <= i < |v| && next <= tail && next <= (v + tail)[i..]
    ensures Early(v, next)
  {
    var s := v + next;
    assert s[i..i + |next|] == (v + tail)[i..][..|next|];
    assert OccursAt(s, i, next);
  }

  lemma {:induction false} ClearIsLeast(parts: seq<Part>, caps: seq<string>, b: seq<string>)
    requires |caps| == Count(parts) && Captures(caps) && Clear(parts, caps)
    requires IsMatch(parts, Substitute(parts, caps), b)
    ensures LexLeq(caps, b)
    decreases |parts|
  {
    if parts != [] {
      var s, rest := Substitute(parts, caps), parts[1..];
      MatchTail(parts, s, b);
      if parts[0].Literal? {
        assert s[|parts[0].text|..] == Substitute(rest, caps);
        ClearIsLeast(rest, caps, b);
      } else {
        var tail := Substitute(rest, caps[1..]);
        StartsWithLead(rest, caps[1..]);
        StartsWithLead(rest, b[1..]);
        if |b[0]| < |caps[0]| && Count(rest) > 0 {
          ShorterIsEarly(caps[0], Lead(rest), tail, |b[0]|);
        }
        if |b[0]| == |caps[0]| {
          assert s[|b[0]|..] == tail;
          ClearIsLeast(rest, caps[1..], b[1..]);
        }
      }
    }
  }

  /** What comes after the first placeholder. */
  function Skip(parts: seq<Part>): seq<Part>
  {
    if parts == [] then [] else if parts[0].Placeholder? then parts[1..] else Skip(parts[1..])
  }

  lemma {:induction false} LeadThenFirst(parts: seq<Part>, caps: seq<string>)
    requires |caps| == Count(parts) > 0
    ensures Count(Skip(parts)) == |caps| - 1
    ensures Substitute(parts, caps) == Lead(parts) + (caps[0] + Substitute(Skip(parts), caps[1..]))
    decreases |parts|
  {
    if parts[0].Literal? {
      LeadThenFirst(parts[1..], caps);
    } else {
      assert "" + (caps[0] + Substitute(parts[1..], caps[1..])) == caps[0] + Substitute(parts[1..], caps[1..]);
    }
  }

  /** A text that is found early has no slash in it, since values have none. */
  lemma EarlyHasNoSlash(v: string, next: string, i: nat)
    requires '/' !in v && 1 <= i < |v| && OccursAt(v + next, i, next)
    ensures '/' !in next
  {
    var k := Find(next, '/');
  }

  lemma EarlyRest(v: string, next: string, i: nat)
    requires IsCapture(v) && 1 <= i < |v| && OccursAt(v + next, i, next)
    ensures var more := (v + next)[i + |next|..];
            IsCapture(v[..i]) && '/' !in more && v + next == v[..i] + next + more
  {
    EarlyHasNoSlash(v, next, i);
    var s := v + next;
    assert s == s[..i] + s[i..i + |next|] + s[i + |next|..] && s[..i] == v[..i];
  }

  /** Where a value ends early, its end can move to the next one: another reading of the same text,
      with smaller capture lengths. */
  lemma {:induction false} EarlyMoves(parts: seq<Part>, caps: seq<string>) returns (b: seq<string>)
    requires |caps| == Count(parts) && Captures(caps) && !Clear(parts, caps)
    ensures IsMatch(parts, Substitute(parts, caps), b) && !LexLeq(caps, b)
    decreases |parts|
  {
    var rest := parts[1..];
    if parts[0].Literal? {
      b := EarlyMoves(rest, caps);
    } else if Count(rest) > 0 && Early(caps[0], Lead(rest)) {
      b := MoveEnd(parts, caps);
    } else {
      var b' := EarlyMoves(rest, caps[1..]);
      b := [caps[0]] + b';
      assert b[1..] == b';
    }
  }

  lemma MoveEnd(parts: seq<Part>, caps: seq<string>) returns (b: seq<string>)
    requires |caps| == Count(parts) && Captures(caps) && parts != [] && parts[0].Placeholder?
    requires Count(parts[1..]) > 0 && Early(caps[0], Lead(parts[1..]))
    ensures IsMatch(parts, Substitute(parts, caps), b) && !LexLeq(caps, b)
  {
    hide Clear, Skip;
    var rest, v, next := parts[1..], caps[0], Lead(parts[1..]);
    var i :| 1 <= i < |v| && OccursAt(v + next, i, next);
    var more := (v + next)[i + |next|..];
    EarlyRest(v, next, i);
    b := [v[..i], more + caps[1]] + caps[2..];
    assert b[1..] == [more + caps[1]] + caps[2..] && b[1..][1..] == caps[2..] && caps[1..][1..] == caps[2..];
    LeadThenFirst(rest, caps[1..]);
    LeadThenFirst(rest, b[1..]);
    Regroup(v, next, v[..i], more, caps[1], Substitute(Skip(rest), caps[2..]));
    assert IsCapture(more + caps[1]) && Captures(b);
  }

  lemma Regroup(v: string, next: string, head: string, more: string, w: string, tail: string)
    requires v + next == head + next + more
    ensures head + (next + (more + w + tail)) == v + (next + (w + tail))
  {
    assert head + (next + (more + w + tail)) == (head + next + more) + (w + tail);
    assert v + (next + (w + tail)) == (v + next) + (w + tail);
  }

  /** For every template and all values: they come back out of the text they were put into if and only
      if none of them, followed by the text up to the next placeholder, contains that text early. */
  lemma MatchesBackIffClear(parts: seq<Part>, caps: seq<string>)
    requires |caps| == Count(parts) && Captures(caps)
    ensures Match(parts, Substitute(parts, caps)) == Some(caps) <==> Clear(parts, caps)
  {
    MatchesBackIffLeast(parts, caps);
    if Clear(parts, caps) {
      forall b | IsMatch(parts, Substitute(parts, caps), b) ensures LexLeq(caps, b) {
        ClearIsLeast(parts, caps, b);
      }
    } else {
      var b := EarlyMoves(parts, caps);
    }
  }

  // ---- Templates with two placeholders side by side ----

  predicate Adjacent(parts: seq<Part>)
  {
    exists i :: 0 <= i < |parts| - 1 && parts[i].Placeholder? && parts[i + 1].Placeholder?
  }

  lemma {:induction false} AdjacentIsNotClear(parts: seq<Part>, caps: seq<string>)
    requires Adjacent(parts) && |caps| == Count(parts) && forall i :: 0 <= i < |caps| ==> |caps[i]| > 1
    ensures !Clear(parts, caps)
    decreases |parts|
  {
    var rest := parts[1..];
    if parts[0].Placeholder? && parts[1].Placeholder? {
      assert rest[0] == parts[1];
      assert OccursAt(caps[0] + "", 1, "");
    } else {
      var i :| 0 <= i < |parts| - 1 && parts[i].Placeholder? && parts[i + 1].Placeholder?;
      assert rest[i - 1] == parts[i] && rest[i] == parts[i + 1];
      AdjacentIsNotClear(rest, if parts[0].Placeholder? then caps[1..] else caps);
    }
  }

  /** With values longer than one character such a template never gives them back. */
  lemma AdjacentDoesNotMatchBack(parts: seq<Part>, caps: seq<string>)
    requires Adjacent(parts) && |caps| == Count(parts) && Captures(caps)
    requires forall i :: 0 <= i < |caps| ==> |caps[i]| > 1
    ensures Match(parts, Substitute(parts, caps)) != Some(caps)
  {
    AdjacentIsNotClear(parts, caps);
    MatchesBackIffClear(parts, caps);
  }
}
