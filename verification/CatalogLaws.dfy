/** What the validation of a catalog lets through, character by character, and the ways an accepted
    lifetime can be written. */
module CatalogLaws {
  import opened Text
  import opened Catalog
  import K = Tokens
  import V = Volume

  // ---- Lifetimes ----

  /** A number of these units is so many seconds; without a unit it is seconds. */
  predicate Unit(unit: string, seconds: nat)
  {
    || (unit in ["", "s"] && seconds == 1) || (unit == "m" && seconds == 60)
    || (unit == "h" && seconds == 3600) || (unit == "d" && seconds == 86400)
  }

  /** The text is a number and a unit, with white space around them if one likes. */
  predicate Writes(text: string, digits: string, unit: string)
  {
    Trim(text) == digits + unit && digits != "" && AllDigits(digits, 10)
  }

  lemma {:induction false} DigitPrefixIs(digits: string, unit: string)
    requires AllDigits(digits, 10) && (unit != "" ==> !IsDigit(unit[0], 10))
    ensures DigitPrefix(digits + unit) == |digits|
    decreases |digits|
  {
    if digits == "" {
      assert digits + unit == unit;
    } else {
      assert (digits + unit)[1..] == digits[1..] + unit;
      DigitPrefixIs(digits[1..], unit);
    }
  }

  lemma UnitIs(unit: string, seconds: nat)
    ensures Unit(unit, seconds) <==> UnitSeconds(if unit == "" then "s" else unit) == Some(seconds)
  {
  }

  lemma DigitsAreUnsigned(digits: string)
    requires AllDigits(digits, 10)
    ensures ParseUnsigned(digits, 10, U64) ==
              if digits != "" && NumeralValue(digits, 10) < U64 then Some(NumeralValue(digits, 10)) else None
  {
    assert digits != "" ==> IsDigit(digits[0], 10);
  }

  /** `parse_duration`: what is written as a number and a unit, both the number and the seconds within
      64 bits, and nothing else. */
  lemma DurationIsExact(text: string, seconds: nat)
    ensures ParseDuration(text) == Some(seconds) <==>
              exists digits, unit :: Writes(text, digits, unit) && Lasts(digits, unit, seconds)
  {
    hide NumeralValue, ParseUnsigned, Trim, UnitSeconds, Unit;
    var t := Trim(text);
    var n := DigitPrefix(t);
    DigitsAreUnsigned(t[..n]);
    assert t == t[..n] + t[n..];
    if ParseDuration(text) == Some(seconds) {
      var per := UnitSeconds(if n == |t| then "s" else t[n..]).value;
      UnitIs(t[n..], per);
      assert Writes(text, t[..n], t[n..]);
      assert Amount(t[..n], t[n..], seconds, per);
    }
    if digits, unit :| Writes(text, digits, unit) && Lasts(digits, unit, seconds) {
      var per: nat :| Amount(digits, unit, seconds, per);
      NoDigitUnit(unit, per);
      DigitPrefixIs(digits, unit);
      assert t[..n] == digits && t[n..] == unit;
      UnitIs(unit, per);
    }
  }

  lemma NoDigitUnit(unit: string, per: nat)
    requires Unit(unit, per)
    ensures (unit != "" ==> !IsDigit(unit[0], 10)) && per >= 1
  {
  }

  predicate Amount(digits: string, unit: string, seconds: nat, per: nat)
    requires AllDigits(digits, 10)
  {
    && Unit(unit, per) && NumeralValue(digits, 10) < U64 && seconds == NumeralValue(digits, 10) * per && seconds < U64
  }

  ghost predicate Lasts(digits: string, unit: string, seconds: nat)
    requires AllDigits(digits, 10)
  {
    exists per: nat :: Amount(digits, unit, seconds, per)
  }

  /** A lifetime written as a duration of six to twelve hours. */
  ghost predicate TtlForm(text: string)
  {
    exists digits, unit, seconds: nat ::
      Writes(text, digits, unit) && Lasts(digits, unit, seconds) && 21600 <= seconds <= 43200
  }

  lemma TtlIsExact(text: string)
    ensures TtlOk(Some(text)) <==> TtlForm(text)
  {
    hide ParseDuration, Trim, Lasts;
    if TtlOk(Some(text)) {
      DurationIsExact(text, ParseDuration(text).value);
    }
    if digits, unit, seconds: nat :| Writes(text, digits, unit) && Lasts(digits, unit, seconds)
                                    && 21600 <= seconds <= 43200 {
      DurationIsExact(text, seconds);
    }
  }

  // ---- Names ----

  predicate LowerOrDigit(c: char)
  {
    'a' <= c <= 'z' || '0' <= c <= '9'
  }

  /** Lower-case letters and digits, with hyphens and dots between them, at most 253. */
  predicate NameForm(s: string)
  {
    && 1 <= |s| <= 253
    && forall i :: 0 <= i < |s| ==> LowerOrDigit(s[i]) || (0 < i < |s| - 1 && (s[i] == '-' || s[i] == '.'))
  }

  lemma NameIsExact(s: string)
    ensures IsName(s) <==> NameForm(s)
  {
  }

  /** One item of a list separated by commas, under a name of 63 characters at the most, without dots. */
  predicate AudienceForm(a: Audience)
  {
    && 1 <= |a.alias| <= 63
    && (forall i :: 0 <= i < |a.alias| ==> LowerOrDigit(a.alias[i]) || a.alias[i] == '-')
    && a.audience != "" && SplitOn(a.audience, ',') == [a.audience]
  }

  lemma AudienceIsExact(a: Audience)
    ensures AudienceOk(a) <==> AudienceForm(a)
  {
    var pieces := SplitOn(a.audience, ',');
    assert ',' in a.audience ==> a.audience !in pieces;
    assert [a.audience][0] == a.audience;
  }

  // ---- Entries ----

  ghost predicate EntryForm(id: Identity)
  {
    && (id.cluster == "*" || NameForm(id.cluster)) && NameForm(id.namespace) && NameForm(id.serviceAccount)
    && (id.ttl.Some? ==> TtlForm(id.ttl.value)) && (forall a :: a in id.audiences ==> AudienceForm(a))
    && (forall i, j :: 0 <= i < |id.audiences| && 0 <= j < |id.audiences| && i != j ==>
          id.audiences[i].alias != id.audiences[j].alias && id.audiences[i].audience != id.audiences[j].audience)
  }

  lemma EntryIsExact(id: Identity)
    ensures EntryOk(id) <==> EntryForm(id)
  {
    NameIsExact(id.cluster);
    NameIsExact(id.namespace);
    NameIsExact(id.serviceAccount);
    if id.ttl.Some? {
      TtlIsExact(id.ttl.value);
      assert id.ttl == Some(id.ttl.value);
    }
    forall a ensures AudienceOk(a) <==> AudienceForm(a) {
      AudienceIsExact(a);
    }
    hide IsName, NameForm, TtlOk, TtlForm, AudienceOk, AudienceForm;
    assert forall i :: 0 <= i < |id.audiences| ==> id.audiences[i] in id.audiences;
  }

  /** A catalog's entries are valid if and only if each is written as it should be and no two are for the same
      cluster, namespace and account. */
  lemma EntriesAreExact(ids: seq<Identity>)
    ensures EntriesOk(ids) <==>
              && (forall id :: id in ids ==> EntryForm(id))
              && forall i, j :: 0 <= i < |ids| && 0 <= j < |ids| && i != j ==>
                   !(&& ids[i].cluster == ids[j].cluster && ids[i].namespace == ids[j].namespace
                     && ids[i].serviceAccount == ids[j].serviceAccount)
  {
    forall id ensures EntryOk(id) <==> EntryForm(id) {
      EntryIsExact(id);
    }
    hide EntryOk, EntryForm;
    assert forall i :: 0 <= i < |ids| ==> ids[i] in ids;
  }

  /** The tokens of an entry do not get in each other's way: published under its aliases, each is accepted as a
      file of its own and holds its own token. */
  lemma {:induction false} TokensDoNotCollide(l: seq<Audience>, docs: seq<(string, string)>, i: nat)
    requires AudiencesOk(l) && |docs| == |l| && i < |l| && forall k :: 0 <= k < |l| ==> docs[k].0 == l[k].alias
    ensures V.IsAlias(l[i].alias)
    ensures l[i].alias in V.Overlay(docs) && V.Overlay(docs)[l[i].alias] == docs[i].1
  {
    assert AudienceOk(l[i]) && AliasChar(l[i].alias[0]);
    assert V.LastOf(docs, docs[i].0, docs[i].1, i);
    V.OverlayIsLast(docs, docs[i].0, docs[i].1);
  }

  /** And a requested audience has one alias, whatever the order of the list. */
  lemma {:induction false} AliasIsUnique(l: seq<Audience>, a: Audience)
    requires AudiencesOk(l)
    ensures a in l <==> K.AliasOf(l, a.audience) == Some(a.alias)
    decreases |l|
  {
    hide AudienceOk;
    if l != [] {
      assert forall k :: 0 < k < |l| ==> l[k] == l[1..][k - 1];
      AliasIsUnique(l[1..], a);
    }
  }

  // ---- The order of the policy ----

  /** The two texts agree up to a place where the first one ends or has the smaller character. */
  predicate DiffersAt(x: string, y: string, i: nat)
  {
    i < |y| && i <= |x| && x[..i] == y[..i] && (i == |x| || x[i] < y[i])
  }

  ghost predicate Before(x: string, y: string)
  {
    exists i: nat :: DiffersAt(x, y, i)
  }

  lemma {:induction false} StringLeqIs(x: string, y: string)
    ensures StringLeq(x, y) <==> x == y || Before(x, y)
    decreases |x|
  {
    if x == "" {
      assert y != "" ==> DiffersAt(x, y, 0);
    } else if y != "" {
      var x', y' := x[1..], y[1..];
      StringLeqIs(x', y');
      assert x == [x[0]] + x' && y == [y[0]] + y';
      if x[0] == y[0] {
        BeforeTail(x, y);
      } else {
        FirstDecides(x, y);
      }
    }
  }

  lemma FirstDecides(x: string, y: string)
    requires x != "" && y != "" && x[0] != y[0]
    ensures Before(x, y) <==> x[0] < y[0]
  {
    forall i: nat ensures DiffersAt(x, y, i) <==> i == 0 && x[0] < y[0] {
      if 0 < i <= |x| && i <= |y| {
        assert x[..i][0] == x[0] && y[..i][0] == y[0];
      }
    }
    assert DiffersAt(x, y, 0) <==> x[0] < y[0];
  }

  lemma BeforeTail(x: string, y: string)
    requires x != "" && y != "" && x[0] == y[0]
    ensures Before(x, y) <==> Before(x[1..], y[1..])
  {
    if i: nat :| DiffersAt(x, y, i) {
      assert i > 0;
      assert x[1..][..i - 1] == x[..i][1..] && y[1..][..i - 1] == y[..i][1..];
      assert DiffersAt(x[1..], y[1..], i - 1);
    }
    if i: nat :| DiffersAt(x[1..], y[1..], i) {
      assert x[..i + 1] == [x[0]] + x[1..][..i] && y[..i + 1] == [y[0]] + y[1..][..i];
      assert DiffersAt(x, y, i + 1);
    }
  }

  lemma NotBeforeItself(x: string)
    ensures !Before(x, x)
  {
  }

  /** Entries come in the order of their namespaces, and within one of their accounts. */
  lemma OrderIsExact(a: Identity, b: Identity)
    ensures Less(a, b) <==>
              || Before(a.namespace, b.namespace)
              || (a.namespace == b.namespace && Before(a.serviceAccount, b.serviceAccount))
  {
    hide StringLeq, Before;
    StringLeqIs(a.namespace, b.namespace);
    StringLeqIs(a.serviceAccount, b.serviceAccount);
    NotBeforeItself(a.namespace);
    NotBeforeItself(a.serviceAccount);
  }

  // ---- The header ----

  ghost predicate Within(part: string, s: string)
  {
    exists i :: 0 <= i <= |s| && part <= s[i..]
  }

  lemma {:induction false} ContainsIs(s: string, part: string)
    ensures Contains(s, part) <==> Within(part, s)
    decreases |s|
  {
    if s != "" {
      ContainsIs(s[1..], part);
      if i :| 0 <= i <= |s[1..]| && part <= s[1..][i..] {
        assert s[1..][i..] == s[i + 1..];
      }
      if i :| 0 < i <= |s| && part <= s[i..] {
        assert s[i..] == s[1..][i - 1..];
      }
    }
    assert s[0..] == s;
  }

  lemma FindInTwo(a: string, b: string)
    ensures Find(a + "/" + b, '/') == Find(a, '/')
  {
    var s, i := a + "/" + b, Find(a, '/');
    assert forall j :: 0 <= j < |a| ==> s[j] == a[j];
    FindUnique(s, '/', i);
  }

  lemma {:induction false} PiecesOfTwo(a: string, b: string)
    ensures SplitOn(a + "/" + b, '/') == SplitOn(a, '/') + SplitOn(b, '/')
    decreases |a|
  {
    hide SplitOn, Find;
    var s, i := a + "/" + b, Find(a, '/');
    FindInTwo(a, b);
    FirstPiece(s);
    FirstPiece(a);
    SlicesOfTwo(a, b, i);
    if i == |a| {
      assert a[..i] == a;
    } else {
      PiecesOfTwo(a[i + 1..], b);
      Regroup(a[..i], SplitOn(a[i + 1..], '/'), SplitOn(b, '/'));
    }
  }

  lemma SlicesOfTwo(a: string, b: string, i: nat)
    requires i <= |a|
    ensures var s := a + "/" + b;
            s[..i] == a[..i] && s[i + 1..] == if i == |a| then b else a[i + 1..] + "/" + b
  {
  }

  lemma Regroup(first: string, a: seq<string>, b: seq<string>)
    ensures [first] + (a + b) == [first] + a + b
  {
  }

  lemma FirstPiece(s: string)
    ensures var i := Find(s, '/');
            SplitOn(s, '/') == if i == |s| then [s] else [s[..i]] + SplitOn(s[i + 1..], '/')
  {
    hide Find;
  }

  /** An image whose reference starts with an approved registry names that registry in full: its host and
      path are whole pieces of the reference, and not the beginning of a longer one. */
  lemma RegistryIsWhole(c: Catalog, registry: string, image: string)
    requires HeaderOk(c) && registry in c.registries && registry <= image
    ensures registry != "" && SplitOn(registry[..|registry| - 1], '/') <= SplitOn(image, '/')
  {
    var n := |registry|;
    assert registry[n - 1] == '/';
    assert image == registry[..n - 1] + "/" + image[n..];
    PiecesOfTwo(registry[..n - 1], image[n..]);
  }

  ghost predicate EndsInSlash(r: string)
  {
    exists host :: r == host + "/"
  }

  /** The header is valid if and only if the schema is the first, the trust domain is one segment, the path is
      absolute and has the three placeholders somewhere, and every registry ends in a slash. */
  lemma HeaderIsExact(c: Catalog)
    ensures HeaderOk(c) <==>
              && c.schema == 1 && c.trustDomain != "" && SplitOn(c.trustDomain, '/') == [c.trustDomain]
              && Within("{cluster}", c.pathTemplate) && Within("{namespace}", c.pathTemplate)
              && Within("{service_account}", c.pathTemplate) && c.pathTemplate != "" && c.pathTemplate[0] == '/'
              && forall r :: r in c.registries ==> EndsInSlash(r)
  {
    ContainsIs(c.pathTemplate, "{cluster}");
    ContainsIs(c.pathTemplate, "{namespace}");
    ContainsIs(c.pathTemplate, "{service_account}");
    OneSegment(c.trustDomain);
    RegistriesAre(c.registries);
    hide Contains, EndsInSlash, SplitOn, Within;
    assert "/" <= c.pathTemplate <==> c.pathTemplate != "" && c.pathTemplate[0] == '/';
  }

  lemma RegistriesAre(l: seq<string>)
    ensures (forall r :: r in l ==> EndsInSlash(r)) <==>
              forall i :: 0 <= i < |l| ==> l[i] != "" && l[i][|l[i]| - 1] == '/'
  {
    forall i | 0 <= i < |l| ensures l[i] in l && (EndsInSlash(l[i]) <==> l[i] != "" && l[i][|l[i]| - 1] == '/') {
      LastIsSlash(l[i]);
    }
    hide EndsInSlash;
  }

  lemma OneSegment(s: string)
    ensures SplitOn(s, '/') == [s] <==> '/' !in s
  {
    assert '/' in s ==> s !in SplitOn(s, '/');
    assert [s][0] == s;
  }

  lemma LastIsSlash(r: string)
    ensures EndsInSlash(r) <==> r != "" && r[|r| - 1] == '/'
  {
    if r != "" && r[|r| - 1] == '/' {
      assert r == r[..|r| - 1] + "/";
    }
  }
}
