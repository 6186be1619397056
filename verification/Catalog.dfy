/** The identity catalog: validation, lookup, the entries in force in one cluster, and the grants of
    the Vault policy rendered for it. */
module Catalog {
  import opened Text

  datatype Audience = Audience(alias: string, audience: string)

  datatype Identity = Identity(
    cluster: string, namespace: string, serviceAccount: string, ttl: Option<string>, audiences: seq<Audience>)

  datatype Catalog = Catalog(
    schema: nat, trustDomain: string, pathTemplate: string, registries: seq<string>, identities: seq<Identity>)

  // ---- Validation ----

  predicate NameChar(c: char)
  {
    'a' <= c <= 'z' || '0' <= c <= '9' || c == '-' || c == '.'
  }

  predicate IsEdge(c: char)
  {
    c == '-' || c == '.'
  }

  /** `is_name`. */
  predicate IsName(s: string)
  {
    && 0 < |s| <= 253 && (forall i :: 0 <= i < |s| ==> NameChar(s[i]))
    && !IsEdge(s[0]) && !IsEdge(s[|s| - 1])
  }

  /** A name is free of the character that separates role names. */
  lemma NameHasNoUnderscore(s: string)
    requires IsName(s)
    ensures '_' !in s
  {
  }

  predicate Contains(s: string, part: string)
  {
    part <= s || (s != "" && Contains(s[1..], part))
  }

  function DigitPrefix(s: string): (n: nat)
    ensures n <= |s| && AllDigits(s[..n], 10)
  {
    if s != "" && IsDigit(s[0], 10) then
      var n := 1 + DigitPrefix(s[1..]);
      assert forall i :: 1 <= i < n ==> s[i] == s[1..][i - 1];
      n
    else 0
  }

  function UnitSeconds(unit: string): Option<nat>
  {
    if unit == "s" then Some(1)
    else if unit == "m" then Some(60)
    else if unit == "h" then Some(3600)
    else if unit == "d" then Some(86400)
    else None
  }

  /** `parse_duration`. */
  function ParseDuration(text: string): Option<nat>
  {
    var t := Trim(text);
    var n := DigitPrefix(t);
    var unit := UnitSeconds(if n == |t| then "s" else t[n..]);
    match ParseUnsigned(t[..n], 10, U64)
    case None => None
    case Some(v) => if unit.Some? && v * unit.value < U64 then Some(v * unit.value) else None
  }

  predicate TtlOk(ttl: Option<string>)
  {
    ttl.None? || (ParseDuration(ttl.value).Some? && 6 * 3600 <= ParseDuration(ttl.value).value <= 12 * 3600)
  }

  predicate AliasChar(c: char)
  {
    'a' <= c <= 'z' || '0' <= c <= '9' || c == '-'
  }

  predicate AudienceOk(a: Audience)
  {
    && 0 < |a.alias| <= 63 && (forall i :: 0 <= i < |a.alias| ==> AliasChar(a.alias[i]))
    && a.audience != "" && ',' !in a.audience
  }

  predicate AudiencesOk(l: seq<Audience>)
  {
    && (forall i :: 0 <= i < |l| ==> AudienceOk(l[i]))
    && (forall i, j :: 0 <= i < j < |l| ==> l[i].alias != l[j].alias && l[i].audience != l[j].audience)
  }

  predicate EntryOk(id: Identity)
  {
    && (id.cluster == "*" || IsName(id.cluster)) && IsName(id.namespace) && IsName(id.serviceAccount)
    && TtlOk(id.ttl) && AudiencesOk(id.audiences)
  }

  predicate SameKey(a: Identity, b: Identity)
  {
    a.cluster == b.cluster && a.namespace == b.namespace && a.serviceAccount == b.serviceAccount
  }

  predicate EntriesOk(ids: seq<Identity>)
  {
    && (forall i :: 0 <= i < |ids| ==> EntryOk(ids[i]))
    && (forall i, j :: 0 <= i < j < |ids| ==> !SameKey(ids[i], ids[j]))
  }

  predicate HeaderOk(c: Catalog)
  {
    && c.schema == 1 && c.trustDomain != "" && '/' !in c.trustDomain
    && Contains(c.pathTemplate, "{cluster}") && Contains(c.pathTemplate, "{namespace}")
    && Contains(c.pathTemplate, "{service_account}") && "/" <= c.pathTemplate
    && forall i :: 0 <= i < |c.registries| ==> c.registries[i] != "" && c.registries[i][|c.registries[i]| - 1] == '/'
  }

  predicate Valid(c: Catalog)
  {
    HeaderOk(c) && EntriesOk(c.identities)
  }

  datatype Problem = Header | Entry(index: nat)

  /** The loop over one entry's audiences, with the aliases and audiences met so far. */
  method CheckAudiences(l: seq<Audience>) returns (ok: bool)
    ensures ok == AudiencesOk(l)
  {
    var aliases, audiences := {}, {};
    for k := 0 to |l|
      invariant AudiencesOk(l[..k])
      invariant forall x :: x in aliases <==> exists i :: 0 <= i < k && l[i].alias == x
      invariant forall x :: x in audiences <==> exists i :: 0 <= i < k && l[i].audience == x
    {
      if !AudienceOk(l[k]) || l[k].alias in aliases || l[k].audience in audiences {
        return false;
      }
      aliases, audiences := aliases + {l[k].alias}, audiences + {l[k].audience};
    }
    assert l[..|l|] == l;
    ok := true;
  }

  /** `validate`: the first problem found, if any. */
  method Validate(c: Catalog) returns (r: Option<Problem>)
    ensures r.None? <==> Valid(c)
    ensures r == Some(Header) <==> !HeaderOk(c)
    ensures r.Some? && r.value.Entry? ==>
              var i := r.value.index;
              i < |c.identities| && EntriesOk(c.identities[..i]) && !EntriesOk(c.identities[..i + 1])
  {
    if !HeaderOk(c) {
      return Some(Header);
    }
    var ids := c.identities;
    var seen: set<(string, string, string)> := {};
    for k := 0 to |ids|
      invariant EntriesOk(ids[..k])
      invariant forall x :: x in seen <==> exists i :: 0 <= i < k && Key(ids[i]) == x
    {
      var audiences := CheckAudiences(ids[k].audiences);
      if Key(ids[k]) in seen {
        var i :| 0 <= i < k && Key(ids[i]) == Key(ids[k]);
        Twice(ids, i, k);
        return Some(Entry(k));
      }
      if !(ids[k].cluster == "*" || IsName(ids[k].cluster)) || !IsName(ids[k].namespace)
         || !IsName(ids[k].serviceAccount) || !TtlOk(ids[k].ttl) || !audiences {
        BadEntry(ids, k);
        return Some(Entry(k));
      }
      OneMore(ids, k);
      seen := seen + {Key(ids[k])};
    }
    assert ids[..|ids|] == ids;
    r := None;
  }

  function Key(id: Identity): (string, string, string)
  {
    (id.cluster, id.namespace, id.serviceAccount)
  }

  lemma Twice(ids: seq<Identity>, i: nat, k: nat)
    requires i < k < |ids| && Key(ids[i]) == Key(ids[k])
    ensures !EntriesOk(ids[..k + 1]) && !EntriesOk(ids)
  {
  }

  lemma BadEntry(ids: seq<Identity>, k: nat)
    requires k < |ids| && !EntryOk(ids[k])
    ensures !EntriesOk(ids[..k + 1]) && !EntriesOk(ids)
  {
  }

  lemma OneMore(ids: seq<Identity>, k: nat)
    requires k < |ids| && EntriesOk(ids[..k]) && EntryOk(ids[k])
    requires forall i :: 0 <= i < k ==> Key(ids[i]) != Key(ids[k])
    ensures EntriesOk(ids[..k + 1])
  {
  }

  // ---- Lookup ----

  predicate Matches(id: Identity, cluster: string, namespace: string, serviceAccount: string)
  {
    id.cluster == cluster && id.namespace == namespace && id.serviceAccount == serviceAccount
  }

  /** The position of the first entry for this very cluster, or of none. */
  function FirstMatch(ids: seq<Identity>, cluster: string, namespace: string, serviceAccount: string): (r: Option<nat>)
    ensures r.Some? ==>
              && r.value < |ids| && Matches(ids[r.value], cluster, namespace, serviceAccount)
              && forall i :: 0 <= i < r.value ==> !Matches(ids[i], cluster, namespace, serviceAccount)
    ensures r.None? ==> forall i :: 0 <= i < |ids| ==> !Matches(ids[i], cluster, namespace, serviceAccount)
  {
    if ids == [] then None
    else if Matches(ids[0], cluster, namespace, serviceAccount) then Some(0)
    else match FirstMatch(ids[1..], cluster, namespace, serviceAccount)
      case None => None
      case Some(i) => Some(i + 1)
  }

  /** `lookup`, as a position. */
  function LookupIndex(ids: seq<Identity>, cluster: string, namespace: string, serviceAccount: string): (r: Option<nat>)
    ensures r.Some? ==> r.value < |ids|
  {
    var exact := FirstMatch(ids, cluster, namespace, serviceAccount);
    if exact.Some? then exact else FirstMatch(ids, "*", namespace, serviceAccount)
  }

  function Lookup(ids: seq<Identity>, cluster: string, namespace: string, serviceAccount: string): Option<Identity>
  {
    match LookupIndex(ids, cluster, namespace, serviceAccount)
    case None => None
    case Some(i) => Some(ids[i])
  }

  /** In a valid catalog the lookup does not depend on the order of the entries: it is the entry for
      the cluster if there is one, else the one for every cluster, else nothing. */
  lemma LookupIsExact(ids: seq<Identity>, cluster: string, namespace: string, serviceAccount: string, id: Identity)
    requires EntriesOk(ids)
    ensures Lookup(ids, cluster, namespace, serviceAccount) == Some(id) <==>
              id in ids && (|| Matches(id, cluster, namespace, serviceAccount)
                            || (&& Matches(id, "*", namespace, serviceAccount)
                                && forall x :: x in ids ==> !Matches(x, cluster, namespace, serviceAccount)))
  {
  }

  /** The audiences an entry approves. */
  predicate Approves(id: Identity, audience: string)
  {
    exists i :: 0 <= i < |id.audiences| && id.audiences[i].audience == audience
  }

  predicate Approved(ids: seq<Identity>, cluster: string, namespace: string, serviceAccount: string, audience: string)
  {
    var found := Lookup(ids, cluster, namespace, serviceAccount);
    found.Some? && Approves(found.value, audience)
  }

  // ---- Role names ----

  function RoleName(cluster: string, namespace: string, serviceAccount: string): string
  {
    cluster + "__" + namespace + "__" + serviceAccount
  }

  /** Text before and after the one double underscore. */
  lemma SplitIsUnique(a: string, b: string, a': string, b': string)
    requires a + "__" + b == a' + "__" + b' && '_' !in a' && '_' !in b'
    ensures a == a' && b == b'
  {
    var x := a + "__" + b;
    var n, n' := |a|, |a'|;
    assert x[n] == '_' && x[n + 1] == '_';
    assert x == a' + ("__" + b') && x[n'] == '_' && x[n' + 1] == '_';
    assert forall i :: 0 <= i < n' ==> x[i] == a'[i];
    assert forall i :: n' + 2 <= i < |x| ==> x[i] == b'[i - n' - 2];
    assert a == x[..n] && a' == x[..n'] && b == x[n + 2..] && b' == x[n' + 2..];
  }

  /** In one cluster, no other namespace and service account has the role of a catalogued one. */
  lemma SameRole(cluster: string, namespace: string, account: string, namespace': string, account': string)
    requires '_' !in namespace' && '_' !in account'
    requires RoleName(cluster, namespace, account) == RoleName(cluster, namespace', account')
    ensures namespace == namespace' && account == account'
  {
    var role := RoleName(cluster, namespace, account);
    assert role[|cluster| + 2..] == namespace + "__" + account;
    assert role[|cluster| + 2..] == namespace' + "__" + account';
    SplitIsUnique(namespace, account, namespace', account');
  }

  // ---- The entries in force in a cluster ----

  predicate StringLeq(a: string, b: string)
  {
    a == "" || (b != "" && (a[0] < b[0] || (a[0] == b[0] && StringLeq(a[1..], b[1..]))))
  }

  lemma {:induction false} StringOrder(a: string, b: string, c: string)
    ensures StringLeq(a, b) || StringLeq(b, a)
    ensures StringLeq(a, b) && StringLeq(b, a) ==> a == b
    ensures StringLeq(a, b) && StringLeq(b, c) ==> StringLeq(a, c)
    ensures StringLeq(a, a)
    decreases |a|
  {
    if a != "" {
      StringOrder(a[1..], if b == "" then b else b[1..], if c == "" then c else c[1..]);
      if b != "" && a[0] == b[0] && a[1..] == b[1..] {
        assert a == [a[0]] + a[1..] && b == [b[0]] + b[1..];
      }
    }
  }

  predicate Leq(a: Identity, b: Identity)
  {
    if a.namespace == b.namespace then StringLeq(a.serviceAccount, b.serviceAccount)
    else StringLeq(a.namespace, b.namespace)
  }

  predicate Less(a: Identity, b: Identity)
  {
    Leq(a, b) && !(a.namespace == b.namespace && a.serviceAccount == b.serviceAccount)
  }

  lemma LeqTransitive(a: Identity, b: Identity, c: Identity)
    requires Leq(a, b) && Leq(b, c)
    ensures Leq(a, c)
  {
    hide StringLeq;
    StringOrder(a.namespace, b.namespace, c.namespace);
    StringOrder(b.namespace, a.namespace, c.namespace);
    StringOrder(c.namespace, b.namespace, a.namespace);
    StringOrder(a.serviceAccount, b.serviceAccount, c.serviceAccount);
  }

  lemma LeqTotal(a: Identity, b: Identity)
    ensures Leq(a, b) || Leq(b, a)
  {
    hide StringLeq;
    StringOrder(a.namespace, b.namespace, b.namespace);
    StringOrder(a.serviceAccount, b.serviceAccount, b.serviceAccount);
  }

  predicate SameAccount(a: Identity, b: Identity)
  {
    a.namespace == b.namespace && a.serviceAccount == b.serviceAccount
  }

  /** In order of namespace and service account, none twice. */
  predicate StrictlySorted(l: seq<Identity>)
  {
    forall i, j :: 0 <= i < j < |l| ==> Less(l[i], l[j])
  }

  function Insert(l: seq<Identity>, x: Identity): seq<Identity>
  {
    if l == [] then [x]
    else if Leq(l[|l| - 1], x) then l + [x]
    else Insert(l[..|l| - 1], x) + [l[|l| - 1]]
  }

  /** The library's stable sort by namespace and service account. */
  function Sort(l: seq<Identity>): seq<Identity>
  {
    if l == [] then [] else Insert(Sort(l[..|l| - 1]), l[|l| - 1])
  }

  lemma {:induction false} InsertMembers(l: seq<Identity>, x: Identity, y: Identity)
    ensures y in Insert(l, x) <==> y in l || y == x
    decreases |l|
  {
    if l != [] && !Leq(l[|l| - 1], x) {
      assert l == l[..|l| - 1] + [l[|l| - 1]];
      InsertMembers(l[..|l| - 1], x, y);
    }
  }

  lemma {:induction false} InsertSorts(l: seq<Identity>, x: Identity)
    requires StrictlySorted(l) && forall y :: y in l ==> !SameAccount(x, y)
    ensures StrictlySorted(Insert(l, x))
    decreases |l|
  {
    hide Leq;
    if l != [] {
      var init, last := l[..|l| - 1], l[|l| - 1];
      if Leq(last, x) {
        forall i | 0 <= i < |l| ensures Less(l[i], x) {
          assert l[i] in l;
          if i < |l| - 1 {
            LeqTransitive(l[i], last, x);
          }
        }
      } else {
        InsertSorts(init, x);
        LeqTotal(last, x);
        forall y | y in Insert(init, x) ensures Less(y, last) {
          InsertMembers(init, x, y);
          assert last in l && (y in init ==> exists i :: 0 <= i < |init| && l[i] == y);
        }
      }
    }
  }

  lemma {:induction false} SortSorts(l: seq<Identity>)
    requires forall i, j :: 0 <= i < j < |l| ==> !SameAccount(l[i], l[j])
    ensures StrictlySorted(Sort(l)) && forall y :: y in Sort(l) <==> y in l
    decreases |l|
  {
    hide StrictlySorted;
    if l != [] {
      var init, last := l[..|l| - 1], l[|l| - 1];
      SortSorts(init);
      InsertSorts(Sort(init), last);
      forall y ensures y in Sort(l) <==> y in l {
        InsertMembers(Sort(init), last, y);
        assert l == init + [last];
      }
    } else {
      assert StrictlySorted([]) by { NoneSorted(); }
    }
  }

  lemma NoneSorted()
    ensures StrictlySorted([])
  {
  }

  /** `for_cluster`: of the entries that name the cluster or every cluster, those the lookup itself
      finds, so that each identity appears once and an entry for the cluster hides one for all. */
  method ForCluster(ids: seq<Identity>, cluster: string) returns (out: seq<Identity>)
    ensures StrictlySorted(out)
    ensures forall id :: id in out <==> Lookup(ids, cluster, id.namespace, id.serviceAccount) == Some(id)
  {
    hide StrictlySorted, LookupIndex;
    var kept := [];
    for k := 0 to |ids|
      invariant forall i :: 0 <= i < |kept| ==> InForceBelow(ids, cluster, kept[i], k)
      invariant forall i, j :: 0 <= i < j < |kept| ==> !SameAccount(kept[i], kept[j])
      invariant forall i :: 0 <= i < k && InForceAt(ids, cluster, i) ==> ids[i] in kept
    {
      var id := ids[k];
      if id.cluster != cluster && id.cluster != "*" {
        NotInForce(ids, cluster, k);
        continue;
      }
      if LookupIndex(ids, cluster, id.namespace, id.serviceAccount) == Some(k) {
        kept := kept + [id];
      }
    }
    out := Sort(kept);
    SortSorts(kept);
    forall id ensures id in out <==> Lookup(ids, cluster, id.namespace, id.serviceAccount) == Some(id) {
      var at := LookupIndex(ids, cluster, id.namespace, id.serviceAccount);
      if at.Some? {
        FoundMatches(ids, cluster, id.namespace, id.serviceAccount);
        assert InForceAt(ids, cluster, at.value);
      }
    }
  }

  predicate InForceAt(ids: seq<Identity>, cluster: string, i: nat)
    requires i < |ids|
  {
    LookupIndex(ids, cluster, ids[i].namespace, ids[i].serviceAccount) == Some(i)
  }

  predicate InForceBelow(ids: seq<Identity>, cluster: string, id: Identity, k: nat)
  {
    var at := LookupIndex(ids, cluster, id.namespace, id.serviceAccount);
    at.Some? && at.value < k && ids[at.value] == id
  }

  lemma FoundMatches(ids: seq<Identity>, cluster: string, namespace: string, serviceAccount: string)
    requires LookupIndex(ids, cluster, namespace, serviceAccount).Some?
    ensures var found := ids[LookupIndex(ids, cluster, namespace, serviceAccount).value];
            && found.namespace == namespace && found.serviceAccount == serviceAccount
            && (found.cluster == cluster || found.cluster == "*")
  {
  }

  lemma NotInForce(ids: seq<Identity>, cluster: string, k: nat)
    requires k < |ids| && ids[k].cluster != cluster && ids[k].cluster != "*"
    ensures !InForceAt(ids, cluster, k)
  {
  }

  // ---- The rendered policy ----

  /** One `mintjwt` stanza: a role and the audiences it may be asked for. */
  datatype Stanza = Stanza(role: string, audiences: seq<string>)

  predicate Grants(policy: seq<Stanza>, role: string, audience: string)
  {
    exists i :: 0 <= i < |policy| && policy[i].role == role && audience in policy[i].audiences
  }

  function Names(audiences: seq<Audience>): (names: seq<string>)
    ensures |names| == |audiences| && forall i :: 0 <= i < |names| ==> names[i] == audiences[i].audience
  {
    seq(|audiences|, i requires 0 <= i < |audiences| => audiences[i].audience)
  }

  lemma NamesAreApproved(id: Identity, audience: string)
    ensures audience in Names(id.audiences) <==> Approves(id, audience)
  {
  }

  /** The stanzas of these entries, which are sorted and are exactly the entries in force that approve
      anything. */
  ghost predicate IsPolicy(ids: seq<Identity>, cluster: string, policy: seq<Stanza>, entries: seq<Identity>)
  {
    && |policy| == |entries| && StrictlySorted(entries)
    && (forall i :: 0 <= i < |policy| ==> policy[i] == StanzaOf(cluster, entries[i]))
    && (forall id :: id in entries <==>
          Lookup(ids, cluster, id.namespace, id.serviceAccount) == Some(id) && id.audiences != [])
  }

  ghost predicate PolicyFor(ids: seq<Identity>, cluster: string, policy: seq<Stanza>)
  {
    exists entries :: IsPolicy(ids, cluster, policy, entries)
  }

  function StanzaOf(cluster: string, id: Identity): Stanza
  {
    Stanza(RoleName(cluster, id.namespace, id.serviceAccount), Names(id.audiences))
  }

  function Approving(l: seq<Identity>): seq<Identity>
  {
    if l == [] then []
    else Approving(l[..|l| - 1]) + (if l[|l| - 1].audiences == [] then [] else [l[|l| - 1]])
  }

  lemma {:induction false} ApprovingMembers(l: seq<Identity>, id: Identity)
    ensures id in Approving(l) <==> id in l && id.audiences != []
    decreases |l|
  {
    if l != [] {
      assert l == l[..|l| - 1] + [l[|l| - 1]];
      ApprovingMembers(l[..|l| - 1], id);
    }
  }

  lemma {:induction false} ApprovingIsSorted(l: seq<Identity>)
    requires StrictlySorted(l)
    ensures StrictlySorted(Approving(l))
    decreases |l|
  {
    hide Less;
    if l != [] {
      var init, last := l[..|l| - 1], l[|l| - 1];
      ApprovingIsSorted(init);
      forall y | y in Approving(init) ensures Less(y, last) {
        ApprovingMembers(init, y);
        var i :| 0 <= i < |init| && init[i] == y;
        assert Less(l[i], l[|l| - 1]);
      }
    }
  }

  /** `render_policy`: the stanzas, one for each entry in force that approves anything. */
  method RenderPolicy(ids: seq<Identity>, cluster: string) returns (policy: seq<Stanza>)
    ensures PolicyFor(ids, cluster, policy)
  {
    hide Lookup, StanzaOf, StrictlySorted;
    var inForce := ForCluster(ids, cluster);
    policy := [];
    ghost var entries := [];
    for k := 0 to |inForce|
      invariant |policy| == |entries| && entries == Approving(inForce[..k])
      invariant forall i :: 0 <= i < |policy| ==> policy[i] == StanzaOf(cluster, entries[i])
    {
      assert inForce[..k + 1][..k] == inForce[..k];
      if inForce[k].audiences == [] {
        continue;
      }
      policy := policy + [StanzaOf(cluster, inForce[k])];
      entries := entries + [inForce[k]];
    }
    assert inForce[..|inForce|] == inForce;
    ApprovingIsSorted(inForce);
    forall id ensures id in entries <==> id in inForce && id.audiences != [] {
      ApprovingMembers(inForce, id);
    }
    assert IsPolicy(ids, cluster, policy, entries);
  }

  lemma InForceIsNamed(ids: seq<Identity>, cluster: string, id: Identity)
    requires EntriesOk(ids) && Lookup(ids, cluster, id.namespace, id.serviceAccount) == Some(id)
    ensures '_' !in id.namespace && '_' !in id.serviceAccount
  {
  }

  /** The rendered policy grants a role and an audience if and only if the broker's own lookup approves
      that audience for that identity, whatever strings are asked about. */
  lemma PolicyGrantsExactly(ids: seq<Identity>, cluster: string, policy: seq<Stanza>, namespace: string,
                            account: string, audience: string)
    requires EntriesOk(ids) && PolicyFor(ids, cluster, policy)
    ensures Grants(policy, RoleName(cluster, namespace, account), audience)
       <==> Approved(ids, cluster, namespace, account, audience)
  {
    hide EntriesOk, LookupIndex, RoleName, StrictlySorted, Names;
    var entries :| IsPolicy(ids, cluster, policy, entries);
    var role := RoleName(cluster, namespace, account);
    if Grants(policy, role, audience) {
      var i :| 0 <= i < |policy| && policy[i].role == role && audience in policy[i].audiences;
      var id := entries[i];
      assert id in entries;
      InForceIsNamed(ids, cluster, id);
      SameRole(cluster, namespace, account, id.namespace, id.serviceAccount);
      NamesAreApproved(id, audience);
    }
    if Approved(ids, cluster, namespace, account, audience) {
      var id := Lookup(ids, cluster, namespace, account).value;
      FoundMatches(ids, cluster, namespace, account);
      NamesAreApproved(id, audience);
      assert id in entries;
      var i :| 0 <= i < |entries| && entries[i] == id;
      assert policy[i] == StanzaOf(cluster, id);
    }
  }

  /** Each identity appears once: no two stanzas have the same role. */
  lemma RolesAreDistinct(ids: seq<Identity>, cluster: string, policy: seq<Stanza>, i: nat, j: nat)
    requires EntriesOk(ids) && PolicyFor(ids, cluster, policy) && i < j < |policy|
    ensures policy[i].role != policy[j].role
  {
    hide EntriesOk, LookupIndex, RoleName, Names, Leq;
    var entries :| IsPolicy(ids, cluster, policy, entries);
    var a, b := entries[i], entries[j];
    assert a in entries && b in entries && Less(a, b);
    InForceIsNamed(ids, cluster, b);
    if policy[i].role == policy[j].role {
      SameRole(cluster, a.namespace, a.serviceAccount, b.namespace, b.serviceAccount);
    }
  }
}
