/** The names a volume directory holds, and how the writers read version numbers back out of them.

    Three chains share the directory. Each owns its version directories (`..svidlet.N`), the data
    link that selects one of them (`..data`), the temporary link the swap renames (`..data_tmp`),
    and the names an application opens (`tls.key`). */
module VolumeNames {
  import opened Text

  datatype Chain = Identity | Policy | Tokens

  datatype Name =
    | Version(chain: Chain, n: nat)
    | Data(chain: Chain)
    | DataTmp(chain: Chain)
    | Visible(file: FileName)

  /** The names a generation holds at its top level. */
  datatype FileName = Key | Cert | Ca | PolicyDir | Revision | JwtDir

  function Prefix(c: Chain): string
  {
    match c
    case Identity => "..svidlet."
    case Policy => "..policy."
    case Tokens => "..jwt."
  }

  function LinkName(c: Chain): string
  {
    match c
    case Identity => "..data"
    case Policy => "..policy-data"
    case Tokens => "..jwt-data"
  }

  function FileText(f: FileName): string
  {
    match f
    case Key => "tls.key"
    case Cert => "tls.crt"
    case Ca => "ca.crt"
    case PolicyDir => "policy"
    case Revision => "policy.revision"
    case JwtDir => "jwt"
  }

  /** The names a chain shows, in the order its writer links them. */
  function VisibleFiles(c: Chain): seq<FileName>
  {
    match c
    case Identity => [Key, Cert, Ca]
    case Policy => [PolicyDir, Revision]
    case Tokens => [JwtDir]
  }

  /** Which chain's writer may touch a name. */
  function Owner(x: Name): Chain
  {
    match x
    case Version(c, _) => c
    case Data(c) => c
    case DataTmp(c) => c
    case Visible(f) => if f.Key? || f.Cert? || f.Ca? then Identity else if f.JwtDir? then Tokens else Policy
  }

  /** The directory entry a name stands for. */
  function Render(x: Name): string
  {
    match x
    case Version(c, n) => Prefix(c) + Numeral(n, 10)
    case Data(c) => LinkName(c)
    case DataTmp(c) => LinkName(c) + "_tmp"
    case Visible(f) => FileText(f)
  }

  /** `version_of`: strip the chain's prefix and parse the rest as a u64. */
  function VersionOf(name: string, prefix: string): Option<nat>
  {
    if prefix <= name then ParseUnsigned(name[|prefix|..], 10, U64) else None
  }

  /** A chain recognises exactly its own version directories: no other entry of the directory,
      whichever writer made it, is ever read as one of its versions. */
  lemma VersionOfIsExact(x: Name, c: Chain)
    requires x.Version? ==> x.n < U64
    ensures VersionOf(Render(x), Prefix(c)) == if x.Version? && x.chain == c then Some(x.n) else None
  {
    var s := Render(x);
    if x == Version(c, if x.Version? then x.n else 0) {
      ParseNumeral(x.n, 10, U64);
      assert s[|Prefix(c)|..] == Numeral(x.n, 10);
    } else {
      // A position at which the prefix and the entry disagree.
      var i := if x.Visible? then 0 else if x.Version? || x.chain != c || c == Identity then 2
               else if c == Policy then 8 else 5;
      assert i < |s| && i < |Prefix(c)| && s[i] != Prefix(c)[i];
    }
  }

  /** Different names are different directory entries, so the chains cannot meet in one. */
  lemma RenderIsInjective(x: Name, y: Name)
    requires x.Version? ==> x.n < U64
    requires y.Version? ==> y.n < U64
    requires Render(x) == Render(y)
    ensures x == y
  {
    if x.Version? {
      VersionOfIsExact(x, x.chain);
      VersionOfIsExact(y, x.chain);
    } else if y.Version? {
      VersionOfIsExact(x, y.chain);
      VersionOfIsExact(y, y.chain);
    } else {
      var s, t := Render(x), Render(y);
      assert x.Visible? ==> s[0] != '.';
      assert y.Visible? ==> t[0] != '.';
      assert !x.Visible? ==> s[..2] == ".." && s[2] == LinkName(x.chain)[2];
      assert !y.Visible? ==> t[..2] == ".." && t[2] == LinkName(y.chain)[2];
      if !x.Visible? && !y.Visible? {
        assert |s| == |LinkName(x.chain)| + if x.Data? then 0 else 4;
        assert |t| == |LinkName(y.chain)| + if y.Data? then 0 else 4;
      }
    }
  }

  /** Nothing in `names` is a version at or above `v`. */
  predicate AllBelow(names: seq<string>, prefix: string, v: nat)
  {
    forall i :: 0 <= i < |names| ==> VersionOf(names[i], prefix).Some? ==> VersionOf(names[i], prefix).value < v
  }

  /** `next_version`: one more than the highest version in the listing, or 1. */
  method NextVersion(names: seq<string>, prefix: string) returns (v: nat)
    ensures AllBelow(names, prefix, v)
    ensures v >= 1
    ensures v == 1 || exists i :: 0 <= i < |names| && VersionOf(names[i], prefix) == Some(v - 1)
  {
    var highest := 0;
    ghost var at := 0;
    for i := 0 to |names|
      invariant forall j :: 0 <= j < i ==>
                  VersionOf(names[j], prefix).Some? ==> VersionOf(names[j], prefix).value <= highest
      invariant highest == 0 || (at < i && VersionOf(names[at], prefix) == Some(highest))
    {
      var version := VersionOf(names[i], prefix);
      if version.Some? && version.value > highest {
        highest := version.value;
        at := i;
      }
    }
    v := highest + 1;
  }

  /** Whether a publication of version `keep` collects version `n`. */
  predicate Stale(n: nat, keep: nat)
  {
    n != keep && n + 1 != keep
  }

  /** `remove_stale_versions`: the entries removed, every version but `keep` and the one before it. */
  method RemoveStaleVersions(names: seq<string>, prefix: string, keep: nat) returns (removed: seq<string>)
    ensures forall x :: x in removed <==>
              && x in names && VersionOf(x, prefix).Some?
              && VersionOf(x, prefix).value != keep && VersionOf(x, prefix).value + 1 != keep
  {
    removed := [];
    for i := 0 to |names|
      invariant forall x :: x in removed <==>
                  x in names[..i] && VersionOf(x, prefix).Some? && Stale(VersionOf(x, prefix).value, keep)
    {
      var version := VersionOf(names[i], prefix);
      if version.Some? && Stale(version.value, keep) {
        removed := removed + [names[i]];
      }
      assert names[..i + 1] == names[..i] + [names[i]];
    }
    assert names[..|names|] == names;
  }
}
