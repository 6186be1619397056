/** The node-local bundle cache as effects on disk. A poll is a sequence of effects; a stop leaves
    the disk as some prefix of them left it. */
module BundleStore {
  import opened Text
  import opened Tar

  type Files = map<string, Bytes>

  /** The persisted state, without the fields that only report. */
  datatype State = State(ring: string, digest: string, etag: string, lastSequence: nat)

  const BLANK := State("", "", "", 0)

  /** Unpacked versions and staging directories by digest, the `current` link, and the state file. */
  datatype Disk = Disk(versions: map<string, Files>, staging: map<string, Files>, current: Option<string>, saved: State)

  const EMPTY := Disk(map[], map[], None, BLANK)

  predicate Has(disk: Disk, digest: string)
  {
    digest in disk.versions
  }

  /** A directory `prune` finds under `versions`. */
  datatype Listed = Version(digest: string) | Staging(digest: string)

  /** How removing a directory goes: the files deleted first, and whether it fails there. The source
      ignores such a failure. */
  datatype Removal = Removal(gone: set<string>, fails: bool)

  datatype Effect =
    | Save(state: State)
    | TearStaging(digest: string, gone: set<string>)
    | ClearStaging(digest: string)
    | MakeStaging(digest: string)
    | WriteStaged(digest: string, path: string, content: Bytes)
    | Promote(digest: string)
    | Link(digest: string)
    | Tear(digest: string, gone: set<string>)
    | RemoveVersion(digest: string)

  function Torn(dirs: map<string, Files>, d: string, gone: set<string>): map<string, Files>
  {
    if d in dirs then dirs[d := dirs[d] - gone] else dirs
  }

  function Apply(disk: Disk, e: Effect): Disk
  {
    match e
    case Save(state) => disk.(saved := state)
    case TearStaging(d, gone) => disk.(staging := Torn(disk.staging, d, gone))
    case ClearStaging(d) => disk.(staging := disk.staging - {d})
    case MakeStaging(d) => if d in disk.staging then disk else disk.(staging := disk.staging[d := map[]])
    case WriteStaged(d, path, content) =>
      if d in disk.staging then disk.(staging := disk.staging[d := disk.staging[d][path := content]]) else disk
    case Promote(d) =>
      if d in disk.staging
        then disk.(versions := disk.versions[d := disk.staging[d]], staging := disk.staging - {d})
        else disk
    case Link(d) => disk.(current := Some(d))
    case Tear(d, gone) => disk.(versions := Torn(disk.versions, d, gone))
    case RemoveVersion(d) => disk.(versions := disk.versions - {d})
  }

  function ApplyAll(disk: Disk, es: seq<Effect>): Disk
    decreases |es|
  {
    if es == [] then disk else ApplyAll(Apply(disk, es[0]), es[1..])
  }

  lemma {:induction false} ApplyConcat(disk: Disk, a: seq<Effect>, b: seq<Effect>)
    ensures ApplyAll(disk, a + b) == ApplyAll(ApplyAll(disk, a), b)
    decreases |a|
  {
    if a == [] {
      assert a + b == b;
    } else {
      assert (a + b)[1..] == a[1..] + b;
      ApplyConcat(Apply(disk, a[0]), a[1..], b);
    }
  }

  lemma ApplyOne(disk: Disk, e: Effect)
    ensures ApplyAll(disk, [e]) == Apply(disk, e)
  {
  }

  /** Versions depend only on versions and staging. */
  lemma {:induction false} ApplyVersions(a: Disk, b: Disk, es: seq<Effect>)
    requires a.versions == b.versions && a.staging == b.staging
    ensures ApplyAll(a, es).versions == ApplyAll(b, es).versions
    decreases |es|
  {
    if es != [] {
      ApplyVersions(Apply(a, es[0]), Apply(b, es[0]), es[1..]);
    }
  }

  // ---- Unpacking ----

  /** The files of a bundle: a later entry of the same path wins. */
  function Unpacked(entries: seq<Entry>): Files
  {
    if entries == [] then map[]
    else
      var init, last := entries[..|entries| - 1], entries[|entries| - 1];
      Unpacked(init)[last.path := last.content]
  }

  /** Writing `path` fails: one of its parents is a file, or it is itself a directory. */
  predicate Blocked(files: Files, path: string)
  {
    exists q :: q in files && (q + "/" <= path || path + "/" <= q)
  }

  /** No file lies below another file. */
  predicate Treelike(files: Files)
  {
    forall p, q :: p in files && q in files ==> !(p + "/" <= q)
  }

  lemma TreeGrows(files: Files, path: string, content: Bytes)
    requires Treelike(files) && !Blocked(files, path)
    ensures Treelike(files[path := content])
  {
  }

  function Writes(digest: string, entries: seq<Entry>): seq<Effect>
  {
    if entries == [] then []
    else
      var init, last := entries[..|entries| - 1], entries[|entries| - 1];
      Writes(digest, init) + [WriteStaged(digest, last.path, last.content)]
  }

  function RemovalOf(removals: map<Listed, Removal>, x: Listed): Removal
  {
    if x in removals then removals[x] else Removal({}, false)
  }

  /** `remove_dir_all` on a staging directory, file by file and then the directory. */
  function Clearing(digest: string, r: Removal): seq<Effect>
  {
    [TearStaging(digest, r.gone)] + (if r.fails then [] else [ClearStaging(digest)])
  }

  /** What is left of an earlier staging directory that could not be cleared. */
  function Leftover(disk: Disk, digest: string, r: Removal): Files
  {
    if digest in disk.staging && r.fails then disk.staging[digest] - r.gone else map[]
  }

  /** The calls of `write_version` after the clearing, when each succeeds. */
  function Building(digest: string, entries: seq<Entry>): seq<Effect>
  {
    [MakeStaging(digest)] + Writes(digest, entries) + [Promote(digest)]
  }

  lemma ClearingLeaves(disk: Disk, digest: string, r: Removal)
    ensures var after := ApplyAll(disk, Clearing(digest, r) + [MakeStaging(digest)]);
            && after.staging == disk.staging[digest := Leftover(disk, digest, r)]
            && after == disk.(staging := after.staging)
  {
    var tear := TearStaging(digest, r.gone);
    var torn := Apply(disk, tear);
    if r.fails {
      assert Clearing(digest, r) + [MakeStaging(digest)] == [tear] + [MakeStaging(digest)];
      ApplyConcat(disk, [tear], [MakeStaging(digest)]);
      ApplyOne(disk, tear);
      ApplyOne(torn, MakeStaging(digest));
    } else {
      assert Clearing(digest, r) + [MakeStaging(digest)] == [tear] + ([ClearStaging(digest)] + [MakeStaging(digest)]);
      ApplyConcat(disk, [tear], [ClearStaging(digest)] + [MakeStaging(digest)]);
      ApplyConcat(torn, [ClearStaging(digest)], [MakeStaging(digest)]);
      ApplyOne(disk, tear);
      ApplyOne(torn, ClearStaging(digest));
      ApplyOne(Apply(torn, ClearStaging(digest)), MakeStaging(digest));
    }
  }

  lemma {:induction false} WritesBuild(disk: Disk, digest: string, entries: seq<Entry>)
    requires digest in disk.staging
    ensures ApplyAll(disk, Writes(digest, entries))
         == disk.(staging := disk.staging[digest := disk.staging[digest] + Unpacked(entries)])
    decreases |entries|
  {
    var base := disk.staging[digest];
    if entries == [] {
      assert base + map[] == base && disk.staging[digest := base] == disk.staging;
    } else {
      var init, last := entries[..|entries| - 1], entries[|entries| - 1];
      var write := WriteStaged(digest, last.path, last.content);
      hide Apply, ApplyAll;
      WritesBuild(disk, digest, init);
      ApplyConcat(disk, Writes(digest, init), [write]);
      WriteOne(disk, digest, base + Unpacked(init), last);
      PutLast(base, Unpacked(init), last.path, last.content);
    }
  }

  lemma WriteOne(disk: Disk, digest: string, files: Files, e: Entry)
    ensures ApplyAll(disk.(staging := disk.staging[digest := files]), [WriteStaged(digest, e.path, e.content)])
         == disk.(staging := disk.staging[digest := files[e.path := e.content]])
  {
    ApplyOne(disk.(staging := disk.staging[digest := files]), WriteStaged(digest, e.path, e.content));
    var more := files[e.path := e.content];
    assert disk.staging[digest := files][digest := more] == disk.staging[digest := more];
  }

  lemma PutLast(base: Files, files: Files, path: string, content: Bytes)
    ensures (base + files)[path := content] == base + files[path := content]
  {
  }

  /** Unpacking to the end adds the extracted files, on top of what could not be cleared, and nothing
      else changes but staging. */
  lemma UnpackingAdds(disk: Disk, digest: string, entries: seq<Entry>, r: Removal)
    ensures var after := ApplyAll(disk, Clearing(digest, r) + Building(digest, entries));
            && after.versions == disk.versions[digest := Leftover(disk, digest, r) + Unpacked(entries)]
            && after.current == disk.current && after.saved == disk.saved
            && after.staging == disk.staging - {digest}
  {
    hide Clearing, Leftover;
    var start := Clearing(digest, r) + [MakeStaging(digest)];
    var rest := Writes(digest, entries) + [Promote(digest)];
    assert Clearing(digest, r) + Building(digest, entries) == start + rest;
    ApplyConcat(disk, start, rest);
    ClearingLeaves(disk, digest, r);
    var ready := ApplyAll(disk, start);
    ApplyConcat(ready, Writes(digest, entries), [Promote(digest)]);
    WritesBuild(ready, digest, entries);
    ApplyOne(ApplyAll(ready, Writes(digest, entries)), Promote(digest));
  }

  /** Effects that touch only staging. */
  predicate StagingOnly(e: Effect)
  {
    e.TearStaging? || e.ClearStaging? || e.MakeStaging? || e.WriteStaged?
  }

  lemma {:induction false} StagingLeavesRest(disk: Disk, es: seq<Effect>)
    requires forall i :: 0 <= i < |es| ==> StagingOnly(es[i])
    ensures var after := ApplyAll(disk, es);
            after.versions == disk.versions && after.current == disk.current && after.saved == disk.saved
    decreases |es|
  {
    if es != [] {
      StagingLeavesRest(Apply(disk, es[0]), es[1..]);
    }
  }

  lemma {:induction false} WritesAreStaging(digest: string, entries: seq<Entry>)
    ensures |Writes(digest, entries)| == |entries|
    ensures forall i :: 0 <= i < |entries| ==>
              Writes(digest, entries)[i] == WriteStaged(digest, entries[i].path, entries[i].content)
    decreases |entries|
  {
    if entries != [] {
      WritesAreStaging(digest, entries[..|entries| - 1]);
    }
  }

  lemma BuildingShape(digest: string, entries: seq<Entry>)
    ensures var es := Building(digest, entries);
            && |es| == |entries| + 2 && es[0] == MakeStaging(digest) && es[|es| - 1] == Promote(digest)
            && (forall i :: 0 <= i < |entries| ==>
                  es[1 + i] == WriteStaged(digest, entries[i].path, entries[i].content))
            && forall i :: 0 <= i < |es| - 1 ==> StagingOnly(es[i])
  {
    hide Writes;
    WritesAreStaging(digest, entries);
    Around(MakeStaging(digest), Writes(digest, entries), Promote(digest));
    forall i | 0 <= i < |entries| + 1 ensures StagingOnly(Building(digest, entries)[i]) {
      if i > 0 {
        assert Building(digest, entries)[1 + (i - 1)].WriteStaged?;
      }
    }
  }

  lemma Around(first: Effect, es: seq<Effect>, last: Effect)
    ensures var all := [first] + es + [last];
            && |all| == |es| + 2 && all[0] == first && all[|es| + 1] == last
            && forall i :: 0 <= i < |es| ==> all[1 + i] == es[i]
  {
  }

  // ---- Pruning ----

  /** What `prune` does about one directory it finds. */
  function PruningOf(x: Listed, keep: set<string>, r: Removal): seq<Effect>
  {
    match x
    case Staging(d) => Clearing(d, r)
    case Version(d) => if d in keep then [] else [Tear(d, r.gone)] + (if r.fails then [] else [RemoveVersion(d)])
  }

  /** `prune` over a listing of the versions directory: every staging directory and every version that
      is not kept is removed, as far as that goes. */
  function Pruning(listing: seq<Listed>, keep: set<string>, removals: map<Listed, Removal>): seq<Effect>
  {
    if listing == [] then []
    else PruningOf(listing[0], keep, RemovalOf(removals, listing[0])) + Pruning(listing[1..], keep, removals)
  }

  // ---- What effects do to one version ----

  /** Some removal among the effects has deleted files of this version. */
  predicate Damaged(files: Files, d: string, es: seq<Effect>)
  {
    exists i :: 0 <= i < |es| && es[i].Tear? && es[i].digest == d && es[i].gone * files.Keys != {}
  }

  lemma DamagedFirst(files: Files, d: string, es: seq<Effect>)
    requires es != []
    ensures Damaged(files, d, es)
       <==> (es[0].Tear? && es[0].digest == d && es[0].gone * files.Keys != {}) || Damaged(files, d, es[1..])
  {
    if Damaged(files, d, es) {
      var i :| 0 <= i < |es| && es[i].Tear? && es[i].digest == d && es[i].gone * files.Keys != {};
      assert i > 0 ==> es[1..][i - 1] == es[i];
    }
    if Damaged(files, d, es[1..]) {
      var i :| 0 <= i < |es[1..]| && es[1..][i].Tear? && es[1..][i].digest == d && es[1..][i].gone * files.Keys != {};
      assert es[i + 1] == es[1..][i];
    }
  }

  lemma Untouched(files: Files, gone: set<string>)
    ensures files - gone == files <==> gone * files.Keys == {}
  {
    if gone * files.Keys == {} {
      assert forall p :: p in files && p in gone ==> p in gone * files.Keys;
      assert files - gone == files;
    } else {
      var p :| p in gone * files.Keys;
      assert p in files && p !in files - gone;
    }
  }

  lemma UndamagedTail(files: Files, gone: set<string>, d: string, es: seq<Effect>)
    requires gone * files.Keys == {}
    ensures Damaged(files - gone, d, es) == Damaged(files, d, es)
  {
    Untouched(files, gone);
  }

  /** Without a promotion of it, a version stays unless its directory is taken away, keeps or loses
      files, and keeps them all if and only if no removal deleted any. */
  lemma {:induction false} OneVersion(disk: Disk, es: seq<Effect>, d: string)
    requires d in disk.versions && Promote(d) !in es
    ensures var after := ApplyAll(disk, es).versions;
            && (d in after <==> RemoveVersion(d) !in es)
            && (d in after ==> after[d].Keys <= disk.versions[d].Keys)
            && (d in after ==> (after[d] == disk.versions[d] <==> !Damaged(disk.versions[d], d, es)))
    decreases |es|
  {
    if es != [] {
      var e, rest, files := es[0], es[1..], disk.versions[d];
      var next := Apply(disk, e);
      assert es == [e] + rest;
      DamagedFirst(files, d, es);
      if e == RemoveVersion(d) {
        StaysGone(next, rest, d);
      } else {
        OneVersion(next, rest, d);
        if e.Tear? && e.digest == d {
          Untouched(files, e.gone);
          if e.gone * files.Keys == {} {
            UndamagedTail(files, e.gone, d, rest);
          }
        }
      }
    }
  }

  lemma {:induction false} StaysGone(disk: Disk, es: seq<Effect>, d: string)
    requires d !in disk.versions && Promote(d) !in es
    ensures d !in ApplyAll(disk, es).versions
    decreases |es|
  {
    if es != [] {
      assert es == [es[0]] + es[1..];
      StaysGone(Apply(disk, es[0]), es[1..], d);
    }
  }

  lemma {:induction false} PruningMembers(listing: seq<Listed>, keep: set<string>, removals: map<Listed, Removal>,
                                          d: string)
    ensures var es := Pruning(listing, keep, removals);
            && (RemoveVersion(d) in es <==>
                  Version(d) in listing && d !in keep && !RemovalOf(removals, Version(d)).fails)
            && (forall e :: e in es && e.Tear? && e.digest == d ==>
                  Version(d) in listing && d !in keep && e.gone == RemovalOf(removals, Version(d)).gone)
            && (Version(d) in listing && d !in keep ==> Tear(d, RemovalOf(removals, Version(d)).gone) in es)
            && forall e :: e in es ==> StagingOnly(e) || e.Tear? || e.RemoveVersion?
    decreases |listing|
  {
    if listing != [] {
      hide RemovalOf;
      var first := PruningOf(listing[0], keep, RemovalOf(removals, listing[0]));
      var rest := Pruning(listing[1..], keep, removals);
      PruningMembers(listing[1..], keep, removals, d);
      assert forall e :: e in first + rest <==> e in first || e in rest;
      assert listing == [listing[0]] + listing[1..];
    }
  }

  /** What `prune` does to a version: kept and unlisted ones stay as they were; the others are taken
      away, or, where that fails, lose the files deleted before it failed. */
  lemma PruningKeeps(disk: Disk, listing: seq<Listed>, keep: set<string>, removals: map<Listed, Removal>, d: string)
    requires d in disk.versions
    ensures var after := ApplyAll(disk, Pruning(listing, keep, removals)).versions;
            var r := RemovalOf(removals, Version(d));
            && (d in after <==> d in keep || Version(d) !in listing || r.fails)
            && (d in after ==> (after[d] == disk.versions[d] <==>
                                  d in keep || Version(d) !in listing || r.gone * disk.versions[d].Keys == {}))
  {
    hide Pruning, RemovalOf, ApplyAll, Damaged;
    PruningMembers(listing, keep, removals, d);
    OneVersion(disk, Pruning(listing, keep, removals), d);
    PruningDamages(disk.versions[d], listing, keep, removals, d);
  }

  lemma PruningDamages(files: Files, listing: seq<Listed>, keep: set<string>, removals: map<Listed, Removal>, d: string)
    ensures Damaged(files, d, Pruning(listing, keep, removals))
       <==> Version(d) in listing && d !in keep && RemovalOf(removals, Version(d)).gone * files.Keys != {}
    ensures Promote(d) !in Pruning(listing, keep, removals)
  {
    hide Pruning, RemovalOf;
    var es, gone := Pruning(listing, keep, removals), RemovalOf(removals, Version(d)).gone;
    PruningMembers(listing, keep, removals, d);
    if Damaged(files, d, es) {
      var i :| 0 <= i < |es| && es[i].Tear? && es[i].digest == d && es[i].gone * files.Keys != {};
      assert es[i] in es;
    }
    if Version(d) in listing && d !in keep && gone * files.Keys != {} {
      var i :| 0 <= i < |es| && es[i] == Tear(d, gone);
    }
  }
}
