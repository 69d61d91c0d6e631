/** The merge commit the server builds: one tree of merged manifests under their full paths. */
module MergeCommit {
  import opened Objects
  import opened Store
  import opened Paths
  import opened Trees
  import opened TreeBuilder
  import opened TreeWalker
  import opened Merge
  import opened FileMerge

  /** Sidecars by path: source first, target wins. */
  function Sidecars(objs: set<ObjId>, target: Commit, source: Commit): map<string, string> {
    SidecarsOf(Flatten(objs, source.tree, "")) + SidecarsOf(Flatten(objs, target.tree, ""))
  }

  function SidecarsOf(flat: map<string, Leaf>): map<string, string> {
    map p | p in flat && flat[p].sidecar.Some? :: flat[p].sidecar.value
  }

  function SidecarAt(sidecars: map<string, string>, p: string): Option<string> {
    if p in sidecars then Some(sidecars[p]) else None
  }

  function MergeEntry(files: Files, sidecars: map<string, string>, p: string): TreeEntry
    requires p in files
  {
    TreeEntry(p, ManifestTarget(files[p]), SidecarAt(sidecars, p))
  }

  /** One tree holding the merged manifests under their full paths. */
  ghost predicate IsMergeTree(t: Tree, files: Files, sidecars: map<string, string>) {
    && Ordered(t.entries)
    && forall e :: e in t.entries <==> e.name in files && e == MergeEntry(files, sidecars, e.name)
  }

  method CollectSidecars(flat: map<string, Leaf>, lookup0: map<string, string>) returns (lookup: map<string, string>)
    ensures lookup == lookup0 + SidecarsOf(flat)
  {
    lookup := lookup0;
    var todo := flat.Keys;
    while todo != {}
      invariant todo <= flat.Keys
      invariant lookup == lookup0 + map p | p in SidecarsOf(flat) && p !in todo :: SidecarsOf(flat)[p]
    {
      var p :| p in todo;
      todo := todo - {p};
      if flat[p].sidecar.Some? {
        lookup := lookup[p := flat[p].sidecar.value];
      }
    }
    assert SidecarsOf(flat) == map p | p in SidecarsOf(flat) && p !in todo :: SidecarsOf(flat)[p];
  }

  method MergeEntries(files: Files, sidecars: map<string, string>) returns (entries: seq<TreeEntry>)
    ensures Sortable(entries)
    ensures forall e :: e in entries <==> e.name in files && e == MergeEntry(files, sidecars, e.name)
  {
    entries := [];
    var todo := files.Keys;
    while todo != {}
      invariant todo <= files.Keys && Sortable(entries)
      invariant forall e :: e in entries <==>
        e.name in files && e.name !in todo && e == MergeEntry(files, sidecars, e.name)
    {
      var p :| p in todo;
      todo := todo - {p};
      assert forall e <- entries :: e.name != p;
      entries := entries + [MergeEntry(files, sidecars, p)];
    }
  }

  /** Write the tree, then the commit. */
  method CommitMerge(store: ObjectStore, now: int, files: Files, target: Commit, source: Commit, author: string,
      message: string)
    returns (c: Commit)
    modifies store
    ensures c.parents == [target, source] && c.author == author && c.message == message && c.timestamp == now
    ensures IsMergeTree(c.tree, files, Sidecars(old(store.Objs()), target, source))
    ensures store.Objs() == old(store.Objs()) + {TreeId(c.tree), CommitId(c)}
  {
    var objs := store.Objs();
    var targetFlat := FlattenTree(objs, target.tree, "");
    var sourceFlat := FlattenTree(objs, source.tree, "");
    var lookup := CollectSidecars(sourceFlat, map[]);
    assert lookup == SidecarsOf(sourceFlat);
    lookup := CollectSidecars(targetFlat, lookup);
    var entries := MergeEntries(files, lookup);
    SortOrdered(entries);
    var t := Tree(SortByName(entries));
    store.Write(TreeId(t), now);
    c := Commit(t, [target, source], author, message, now);
    store.Write(CommitId(c), now);
  }

  lemma SidecarsFrame(a: set<ObjId>, b: set<ObjId>, target: Commit, source: Commit)
    requires forall u: Tree :: TreeId(u) in a <==> TreeId(u) in b
    ensures Sidecars(a, target, source) == Sidecars(b, target, source)
  {
    FlattenFrame(a, b, target.tree, |target.tree.entries|, "");
    FlattenFrame(a, b, source.tree, |source.tree.entries|, "");
  }

  /** The manifests written by the row merges of two commits. */
  function MergeWrites(objs: set<ObjId>, base: Option<Commit>, target: Commit, source: Commit): set<ObjId> {
    var b, o, t := BaseFiles(objs, base), FilesAt(objs, target), FilesAt(objs, source);
    WrittenIds(b, o, t, b.Keys + o.Keys + t.Keys)
  }

  /** The automatic merge: conflicts, or a commit of the merged files; nothing when an object is missing. */
  method DoMerge(store: ObjectStore, now: int, base: Option<Commit>, target: Commit, source: Commit, author: string,
      message: string)
    returns (r: Option<MergeResult>, c: Option<Commit>)
    modifies store
    ensures Mergeable(old(store.Objs()), base, target, source) ==> r.Some?
    ensures c.Some? <==> r.Some? && r.value.conflicts == []
    ensures r.Some? ==>
      var objs := old(store.Objs());
      var b, o, t := BaseFiles(objs, base), FilesAt(objs, target), FilesAt(objs, source);
      && r.value.files == FilesSpec(b, o, t)
      && multiset(r.value.conflicts) == multiset(AllConflicts(b, o, t, b.Keys + o.Keys + t.Keys))
      && store.Objs() == objs + MergeWrites(objs, base, target, source) +
        if c.Some? then {TreeId(c.value.tree), CommitId(c.value)} else {}
    ensures c.Some? ==>
      && c.value == Commit(c.value.tree, [target, source], author, message, now)
      && IsMergeTree(c.value.tree, r.value.files, Sidecars(old(store.Objs()), target, source))
  {
    hide Sidecars, FilesSpec, AllConflicts, BaseFiles, FilesAt, IsMergeTree;
    r := ThreeWayMerge(store, now, base, target, source);
    if r.None? || r.value.conflicts != [] {
      return r, None;
    }
    WritesNoTree(old(store.Objs()), base, target, source);
    SidecarsFrame(old(store.Objs()), store.Objs(), target, source);
    var commit := CommitMerge(store, now, r.value.files, target, source, author, message);
    c := Some(commit);
  }

  lemma WritesNoTree(objs: set<ObjId>, base: Option<Commit>, target: Commit, source: Commit)
    ensures forall o <- MergeWrites(objs, base, target, source) :: o.ManifestId?
  {
  }

  /** The whole content of a merge commit: the merged manifests with the copied sidecars, and nothing else. */
  lemma MergeTreeReadBack(objs: set<ObjId>, t: Tree, files: Files, sidecars: map<string, string>)
    requires TreeId(t) in objs && IsMergeTree(t, files, sidecars)
    ensures Flatten(objs, t, "") == map p | p in files :: Leaf(ManifestTarget(files[p]), SidecarAt(sidecars, p))
  {
    FlatEntries(objs, t, files, sidecars, |t.entries|);
    var flat := Flatten(objs, t, "");
    forall p | p in files ensures p in flat {
      var e := MergeEntry(files, sidecars, p);
      assert e in t.entries;
      var i :| 0 <= i < |t.entries| && t.entries[i] == e;
    }
  }

  lemma {:induction false} FlatEntries(objs: set<ObjId>, t: Tree, files: Files, sidecars: map<string, string>, n: nat)
    requires IsMergeTree(t, files, sidecars) && n <= |t.entries|
    ensures var m := FlattenEntries(objs, t, n, "");
      && (forall i | 0 <= i < n :: t.entries[i].name in m)
      && (forall p <- m :: p in files && m[p] == Leaf(ManifestTarget(files[p]), SidecarAt(sidecars, p)))
    decreases n
  {
    if n > 0 {
      FlatEntries(objs, t, files, sidecars, n - 1);
      var e := t.entries[n - 1];
      assert e in t.entries && e == MergeEntry(files, sidecars, e.name);
    }
  }

  /**
   What a merge drops: every blob of either side, leaving nothing at its path unless the other side has
   a manifest there.  A manifest of either side stays exactly when the file merge chose it.
   */
  lemma MergeDrops(objs: set<ObjId>, merged: Tree, base: Option<Commit>, target: Commit, source: Commit, p: string)
    requires var b, o, t := BaseFiles(objs, base), FilesAt(objs, target), FilesAt(objs, source);
      TreeId(merged) in objs && IsMergeTree(merged, FilesSpec(b, o, t), Sidecars(objs, target, source))
    ensures var flat, o, t := Flatten(objs, merged, ""), Flatten(objs, target.tree, ""), Flatten(objs, source.tree, "");
      && (p in flat ==> flat[p].target.ManifestTarget?)
      && (p in o && o[p].target.ManifestTarget? ==>
            (p in flat && flat[p].target == o[p].target <==>
              At(FilesSpec(BaseFiles(objs, base), FilesAt(objs, target), FilesAt(objs, source)), p) ==
              Some(o[p].target.manifest)))
      && (p in t && t[p].target.ManifestTarget? ==>
            (p in flat && flat[p].target == t[p].target <==>
              At(FilesSpec(BaseFiles(objs, base), FilesAt(objs, target), FilesAt(objs, source)), p) ==
              Some(t[p].target.manifest)))
      && (p in o && o[p].target.BlobTarget? && p in t && t[p].target.BlobTarget? ==> p !in flat)
      && (p in o && o[p].target.BlobTarget? && p !in t ==> p !in flat)
      && (p !in o && p in t && t[p].target.BlobTarget? ==> p !in flat)
  {
    var b, o, t := BaseFiles(objs, base), FilesAt(objs, target), FilesAt(objs, source);
    MergeTreeReadBack(objs, merged, FilesSpec(b, o, t), Sidecars(objs, target, source));
    hide MergeSpec, IsMergeTree, Sidecars, Flatten, BaseFiles;
    if p in FilesSpec(b, o, t) {
      NeverNowhere(b, o, t, p);
    }
  }

  /** A file that neither side has is not in the merge. */
  lemma NeverNowhere(b: Files, o: Files, t: Files, p: string)
    requires p in FilesSpec(b, o, t)
    ensures p in o || p in t
  {
    hide MergeSpec;
  }

  /**
   The sidecar a merged file carries: the target's for that path if it has one, else the source's.  It
   belongs to another manifest exactly when the merged manifest is not the one of the side it came from.
   */
  lemma SidecarOrigin(objs: set<ObjId>, merged: Tree, files: Files, target: Commit, source: Commit, p: string)
    requires TreeId(merged) in objs && IsMergeTree(merged, files, Sidecars(objs, target, source)) && p in files
    ensures var flat, o, t := Flatten(objs, merged, ""), Flatten(objs, target.tree, ""), Flatten(objs, source.tree, "");
      var from := if p in o && o[p].sidecar.Some? then o else t;
      && p in flat
      && (flat[p].sidecar.Some? <==> p in from && from[p].sidecar.Some?)
      && (flat[p].sidecar.Some? ==> flat[p].sidecar == from[p].sidecar)
      && (flat[p].sidecar.Some? ==> (flat[p] != from[p] <==> from[p].target != ManifestTarget(files[p])))
  {
    MergeTreeReadBack(objs, merged, files, Sidecars(objs, target, source));
    hide Flatten, IsMergeTree;
  }

  /**
   When a merged file carries a sidecar that describes another version: the target's, when the file came
   from the source or its rows were merged into others, and likewise the source's.
   */
  lemma StaleSidecarIff(objs: set<ObjId>, merged: Tree, base: Option<Commit>, target: Commit, source: Commit, p: string)
    requires var b, o, t := BaseFiles(objs, base), FilesAt(objs, target), FilesAt(objs, source);
      && TreeId(merged) in objs && IsMergeTree(merged, FilesSpec(b, o, t), Sidecars(objs, target, source))
      && p in FilesSpec(b, o, t)
    ensures var flat, oursFlat, theirsFlat :=
        Flatten(objs, merged, ""), Flatten(objs, target.tree, ""), Flatten(objs, source.tree, "");
      var b, o, t := BaseFiles(objs, base), FilesAt(objs, target), FilesAt(objs, source);
      p in flat &&
      if p in oursFlat && oursFlat[p].sidecar.Some? then
        flat[p].sidecar == oursFlat[p].sidecar &&
        (flat[p].target != oursFlat[p].target <==> Overtaken(b, o, t, o, t, p))
      else if p in theirsFlat && theirsFlat[p].sidecar.Some? then
        flat[p].sidecar == theirsFlat[p].sidecar &&
        (flat[p].target != theirsFlat[p].target <==> Overtaken(b, o, t, t, o, p))
      else flat[p].sidecar == None
  {
    var b, o, t := BaseFiles(objs, base), FilesAt(objs, target), FilesAt(objs, source);
    SidecarOrigin(objs, merged, FilesSpec(b, o, t), target, source, p);
    MergeTreeReadBack(objs, merged, FilesSpec(b, o, t), Sidecars(objs, target, source));
    hide Flatten, IsMergeTree, Sidecars, MergeSpec, FilesSpec, BaseFiles;
    OvertakenIff(b, o, t, p);
  }

  /**
   The version of `mine` gives way at `p`: it has no rows there, or only the other side changed them, or
   both did and their merge is something else.
   */
  predicate Overtaken(b: Files, o: Files, t: Files, mine: Files, other: Files, p: string) {
    || p !in mine
    || (At(mine, p) == At(b, p) && At(other, p) != At(mine, p))
    || (FileRule(At(b, p), At(o, p), At(t, p)).MergeRows? && RowsMerged(b, o, t, p) != mine[p])
  }

  lemma OvertakenIff(b: Files, o: Files, t: Files, p: string)
    requires p in FilesSpec(b, o, t)
    ensures Overtaken(b, o, t, o, t, p) <==> At(o, p) != Some(FilesSpec(b, o, t)[p])
    ensures Overtaken(b, o, t, t, o, p) <==> At(t, p) != Some(FilesSpec(b, o, t)[p])
  {
    hide MergeSpec;
  }

  /**
   So a file that only the source changed gets the source's rows under the target's old sidecar, even when
   the source brings a new one; and a file that only the target changed can get the source's old sidecar.
   */
  lemma StaleSidecar(objs: set<ObjId>, merged: Tree, base: Option<Commit>, target: Commit, source: Commit, p: string)
    requires var b, o, t := BaseFiles(objs, base), FilesAt(objs, target), FilesAt(objs, source);
      && TreeId(merged) in objs && IsMergeTree(merged, FilesSpec(b, o, t), Sidecars(objs, target, source))
      && p in b && p in o && p in t
    ensures var flat, oursFlat, theirsFlat :=
        Flatten(objs, merged, ""), Flatten(objs, target.tree, ""), Flatten(objs, source.tree, "");
      var b, o, t := BaseFiles(objs, base), FilesAt(objs, target), FilesAt(objs, source);
      && p in oursFlat && p in theirsFlat
      && (o[p] == b[p] != t[p] && oursFlat[p].sidecar.Some? ==>
            p in flat && flat[p] == Leaf(ManifestTarget(t[p]), oursFlat[p].sidecar))
      && (t[p] == b[p] != o[p] && oursFlat[p].sidecar.None? && theirsFlat[p].sidecar.Some? ==>
            p in flat && flat[p] == Leaf(ManifestTarget(o[p]), theirsFlat[p].sidecar))
  {
    var b, o, t := BaseFiles(objs, base), FilesAt(objs, target), FilesAt(objs, source);
    MergeTreeReadBack(objs, merged, FilesSpec(b, o, t), Sidecars(objs, target, source));
    hide Flatten, IsMergeTree, MergeSpec, BaseFiles;
    assert o[p] == b[p] != t[p] ==> At(FilesSpec(b, o, t), p) == Some(t[p]);
    assert t[p] == b[p] != o[p] ==> At(FilesSpec(b, o, t), p) == Some(o[p]);
  }

  /**
   Looking up a path in the tree of a merge finds only files without a slash in their path: the tree is
   flat, and lookup descends one name at a time.
   */
  lemma MergeTreeLookup(objs: set<ObjId>, t: Tree, files: Files, sidecars: map<string, string>, path: string)
    requires TreeId(t) in objs && IsMergeTree(t, files, sidecars)
    ensures var p := Strip(path);
      ResolvePath(objs, t, path) ==
        if Plain(path) && '/' !in p && p in files then Some(Found(ManifestTarget(files[p]), SidecarAt(sidecars, p)))
        else None
  {
    var p := Strip(path);
    hide Strip, Ordered;
    if Plain(path) {
      var parts := Split(p);
      match FirstNamed(t.entries, parts[0])
      case None =>
        assert '/' !in p && p in files ==> MergeEntry(files, sidecars, p) in t.entries;
      case Some(e) =>
        assert e == MergeEntry(files, sidecars, e.name);
        assert |parts| == 1 <==> '/' !in p;
    }
  }
}
