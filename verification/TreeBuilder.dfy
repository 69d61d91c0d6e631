/** Building a nested tree, object by object, from the flat map of staged paths. */
module TreeBuilder {
  import opened Objects
  import opened Store
  import opened Paths
  import opened Trees

  // ----- Serialisation sorts the entries by name, stably -----

  function InsertByName(s: seq<TreeEntry>, e: TreeEntry): seq<TreeEntry> {
    if s == [] || !Less(e.name, s[|s| - 1].name) then s + [e]
    else InsertByName(s[..|s| - 1], e) + [s[|s| - 1]]
  }

  function SortByName(s: seq<TreeEntry>): seq<TreeEntry> {
    if s == [] then [] else InsertByName(SortByName(s[..|s| - 1]), s[|s| - 1])
  }

  ghost predicate Ordered(s: seq<TreeEntry>) {
    forall i, j | 0 <= i < j < |s| :: EntryLess(s[i], s[j])
  }

  lemma {:induction false} InsertOrdered(s: seq<TreeEntry>, e: TreeEntry)
    requires Ordered(s) && forall x <- s | x.name == e.name :: EntryLess(x, e)
    ensures Ordered(InsertByName(s, e))
    ensures forall x :: x in InsertByName(s, e) <==> x in s || x == e
  {
    if s != [] {
      var init, last := s[..|s| - 1], s[|s| - 1];
      assert s == init + [last];
      LessTotal(e.name, last.name);
      if Less(e.name, last.name) {
        InsertOrdered(init, e);
        forall x | x in InsertByName(init, e) ensures EntryLess(x, last) {
          if x != e {
            var i :| 0 <= i < |init| && init[i] == x;
            assert s[i] == x && s[|s| - 1] == last;
          }
        }
      } else {
        forall i | 0 <= i < |s| ensures EntryLess(s[i], e) {
          if i < |init| { EntryLessTrans(s[i], last, e); }
        }
      }
    }
  }

  /** Files first, then directories, each name once per kind. */
  ghost predicate Sortable(s: seq<TreeEntry>) {
    forall i, j | 0 <= i < j < |s| && s[i].name == s[j].name :: !s[i].target.TreeTarget? && s[j].target.TreeTarget?
  }

  lemma {:induction false} SortOrdered(s: seq<TreeEntry>)
    requires Sortable(s)
    ensures Ordered(SortByName(s))
    ensures forall x :: x in SortByName(s) <==> x in s
  {
    if s != [] {
      var init, last := s[..|s| - 1], s[|s| - 1];
      assert s == init + [last];
      SortOrdered(init);
      forall x | x in init && x.name == last.name ensures EntryLess(x, last) {
        var i :| 0 <= i < |init| && init[i] == x;
        assert s[i] == x && s[|s| - 1] == last;
      }
      InsertOrdered(SortByName(init), last);
    }
  }

  // ----- Splitting the staged paths at one directory level -----

  /** `p` lies below the prefix, directly. */
  predicate InPlace(p: string, prefix: string) {
    StartsWith(p, prefix) && '/' !in p[|prefix|..]
  }

  /** `p` lies below the prefix, in a subdirectory. */
  predicate Deeper(p: string, prefix: string) {
    StartsWith(p, prefix) && '/' in p[|prefix|..]
  }

  function DirOf(p: string, prefix: string): (d: string)
    requires Deeper(p, prefix)
    ensures '/' !in d && StartsWith(p, prefix + d + "/")
  {
    var rest := p[|prefix|..];
    var i := FirstSlash(rest);
    assert p == prefix + rest[..i] + "/" + rest[i + 1..];
    rest[..i]
  }

  lemma DirOfIs(prefix: string, d: string, rest: string)
    requires '/' !in d
    ensures var p := prefix + d + "/" + rest; Deeper(p, prefix) && DirOf(p, prefix) == d
  {
    var p := prefix + d + "/" + rest;
    var q := d + "/" + rest;
    assert p[|prefix|..] == q;
    assert q[..|d|] == d;
    FirstSlashIs(q, |d|);
  }

  /** The staged files directly below the prefix, and per subdirectory the staged files below it. */
  ghost predicate Partitioned(staged: map<string, Leaf>, prefix: string, direct: map<string, Leaf>,
      subdirs: map<string, map<string, Leaf>>) {
    && (forall name <- direct :: '/' !in name && prefix + name in staged && direct[name] == staged[prefix + name])
    && (forall p <- staged | InPlace(p, prefix) :: p[|prefix|..] in direct)
    && (forall d <- subdirs :: subdirs[d] != map[])
    && (forall d, p | d in subdirs && p in subdirs[d] ::
          p in staged && subdirs[d][p] == staged[p] && Deeper(p, prefix) && DirOf(p, prefix) == d)
    && (forall p <- staged | Deeper(p, prefix) :: DirOf(p, prefix) in subdirs && p in subdirs[DirOf(p, prefix)])
  }

  method Partition(staged: map<string, Leaf>, prefix: string)
    returns (direct: map<string, Leaf>, subdirs: map<string, map<string, Leaf>>)
    ensures Partitioned(staged, prefix, direct, subdirs)
  {
    hide Partitioned, Deeper, DirOf, InPlace;
    direct, subdirs := map[], map[];
    NothingPartitioned(prefix);
    var todo := staged.Keys;
    ghost var done: map<string, Leaf> := map[];
    while todo != {}
      invariant todo <= staged.Keys && done == map p | p in staged && p !in todo :: staged[p]
      invariant Partitioned(done, prefix, direct, subdirs)
    {
      var path :| path in todo;
      todo := todo - {path};
      ghost var before := done;
      done := done[path := staged[path]];
      PathKind(prefix, path);
      if !StartsWith(path, prefix) {
        OutsidePath(before, prefix, direct, subdirs, path, staged[path]);
        continue;
      }
      var rest := path[|prefix|..];
      if '/' !in rest {
        DirectPath(before, prefix, direct, subdirs, path, staged[path]);
        direct := direct[rest := staged[path]];
      } else {
        var name, subRest := rest[..FirstSlash(rest)], rest[FirstSlash(rest) + 1..];
        SubdirPath(before, prefix, direct, subdirs, path, staged[path]);
        var sub := if name in subdirs then subdirs[name] else map[];
        subdirs := subdirs[name := sub[prefix + name + "/" + subRest := staged[path]]];
      }
    }
    assert done == staged;
  }

  lemma NothingPartitioned(prefix: string)
    ensures Partitioned(map[], prefix, map[], map[])
  {
  }

  /** Where a path lies relative to a prefix, as the source finds out. */
  lemma PathKind(prefix: string, path: string)
    ensures !StartsWith(path, prefix) ==> !InPlace(path, prefix) && !Deeper(path, prefix)
    ensures StartsWith(path, prefix) ==>
      var rest := path[|prefix|..];
      if '/' !in rest then InPlace(path, prefix)
      else
        var i := FirstSlash(rest);
        Deeper(path, prefix) && DirOf(path, prefix) == rest[..i] && path == prefix + rest[..i] + "/" + rest[i + 1..]
  {
    if StartsWith(path, prefix) && '/' in path[|prefix|..] {
      var rest := path[|prefix|..];
      var i := FirstSlash(rest);
      assert rest == rest[..i] + "/" + rest[i + 1..];
      assert path == prefix + rest;
    }
  }

  lemma OutsidePath(done: map<string, Leaf>, prefix: string, direct: map<string, Leaf>,
      subdirs: map<string, map<string, Leaf>>, p: string, v: Leaf)
    requires Partitioned(done, prefix, direct, subdirs) && !StartsWith(p, prefix)
    ensures Partitioned(done[p := v], prefix, direct, subdirs)
  {
    hide DirOf;
    assert !Deeper(p, prefix) && !InPlace(p, prefix);
    assert forall name: string :: prefix <= prefix + name;
  }

  lemma DirectPath(done: map<string, Leaf>, prefix: string, direct: map<string, Leaf>,
      subdirs: map<string, map<string, Leaf>>, p: string, v: Leaf)
    requires Partitioned(done, prefix, direct, subdirs) && InPlace(p, prefix)
    ensures Partitioned(done[p := v], prefix, direct[p[|prefix|..] := v], subdirs)
  {
    assert p == prefix + p[|prefix|..];
    assert forall name :: (prefix + name)[|prefix|..] == name;
  }

  /** A path in a subdirectory is not a path directly below the prefix. */
  lemma DeeperNotInPlace(prefix: string, p: string, names: set<string>)
    requires Deeper(p, prefix) && forall name <- names :: '/' !in name
    ensures !InPlace(p, prefix) && forall name <- names :: prefix + name != p
  {
    forall name | name in names ensures prefix + name != p {
      assert (prefix + name)[|prefix|..] == name;
    }
  }

  lemma SubdirPath(done: map<string, Leaf>, prefix: string, direct: map<string, Leaf>,
      subdirs: map<string, map<string, Leaf>>, p: string, v: Leaf)
    requires Partitioned(done, prefix, direct, subdirs) && Deeper(p, prefix)
    ensures var d := DirOf(p, prefix);
            var sub := if d in subdirs then subdirs[d] else map[];
            Partitioned(done[p := v], prefix, direct, subdirs[d := sub[p := v]])
  {
    hide DirOf, InPlace, Deeper, StartsWith;
    DeeperNotInPlace(prefix, p, direct.Keys);
    var d := DirOf(p, prefix);
    var sub := if d in subdirs then subdirs[d] else map[];
    var done', subdirs' := done[p := v], subdirs[d := sub[p := v]];
    assert p in sub[p := v];
    forall q | q in done' && Deeper(q, prefix)
      ensures DirOf(q, prefix) in subdirs' && q in subdirs'[DirOf(q, prefix)]
    {
    }
  }

  // ----- Building -----

  predicate StagedAt(staged: map<string, Leaf>, prefix: string, parts: seq<string>, v: Leaf) {
    ValidParts(parts) && prefix + Join(parts) in staged && staged[prefix + Join(parts)] == v
  }

  /** The tree holds exactly the staged files below the prefix. */
  ghost predicate Holds(t: Tree, staged: map<string, Leaf>, prefix: string) {
    forall parts, v :: Has(t, parts, v) <==> StagedAt(staged, prefix, parts, v)
  }

  function FileEntry(name: string, v: Leaf): TreeEntry {
    TreeEntry(name, v.target, v.sidecar)
  }

  function DirEntry(name: string, t: Tree): TreeEntry {
    TreeEntry(name, TreeTarget(t), None)
  }

  ghost predicate FilesIn(entries: seq<TreeEntry>, direct: map<string, Leaf>) {
    && (forall e :: e in entries <==> e.name in direct && e == FileEntry(e.name, direct[e.name]))
    && Sortable(entries)
  }

  method FileEntries(direct: map<string, Leaf>) returns (entries: seq<TreeEntry>)
    ensures FilesIn(entries, direct)
  {
    entries := [];
    var todo := direct.Keys;
    while todo != {}
      invariant todo <= direct.Keys
      invariant forall e :: e in entries <==>
        e.name in direct && e.name !in todo && e == FileEntry(e.name, direct[e.name])
      invariant Sortable(entries)
    {
      var name :| name in todo;
      todo := todo - {name};
      assert forall e <- entries :: e.name != name;
      entries := entries + [FileEntry(name, direct[name])];
    }
  }

  /** A tree made of the direct files and one built tree per subdirectory. */
  ghost predicate Assembled(t: Tree, direct: map<string, Leaf>, dirs: map<string, Tree>) {
    && Ordered(t.entries)
    && (forall e :: e in t.entries <==>
          || (e.name in direct && e == FileEntry(e.name, direct[e.name]))
          || (e.name in dirs && e == DirEntry(e.name, dirs[e.name])))
  }

  lemma SortedAssembled(files: seq<TreeEntry>, dirEntries: seq<TreeEntry>, direct: map<string, Leaf>,
      dirs: map<string, Tree>)
    requires FilesIn(files, direct) && DirEntries(dirEntries, dirs)
    ensures Assembled(Tree(SortByName(files + dirEntries)), direct, dirs)
  {
    assert Sortable(files + dirEntries);
    SortOrdered(files + dirEntries);
  }

  ghost predicate DirsBuilt(subdirs: map<string, map<string, Leaf>>, prefix: string, dirs: map<string, Tree>) {
    forall d <- dirs :: d in subdirs && Canonical(dirs[d]) && Holds(dirs[d], subdirs[d], prefix + d + "/")
  }

  lemma AssembledCanonical(t: Tree, staged: map<string, Leaf>, prefix: string, direct: map<string, Leaf>,
      subdirs: map<string, map<string, Leaf>>, dirs: map<string, Tree>)
    requires Partitioned(staged, prefix, direct, subdirs) && Assembled(t, direct, dirs)
    requires dirs.Keys == subdirs.Keys && DirsBuilt(subdirs, prefix, dirs)
    ensures Canonical(t)
  {
    forall d | d in dirs ensures '/' !in d && dirs[d].entries != [] {
      var p :| p in subdirs[d];
      assert DirOf(p, prefix) == d;
      var rest := p[|prefix + d + "/"|..];
      assert p == prefix + d + "/" + rest;
      JoinSplit(rest);
      assert StagedAt(subdirs[d], prefix + d + "/", Split(rest), subdirs[d][p]);
      assert Has(dirs[d], Split(rest), subdirs[d][p]);
    }
    assert forall name <- direct :: '/' !in name;
    hide Partitioned, Has;
  }

  lemma AssembledHolds(t: Tree, staged: map<string, Leaf>, prefix: string, direct: map<string, Leaf>,
      subdirs: map<string, map<string, Leaf>>, dirs: map<string, Tree>)
    requires Partitioned(staged, prefix, direct, subdirs) && Assembled(t, direct, dirs)
    requires dirs.Keys == subdirs.Keys && DirsBuilt(subdirs, prefix, dirs)
    ensures Holds(t, staged, prefix)
  {
    AssembledCanonical(t, staged, prefix, direct, subdirs, dirs);
    forall parts, v ensures Has(t, parts, v) <==> StagedAt(staged, prefix, parts, v) {
      if |parts| == 1 {
        assert parts == [parts[0]];
        FileHolds(t, staged, prefix, direct, subdirs, dirs, parts[0], v);
      } else if |parts| > 1 {
        assert parts == [parts[0]] + parts[1..];
        DirHolds(t, staged, prefix, direct, subdirs, dirs, parts[0], parts[1..], v);
      }
    }
  }

  lemma FileHolds(t: Tree, staged: map<string, Leaf>, prefix: string, direct: map<string, Leaf>,
      subdirs: map<string, map<string, Leaf>>, dirs: map<string, Tree>, name: string, v: Leaf)
    requires Partitioned(staged, prefix, direct, subdirs) && Assembled(t, direct, dirs) && Canonical(t)
    ensures Has(t, [name], v) <==> StagedAt(staged, prefix, [name], v)
  {
    HasLeaf(t, name, v);
    assert (prefix + name)[|prefix|..] == name;
    assert InPlace(prefix + name, prefix) <==> '/' !in name;
    if name in direct {
      assert FileEntry(name, direct[name]) in t.entries;
    }
  }

  lemma DirHolds(t: Tree, staged: map<string, Leaf>, prefix: string, direct: map<string, Leaf>,
      subdirs: map<string, map<string, Leaf>>, dirs: map<string, Tree>, d: string, rest: seq<string>, v: Leaf)
    requires Partitioned(staged, prefix, direct, subdirs) && Assembled(t, direct, dirs) && Canonical(t)
    requires dirs.Keys == subdirs.Keys && DirsBuilt(subdirs, prefix, dirs)
    requires rest != []
    ensures Has(t, [d] + rest, v) <==> StagedAt(staged, prefix, [d] + rest, v)
  {
    var parts := [d] + rest;
    assert parts[1..] == rest;
    assert prefix + Join(parts) == prefix + d + "/" + Join(rest);
    if '/' !in d {
      DirOfIs(prefix, d, Join(rest));
    } else {
      assert d in parts;
    }
    if d in dirs {
      assert DirEntry(d, dirs[d]) in t.entries;
      HasTree(t, DirEntry(d, dirs[d]), rest, v);
    } else if Has(t, parts, v) {
      var e := HasTreeEntry(t, parts, v);
    }
  }

  ghost function Bound(paths: set<string>): (n: nat)
    ensures forall p <- paths :: |p| < n
  {
    if paths == {} then 0 else
      var p :| p in paths;
      var n := Bound(paths - {p});
      assert forall q <- paths :: q == p || q in paths - {p};
      if |p| < n then n else |p| + 1
  }

  function TreesUnder(dirs: map<string, Tree>): set<ObjId> {
    set d, x | d in dirs && x in SubTrees(dirs[d]) :: x
  }

  lemma AssembledSubTrees(t: Tree, direct: map<string, Leaf>, dirs: map<string, Tree>)
    requires Assembled(t, direct, dirs)
    ensures SubTrees(t) == {TreeId(t)} + TreesUnder(dirs)
  {
    forall x | x in SubTrees(t) && x != TreeId(t) ensures x in TreesUnder(dirs) {
      var e :| e in t.entries && e.target.TreeTarget? && x in SubTrees(e.target.tree);
      assert e.name in dirs && e == DirEntry(e.name, dirs[e.name]);
    }
    forall d, x | d in dirs && x in SubTrees(dirs[d]) ensures x in SubTrees(t) {
      assert DirEntry(d, dirs[d]) in t.entries;
    }
  }

  lemma TreesUnderGrows(dirs: map<string, Tree>, d: string, t: Tree)
    requires d !in dirs
    ensures TreesUnder(dirs[d := t]) == TreesUnder(dirs) + SubTrees(t)
  {
    var dirs' := dirs[d := t];
    forall x | x in TreesUnder(dirs) + SubTrees(t) ensures x in TreesUnder(dirs') {
      if x in SubTrees(t) {
        assert dirs'[d] == t;
      } else {
        var f :| f in dirs && x in SubTrees(dirs[f]);
        assert dirs'[f] == dirs[f];
      }
    }
  }

  predicate Inside(p: string, prefix: string, d: string) {
    StartsWith(p, prefix + d + "/")
  }

  /** What the recursion needs of the subdirectories: paths below them, of bounded length. */
  ghost predicate DirsBelow(subdirs: map<string, map<string, Leaf>>, prefix: string, n: nat) {
    && (forall d <- subdirs :: subdirs[d] != map[])
    && (forall d, p | d in subdirs && p in subdirs[d] :: Inside(p, prefix, d) && |p| < |prefix| + n)
  }

  lemma PartitionedBelow(staged: map<string, Leaf>, prefix: string, direct: map<string, Leaf>,
      subdirs: map<string, map<string, Leaf>>, n: nat)
    requires Partitioned(staged, prefix, direct, subdirs)
    requires forall p <- staged | StartsWith(p, prefix) :: |p| < |prefix| + n
    ensures DirsBelow(subdirs, prefix, n)
  {
    forall d, p | d in subdirs && p in subdirs[d] ensures Inside(p, prefix, d) && |p| < |prefix| + n {
      assert DirOf(p, prefix) == d;
      assert p in staged && StartsWith(p, prefix);
    }
  }

  ghost predicate DirEntries(entries: seq<TreeEntry>, dirs: map<string, Tree>) {
    && (forall e :: e in entries <==> e.name in dirs && e == DirEntry(e.name, dirs[e.name]))
    && Sortable(entries)
  }

  /** Build the subdirectories, one tree each. */
  method BuildDirs(store: ObjectStore, subdirs: map<string, map<string, Leaf>>, prefix: string, now: int, ghost n: nat)
    returns (entries: seq<TreeEntry>, ghost dirs: map<string, Tree>)
    requires DirsBelow(subdirs, prefix, n)
    modifies store
    ensures dirs.Keys == subdirs.Keys && DirsBuilt(subdirs, prefix, dirs)
    ensures DirEntries(entries, dirs)
    ensures store.Objs() == old(store.Objs()) + TreesUnder(dirs)
    decreases n, 0
  {
    entries, dirs := [], map[];
    assert TreesUnder(dirs) == {} && DirEntries([], map[]) && DirsBuilt(subdirs, prefix, map[]);
    hide Has, Holds, Canonical, SubTrees, TreesUnder, DirsBuilt, Sortable, DirEntries, DirsBelow;
    var todo := subdirs.Keys;
    while todo != {}
      invariant todo <= subdirs.Keys && dirs.Keys == subdirs.Keys - todo
      invariant DirsBuilt(subdirs, prefix, dirs)
      invariant DirEntries(entries, dirs)
      invariant store.Objs() == old(store.Objs()) + TreesUnder(dirs)
      decreases todo
    {
      var name :| name in todo;
      todo := todo - {name};
      SampleBelow(subdirs, prefix, name, n);
      var sub := BuildSubtree(store, subdirs[name], prefix + name + "/", now, n - 1);
      AddDir(subdirs, prefix, entries, dirs, name, sub);
      TreesUnderGrows(dirs, name, sub);
      dirs := dirs[name := sub];
      entries := entries + [DirEntry(name, sub)];
    }
  }

  lemma SampleBelow(subdirs: map<string, map<string, Leaf>>, prefix: string, name: string, n: nat)
    requires DirsBelow(subdirs, prefix, n) && name in subdirs
    ensures n > 0
    ensures forall p <- subdirs[name] | StartsWith(p, prefix + name + "/") :: |p| < |prefix + name + "/"| + (n - 1)
  {
    var sample :| sample in subdirs[name];
    assert Inside(sample, prefix, name);
    assert |prefix + name + "/"| <= |sample| < |prefix| + n;
  }

  lemma AddDir(subdirs: map<string, map<string, Leaf>>, prefix: string, entries: seq<TreeEntry>,
      dirs: map<string, Tree>, d: string, t: Tree)
    requires DirsBuilt(subdirs, prefix, dirs) && DirEntries(entries, dirs)
    requires d in subdirs && d !in dirs && Canonical(t) && Holds(t, subdirs[d], prefix + d + "/")
    ensures DirsBuilt(subdirs, prefix, dirs[d := t]) && DirEntries(entries + [DirEntry(d, t)], dirs[d := t])
  {
    hide Canonical, Holds;
    assert forall e <- entries :: e.name != d;
  }

  method BuildSubtree(store: ObjectStore, staged: map<string, Leaf>, prefix: string, now: int, ghost n: nat)
    returns (t: Tree)
    requires forall p <- staged | StartsWith(p, prefix) :: |p| < |prefix| + n
    modifies store
    ensures Canonical(t) && Holds(t, staged, prefix)
    ensures store.Objs() == old(store.Objs()) + SubTrees(t)
    decreases n, 1
  {
    var direct, subdirs := Partition(staged, prefix);
    var entries := FileEntries(direct);
    PartitionedBelow(staged, prefix, direct, subdirs, n);
    hide Has, Holds, Canonical, SubTrees, TreesUnder, Partitioned, DirsBelow, DirsBuilt, FilesIn, DirEntries, Assembled;
    var dirEntries;
    ghost var dirs;
    dirEntries, dirs := BuildDirs(store, subdirs, prefix, now, n);
    t := Tree(SortByName(entries + dirEntries));
    SortedAssembled(entries, dirEntries, direct, dirs);
    AssembledCanonical(t, staged, prefix, direct, subdirs, dirs);
    AssembledHolds(t, staged, prefix, direct, subdirs, dirs);
    AssembledSubTrees(t, direct, dirs);
    store.Write(TreeId(t), now);
  }

  method BuildNestedTree(store: ObjectStore, staged: map<string, Leaf>, now: int) returns (root: Tree)
    modifies store
    ensures Canonical(root) && Holds(root, staged, "")
    ensures store.Objs() == old(store.Objs()) + SubTrees(root)
  {
    root := BuildSubtree(store, staged, "", now, Bound(staged.Keys));
  }

  /** The root is a function of what is staged: not of insertion order, nor of what the store held. */
  lemma RootUnique(s: Tree, t: Tree, staged: map<string, Leaf>)
    requires Canonical(s) && Holds(s, staged, "")
    requires Canonical(t) && Holds(t, staged, "")
    ensures s == t
  {
    forall parts, v ensures Has(s, parts, v) <==> Has(t, parts, v) {
      assert Has(s, parts, v) <==> StagedAt(staged, "", parts, v);
    }
    CanonicalUnique(s, t);
  }
}
