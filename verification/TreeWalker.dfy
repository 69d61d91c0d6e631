/** Expanding a nested tree to a flat map of paths, and looking up one path without expanding it. */
module TreeWalker {
  import opened Objects
  import opened Paths
  import opened Trees
  import opened TreeBuilder

  function Extend(prefix: string, name: string): string {
    if prefix == "" then name else prefix + "/" + name
  }

  /** What one entry contributes. */
  function FlattenEntry(objs: set<ObjId>, e: TreeEntry, prefix: string): map<string, Leaf>
    decreases e, 1
  {
    if e.target.TreeTarget? then Flatten(objs, e.target.tree, Extend(prefix, e.name))
    else map[Extend(prefix, e.name) := Leaf(e.target, e.sidecar)]
  }

  function FlattenEntries(objs: set<ObjId>, t: Tree, n: nat, prefix: string): map<string, Leaf>
    requires n <= |t.entries|
    decreases t, 0, n
  {
    if n == 0 then map[] else
      FlattenEntries(objs, t, n - 1, prefix) + FlattenEntry(objs, t.entries[n - 1], prefix)
  }

  /** A missing tree object flattens to nothing. */
  function Flatten(objs: set<ObjId>, t: Tree, prefix: string): map<string, Leaf>
    decreases t, 1
  {
    if TreeId(t) !in objs then map[] else FlattenEntries(objs, t, |t.entries|, prefix)
  }

  method FlattenTree(objs: set<ObjId>, t: Tree, prefix: string) returns (result: map<string, Leaf>)
    ensures result == Flatten(objs, t, prefix)
    decreases t
  {
    result := map[];
    if TreeId(t) !in objs {
      return;
    }
    for i := 0 to |t.entries|
      invariant result == FlattenEntries(objs, t, i, prefix)
    {
      var e := t.entries[i];
      var fullPath := Extend(prefix, e.name);
      if e.target.TreeTarget? {
        var sub := FlattenTree(objs, e.target.tree, fullPath);
        result := result + sub;
      } else {
        result := result[fullPath := Leaf(e.target, e.sidecar)];
      }
    }
  }

  /** Only the tree objects of a store matter for flattening. */
  lemma {:induction false} FlattenFrame(a: set<ObjId>, b: set<ObjId>, t: Tree, n: nat, prefix: string)
    requires forall u: Tree :: TreeId(u) in a <==> TreeId(u) in b
    requires n <= |t.entries|
    ensures FlattenEntries(a, t, n, prefix) == FlattenEntries(b, t, n, prefix)
    decreases t, n
  {
    if n > 0 {
      FlattenFrame(a, b, t, n - 1, prefix);
      var e := t.entries[n - 1];
      if e.target.TreeTarget? {
        var sub, q := e.target.tree, Extend(prefix, e.name);
        FlattenFrame(a, b, sub, |sub.entries|, q);
        assert Flatten(a, sub, q) == Flatten(b, sub, q);
      }
      assert FlattenEntry(a, e, prefix) == FlattenEntry(b, e, prefix);
    }
  }

  /** The manifests among the leaves, by path. */
  function ManifestsOf(flat: map<string, Leaf>): map<string, Manifest> {
    map p | p in flat && flat[p].target.ManifestTarget? :: flat[p].target.manifest
  }

  // ----- What flattening yields on a canonical tree -----

  function Base(prefix: string): string {
    if prefix == "" then "" else prefix + "/"
  }

  /** The names leading from the prefix to `p`. */
  function RelParts(prefix: string, p: string): Option<seq<string>> {
    if StartsWith(p, Base(prefix)) then Some(Split(p[|Base(prefix)|..])) else None
  }

  predicate Maps(m: map<string, Leaf>, p: string, v: Leaf) {
    p in m && m[p] == v
  }

  /** A path splits into `name` and more names when it goes through the directory `name`. */
  lemma SplitThrough(q: string, name: string, rest: seq<string>)
    requires '/' !in name && rest != []
    ensures Split(q) == [name] + rest <==> StartsWith(q, name + "/") && Split(q[|name| + 1..]) == rest
  {
    JoinSplit(q);
    assert ([name] + rest)[1..] == rest;
    assert Join([name] + rest) == name + "/" + Join(rest);
    if StartsWith(q, name + "/") {
      assert q == name + "/" + q[|name| + 1..];
      SplitCons(name, q[|name| + 1..]);
    }
  }

  lemma RelStep(prefix: string, name: string, p: string, rest: seq<string>)
    requires '/' !in name && rest != [] && Extend(prefix, name) != ""
    ensures RelParts(Extend(prefix, name), p) == Some(rest) <==> RelParts(prefix, p) == Some([name] + rest)
  {
    var base, below := Base(prefix), Base(Extend(prefix, name));
    assert below == base + (name + "/");
    if StartsWith(p, base) {
      var q := p[|base|..];
      assert p == base + q;
      SplitThrough(q, name, rest);
      assert StartsWith(p, below) <==> StartsWith(q, name + "/");
      hide Split;
      if StartsWith(p, below) {
        assert p[|below|..] == q[|name| + 1..];
      }
    }
  }

  lemma RelOne(prefix: string, name: string, p: string)
    requires '/' !in name
    ensures p == Extend(prefix, name) <==> RelParts(prefix, p) == Some([name])
  {
    var base := Base(prefix);
    if p == base + name {
      assert p[|base|..] == name;
    }
    if RelParts(prefix, p) == Some([name]) {
      JoinSplit(p[|base|..]);
      assert p == base + p[|base|..];
    }
  }

  /** At the root no directory has the empty name. */
  ghost predicate PlainRoot(t: Tree, prefix: string) {
    prefix != "" || forall e <- t.entries | e.target.TreeTarget? :: e.name != ""
  }

  ghost predicate RelHas(t: Tree, n: nat, prefix: string, p: string, v: Leaf)
    requires n <= |t.entries|
  {
    var r := RelParts(prefix, p);
    r.Some? && exists i | 0 <= i < n :: EntryHas(t.entries[i], r.value, v)
  }

  lemma {:induction false} FlattenEntryHas(objs: set<ObjId>, t: Tree, e: TreeEntry, prefix: string, p: string, v: Leaf)
    requires Canonical(t) && SubTrees(t) <= objs && e in t.entries && PlainRoot(t, prefix)
    ensures Maps(FlattenEntry(objs, e, prefix), p, v) <==>
            RelParts(prefix, p).Some? && EntryHas(e, RelParts(prefix, p).value, v)
    decreases t, 0
  {
    var r := RelParts(prefix, p);
    if e.target.TreeTarget? {
      var q := Extend(prefix, e.name);
      assert SubTrees(e.target.tree) <= objs;
      FlattenHas(objs, e.target.tree, q, p, v);
      if RelParts(q, p).Some? {
        RelStep(prefix, e.name, p, RelParts(q, p).value);
      }
      if r.Some? && |r.value| > 1 && r.value[0] == e.name {
        assert r.value == [e.name] + r.value[1..];
        RelStep(prefix, e.name, p, r.value[1..]);
      }
    } else {
      RelOne(prefix, e.name, p);
      if r.Some? && |r.value| == 1 {
        assert r.value == [r.value[0]];
      }
    }
  }

  lemma {:induction false} FlattenEntriesHas(objs: set<ObjId>, t: Tree, n: nat, prefix: string, p: string, v: Leaf)
    requires Canonical(t) && SubTrees(t) <= objs && n <= |t.entries| && PlainRoot(t, prefix)
    ensures Maps(FlattenEntries(objs, t, n, prefix), p, v) <==> RelHas(t, n, prefix, p, v)
    decreases t, 1, n
  {
    if n > 0 {
      var e := t.entries[n - 1];
      var m, here := FlattenEntries(objs, t, n - 1, prefix), FlattenEntry(objs, e, prefix);
      assert FlattenEntries(objs, t, n, prefix) == m + here;
      assert RelHas(t, n, prefix, p, v) <==>
        RelHas(t, n - 1, prefix, p, v) || (RelParts(prefix, p).Some? && EntryHas(e, RelParts(prefix, p).value, v));
      FlattenEntriesHas(objs, t, n - 1, prefix, p, v);
      FlattenEntryHas(objs, t, e, prefix, p, v);
      hide *;
      if p in here {
        FlattenEntryHas(objs, t, e, prefix, p, here[p]);
        NotBoth(t, n - 1, prefix, p, v, here[p]);
        MapsAt(here, p);
      }
      MapsOverride(m, here, p, v);
    }
  }

  lemma MapsAt(m: map<string, Leaf>, p: string)
    requires p in m
    ensures Maps(m, p, m[p])
  {
  }

  lemma MapsOverride(m: map<string, Leaf>, here: map<string, Leaf>, p: string, v: Leaf)
    ensures Maps(m + here, p, v) <==> Maps(here, p, v) || (p !in here && Maps(m, p, v))
    ensures Maps(here, p, v) ==> p in here
  {
  }

  lemma NotBoth(t: Tree, j: nat, prefix: string, p: string, v: Leaf, w: Leaf)
    requires Canonical(t) && j < |t.entries|
    ensures !(RelHas(t, j, prefix, p, v) && RelParts(prefix, p).Some? &&
      EntryHas(t.entries[j], RelParts(prefix, p).value, w))
  {
    if RelParts(prefix, p).Some? && EntryHas(t.entries[j], RelParts(prefix, p).value, w) {
      OneEntry(t, j, RelParts(prefix, p).value, v, w);
    }
  }

  /** No two entries of a canonical tree lead to the same leaf. */
  lemma OneEntry(t: Tree, j: nat, parts: seq<string>, v: Leaf, w: Leaf)
    requires Canonical(t) && j < |t.entries| && parts != []
    requires EntryHas(t.entries[j], parts, w)
    ensures !exists i | 0 <= i < j :: EntryHas(t.entries[i], parts, v)
  {
    forall i | 0 <= i < j ensures !EntryHas(t.entries[i], parts, v) {
      EntryLessStrict(t.entries[i], t.entries[j]);
      LessTotal(parts[0], parts[0]);
      assert parts[1..] == [] <==> |parts| == 1;
    }
  }

  /** Flattening maps a path to a leaf exactly when its names lead there. */
  lemma {:induction false} FlattenHas(objs: set<ObjId>, t: Tree, prefix: string, p: string, v: Leaf)
    requires Canonical(t) && SubTrees(t) <= objs && PlainRoot(t, prefix)
    ensures Maps(Flatten(objs, t, prefix), p, v) <==> RelParts(prefix, p).Some? && Has(t, RelParts(prefix, p).value, v)
    decreases t, 2
  {
    FlattenEntriesHas(objs, t, |t.entries|, prefix, p, v);
  }

  /** Flattening never yields a path that starts with a slash. */
  lemma {:induction false} FlattenPrefix(objs: set<ObjId>, t: Tree, n: nat, prefix: string, p: string)
    requires Canonical(t) && n <= |t.entries|
    requires p in FlattenEntries(objs, t, n, prefix)
    ensures if prefix == "" then !StartsWith(p, "/") else StartsWith(p, prefix)
    decreases t, n
  {
    var e := t.entries[n - 1];
    if p in FlattenEntry(objs, e, prefix) {
      if e.target.TreeTarget? {
        assert p in Flatten(objs, e.target.tree, Extend(prefix, e.name));
        FlattenPrefix(objs, e.target.tree, |e.target.tree.entries|, Extend(prefix, e.name), p);
      }
      assert prefix == "" && e.name != "" ==> e.name[0] in e.name;
    } else {
      FlattenPrefix(objs, t, n - 1, prefix, p);
    }
  }

  // ----- Round trip -----

  /** `root` is what building `staged` yields, with its tree objects in the store. */
  ghost predicate Built(objs: set<ObjId>, root: Tree, staged: map<string, Leaf>) {
    Canonical(root) && Holds(root, staged, "") && SubTrees(root) <= objs
  }

  lemma BuiltHas(objs: set<ObjId>, root: Tree, staged: map<string, Leaf>, p: string, v: Leaf)
    requires Built(objs, root, staged)
    ensures Has(root, Split(p), v) <==> Maps(staged, p, v)
  {
    JoinSplit(p);
    assert Has(root, Split(p), v) <==> StagedAt(staged, "", Split(p), v);
    assert "" + p == p;
  }

  /** Flattening what was built gives back the staged map exactly when no staged path starts with a slash. */
  lemma RoundTrip(objs: set<ObjId>, root: Tree, staged: map<string, Leaf>)
    requires Built(objs, root, staged)
    ensures Flatten(objs, root, "") == staged <==> forall p <- staged :: !StartsWith(p, "/")
  {
    var flat := Flatten(objs, root, "");
    if forall p <- staged :: !StartsWith(p, "/") {
      forall e | e in root.entries && e.target.TreeTarget? ensures e.name != "" {
        var rest, v := HasSome(e.target.tree);
        HasValid(e.target.tree, rest, v);
        HasTree(root, e, rest, v);
        var parts := [e.name] + rest;
        assert parts[1..] == rest;
        assert StagedAt(staged, "", parts, v);
        var p := e.name + "/" + Join(rest);
        assert "" + Join(parts) == p;
        assert p in staged && !StartsWith(p, "/");
        assert p[0] == (if e.name == "" then '/' else e.name[0]);
      }
      forall p, v ensures Maps(flat, p, v) <==> Maps(staged, p, v) {
        FlattenHas(objs, root, "", p, v);
        BuiltHas(objs, root, staged, p, v);
      }
      assert forall p <- flat :: Maps(flat, p, flat[p]);
      assert forall p <- staged :: Maps(staged, p, staged[p]);
    } else {
      forall p | p in flat ensures !StartsWith(p, "/") {
        FlattenPrefix(objs, root, |root.entries|, "", p);
      }
    }
  }

  // ----- Looking up one path -----

  datatype Found = Found(target: Target, sidecar: Option<string>)

  function FirstNamed(entries: seq<TreeEntry>, name: string): (r: Option<TreeEntry>)
    ensures r.Some? ==> r.value in entries && r.value.name == name
    ensures r.None? ==> forall e <- entries :: e.name != name
  {
    if entries == [] then None
    else if entries[0].name == name then Some(entries[0])
    else FirstNamed(entries[1..], name)
  }

  /** Descend through the first entry of each name. */
  function Resolve(objs: set<ObjId>, t: Tree, parts: seq<string>): Option<Found>
    requires parts != []
    decreases |parts|
  {
    if TreeId(t) !in objs then None else
      match FirstNamed(t.entries, parts[0])
      case None => None
      case Some(e) =>
        if |parts| == 1 then Some(Found(e.target, e.sidecar))
        else if e.target.TreeTarget? then Resolve(objs, e.target.tree, parts[1..])
        else None
  }

  /** Python's p.strip("/"). */
  function Strip(p: string): string {
    if p != "" && p[0] == '/' then Strip(p[1..])
    else if p != "" && p[|p| - 1] == '/' then Strip(p[..|p| - 1])
    else p
  }

  /** Stripping takes slashes off both ends, any number of them, and nothing else. */
  lemma {:induction false} StripMeaning(p: string)
    ensures (p == "" || (p[0] != '/' && p[|p| - 1] != '/')) ==> Strip(p) == p
    ensures Strip("/" + p) == Strip(p) == Strip(p + "/")
    ensures Strip(p) == "" || (Strip(p)[0] != '/' && Strip(p)[|Strip(p)| - 1] != '/')
    decreases |p|
  {
    var q := p + "/";
    assert ("/" + p)[1..] == p && q[..|q| - 1] == p;
    if p == "" {
      assert q[1..] == "";
    } else if p[0] == '/' {
      StripMeaning(p[1..]);
      assert q[1..] == p[1..] + "/";
    } else if p[|p| - 1] == '/' {
      StripMeaning(p[..|p| - 1]);
    }
  }

  function ResolvePath(objs: set<ObjId>, t: Tree, path: string): Option<Found> {
    var clean := Strip(path);
    if clean == "" || clean == "." then None else Resolve(objs, t, Split(clean))
  }

  method FindEntry(entries: seq<TreeEntry>, name: string) returns (found: Option<TreeEntry>)
    ensures found == FirstNamed(entries, name)
  {
    for i := 0 to |entries|
      invariant FirstNamed(entries[i..], name) == FirstNamed(entries, name)
    {
      if entries[i].name == name {
        return Some(entries[i]);
      }
      assert entries[i..][1..] == entries[i + 1..];
    }
    return None;
  }

  method ResolveEntry(objs: set<ObjId>, t: Tree, path: string) returns (r: Option<Found>)
    ensures r == ResolvePath(objs, t, path)
  {
    var clean := Strip(path);
    if clean == "" || clean == "." {
      return None;
    }
    var parts := Split(clean);
    var current := t;
    for i := 0 to |parts|
      invariant i < |parts| && Resolve(objs, current, parts[i..]) == Resolve(objs, t, parts)
    {
      assert parts[i..][1..] == parts[i + 1..];
      if TreeId(current) !in objs {
        return None;
      }
      var found := FindEntry(current.entries, parts[i]);
      if found.None? {
        return None;
      }
      if i == |parts| - 1 {
        return Some(Found(found.value.target, found.value.sidecar));
      }
      if !found.value.target.TreeTarget? {
        return None;
      }
      current := found.value.target.tree;
    }
    return None;
  }

  /** No name is both a file and a directory. */
  ghost predicate NoClash(t: Tree) {
    && (forall e, f | e in t.entries && f in t.entries && e.name == f.name :: e == f)
    && (forall e <- t.entries | e.target.TreeTarget? :: NoClash(e.target.tree))
  }

  ghost predicate IsDir(t: Tree, parts: seq<string>) {
    exists rest, v :: rest != [] && Has(t, parts + rest, v)
  }

  /** On built trees lookup agrees with the leaves held: a file, a directory above some file, or nothing. */
  lemma {:induction false} ResolveMeaning(objs: set<ObjId>, t: Tree, parts: seq<string>)
    requires Canonical(t) && SubTrees(t) <= objs && NoClash(t) && parts != []
    ensures var r := Resolve(objs, t, parts);
      && (forall v :: Has(t, parts, v) <==> r == Some(Found(v.target, v.sidecar)))
      && (IsDir(t, parts) <==> r.Some? && r.value.target.TreeTarget?)
    decreases |parts|
  {
    hide Canonical, Has, IsDir, SubTrees;
    var found := FirstNamed(t.entries, parts[0]);
    assert parts == [parts[0]] + parts[1..];
    if |parts| == 1 {
      assert parts == [parts[0]];
      LeafOne(objs, t, parts[0]);
      DirOne(objs, t, parts[0]);
    } else if found.Some? && found.value.target.TreeTarget? {
      var e := found.value;
      SubTreeHas(t, e);
      ResolveMeaning(objs, e.target.tree, parts[1..]);
      forall v ensures Has(t, parts, v) <==> Has(e.target.tree, parts[1..], v) {
        HasTree(t, e, parts[1..], v);
      }
      DirStep(t, e, parts[1..]);
    } else {
      NothingBelow(t, parts);
    }
  }

  /** Where no directory has the first name, nothing is held below it. */
  lemma NothingBelow(t: Tree, parts: seq<string>)
    requires NoClash(t) && |parts| > 1
    requires var found := FirstNamed(t.entries, parts[0]); !(found.Some? && found.value.target.TreeTarget?)
    ensures !IsDir(t, parts) && forall v :: !Has(t, parts, v)
  {
    forall q, v | |q| > 1 && q[0] == parts[0] ensures !Has(t, q, v) {
      if Has(t, q, v) {
        var e := HasTreeEntry(t, q, v);
      }
    }
  }

  lemma SubTreeHas(t: Tree, e: TreeEntry)
    requires e in t.entries && e.target.TreeTarget?
    ensures TreeId(t) in SubTrees(t) && SubTrees(e.target.tree) <= SubTrees(t)
    ensures Canonical(t) ==> Canonical(e.target.tree)
    ensures NoClash(t) ==> NoClash(e.target.tree)
  {
  }

  lemma LeafOne(objs: set<ObjId>, t: Tree, name: string)
    requires Canonical(t) && SubTrees(t) <= objs && NoClash(t)
    ensures forall v :: Has(t, [name], v) <==> Resolve(objs, t, [name]) == Some(Found(v.target, v.sidecar))
  {
    hide Has;
    forall v ensures Has(t, [name], v) <==> Resolve(objs, t, [name]) == Some(Found(v.target, v.sidecar)) {
      HasLeaf(t, name, v);
    }
  }

  lemma DirOne(objs: set<ObjId>, t: Tree, name: string)
    requires Canonical(t) && SubTrees(t) <= objs && NoClash(t)
    ensures var r := Resolve(objs, t, [name]);
      IsDir(t, [name]) <==> r.Some? && r.value.target.TreeTarget?
  {
    var found := FirstNamed(t.entries, name);
    if rest, v :| rest != [] && Has(t, [name] + rest, v) {
      var e := HasTreeEntry(t, [name] + rest, v);
    }
    if found.Some? && found.value.target.TreeTarget? {
      var e := found.value;
      var rest, v := HasSome(e.target.tree);
      HasValid(e.target.tree, rest, v);
      HasTree(t, e, rest, v);
      assert Has(t, [name] + rest, v);
    }
  }

  lemma DirStep(t: Tree, e: TreeEntry, parts: seq<string>)
    requires Canonical(t) && e in t.entries && e.target.TreeTarget? && parts != []
    ensures IsDir(t, [e.name] + parts) <==> IsDir(e.target.tree, parts)
  {
    forall rest, v | rest != []
      ensures Has(t, [e.name] + parts + rest, v) <==> Has(e.target.tree, parts + rest, v)
    {
      assert [e.name] + parts + rest == [e.name] + (parts + rest);
      HasTree(t, e, parts + rest, v);
    }
  }

  // ----- Lookup against the staged map -----

  lemma {:induction false} JoinConcat(a: seq<string>, b: seq<string>)
    requires a != [] && b != []
    ensures Join(a + b) == Join(a) + "/" + Join(b)
    decreases |a|
  {
    assert (a + b)[1..] == a[1..] + b;
    if |a| > 1 {
      JoinConcat(a[1..], b);
    }
  }

  /** No staged path runs below another one. */
  ghost predicate NoStagedClash(staged: map<string, Leaf>) {
    forall p, q | p in staged && q in staged :: !StartsWith(q, p + "/")
  }

  ghost predicate NoHeldClash(t: Tree) {
    forall parts, rest, v, w | rest != [] && Has(t, parts, v) :: !Has(t, parts + rest, w)
  }

  lemma BuiltNoHeldClash(objs: set<ObjId>, root: Tree, staged: map<string, Leaf>)
    requires Built(objs, root, staged) && NoStagedClash(staged)
    ensures NoHeldClash(root)
  {
    forall parts, rest, v, w | rest != [] && Has(root, parts, v) ensures !Has(root, parts + rest, w) {
      assert StagedAt(staged, "", parts, v);
      assert Has(root, parts + rest, w) <==> StagedAt(staged, "", parts + rest, w);
      JoinConcat(parts, rest);
      assert StartsWith(Join(parts + rest), Join(parts) + "/");
      assert "" + Join(parts) == Join(parts) && "" + Join(parts + rest) == Join(parts + rest);
    }
  }

  lemma {:induction false} NoHeldClashNoClash(t: Tree)
    requires Canonical(t) && NoHeldClash(t)
    ensures NoClash(t)
    decreases t
  {
    forall e, f | e in t.entries && f in t.entries && e.name == f.name ensures e == f {
      FileNotDir(t, e, f);
      FileNotDir(t, f, e);
      EntryUnique(t, e, f);
    }
    forall e | e in t.entries && e.target.TreeTarget? ensures NoClash(e.target.tree) {
      forall parts, rest, v, w | rest != [] && Has(e.target.tree, parts, v)
        ensures !Has(e.target.tree, parts + rest, w)
      {
        HasTree(t, e, parts, v);
        HasTree(t, e, parts + rest, w);
        assert [e.name] + (parts + rest) == ([e.name] + parts) + rest;
      }
      NoHeldClashNoClash(e.target.tree);
    }
  }

  lemma FileNotDir(t: Tree, e: TreeEntry, f: TreeEntry)
    requires Canonical(t) && NoHeldClash(t) && e in t.entries && f in t.entries && e.name == f.name
    ensures f.target.TreeTarget? ==> e.target.TreeTarget?
  {
    if f.target.TreeTarget? {
      var rest, w := HasSome(f.target.tree);
      HasValid(f.target.tree, rest, w);
      HasTree(t, f, rest, w);
      if !e.target.TreeTarget? {
        HasLeaf(t, e.name, Leaf(e.target, e.sidecar));
      }
    }
  }

  lemma BuiltIsDir(objs: set<ObjId>, root: Tree, staged: map<string, Leaf>, path: string)
    requires Built(objs, root, staged)
    ensures IsDir(root, Split(path)) <==> exists q <- staged :: StartsWith(q, path + "/")
  {
    var parts := Split(path);
    JoinSplit(path);
    if rest, v :| rest != [] && Has(root, parts + rest, v) {
      var q := HeldIsStaged(objs, root, staged, path, rest, v);
    }
    if q :| q in staged && StartsWith(q, path + "/") {
      StagedIsHeld(objs, root, staged, path, q);
    }
  }

  lemma HeldIsStaged(objs: set<ObjId>, root: Tree, staged: map<string, Leaf>, path: string, rest: seq<string>,
      v: Leaf)
    returns (q: string)
    requires Built(objs, root, staged) && rest != [] && Has(root, Split(path) + rest, v)
    ensures q in staged && StartsWith(q, path + "/")
  {
    var parts := Split(path);
    assert StagedAt(staged, "", parts + rest, v);
    hide Has, Split, Canonical, Holds;
    JoinSplit(path);
    JoinConcat(parts, rest);
    q := "" + Join(parts + rest);
    assert q == path + "/" + Join(rest);
  }

  lemma StagedIsHeld(objs: set<ObjId>, root: Tree, staged: map<string, Leaf>, path: string, q: string)
    requires Built(objs, root, staged) && q in staged && StartsWith(q, path + "/")
    ensures IsDir(root, Split(path))
  {
    var parts, tail := Split(path), q[|path| + 1..];
    hide Has, Split, Canonical;
    JoinSplit(path);
    JoinSplit(tail);
    JoinConcat(parts, Split(tail));
    assert q == path + "/" + tail;
    assert "" + Join(parts + Split(tail)) == q;
    assert StagedAt(staged, "", parts + Split(tail), staged[q]);
  }

  /** Stripped of slashes at both ends, the path names something. */
  predicate Plain(path: string) {
    Strip(path) != "" && Strip(path) != "."
  }

  /**
   Lookup refines flattening: on a tree built from clash-free paths it answers, for any path stripped of
   slashes at both ends, a file exactly where one is staged, a directory exactly above the staged paths,
   and otherwise nothing.
   */
  lemma LookupRefinesFlat(objs: set<ObjId>, root: Tree, staged: map<string, Leaf>, path: string)
    requires Built(objs, root, staged) && NoStagedClash(staged)
    ensures var r := ResolvePath(objs, root, path);
      && (forall v: Leaf :: r == Some(Found(v.target, v.sidecar)) <==> Plain(path) && Maps(staged, Strip(path), v))
      && (r.Some? && r.value.target.TreeTarget? <==>
        Plain(path) && exists q <- staged :: StartsWith(q, Strip(path) + "/"))
  {
    if Plain(path) {
      LookupStripped(objs, root, staged, Strip(path));
    }
  }

  lemma LookupStripped(objs: set<ObjId>, root: Tree, staged: map<string, Leaf>, path: string)
    requires Built(objs, root, staged) && NoStagedClash(staged)
    ensures var r := Resolve(objs, root, Split(path));
      && (forall v: Leaf :: r == Some(Found(v.target, v.sidecar)) <==> Maps(staged, path, v))
      && (r.Some? && r.value.target.TreeTarget? <==> exists q <- staged :: StartsWith(q, path + "/"))
  {
    BuiltNoHeldClash(objs, root, staged);
    NoHeldClashNoClash(root);
    ResolveMeaning(objs, root, Split(path));
    BuiltIsDir(objs, root, staged, path);
    forall v: Leaf ensures Has(root, Split(path), v) <==> Maps(staged, path, v) {
      BuiltHas(objs, root, staged, path, v);
    }
    hide *;
  }
}
