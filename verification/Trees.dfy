/**
 Nested trees: building one from a flat map of paths, flattening it back, and looking up one path.
 */
module Trees {
  import opened Objects
  import opened Paths

  /** A staged file, and what flattening yields: a manifest or a blob, with its sidecar if any. */
  type LeafTarget = t: Target | !t.TreeTarget? witness BlobTarget("")

  datatype Leaf = Leaf(target: LeafTarget, sidecar: Option<string>)

  // ----- Trees as finite maps from lists of names to leaves -----

  /** The tree holds leaf `v` at the end of the names `parts`. */
  predicate Has(t: Tree, parts: seq<string>, v: Leaf)
    decreases |parts|
  {
    parts != [] && exists e <- t.entries :: EntryHas(e, parts, v)
  }

  predicate EntryHas(e: TreeEntry, parts: seq<string>, v: Leaf)
    requires parts != []
    decreases |parts|, 0
  {
    && e.name == parts[0]
    && if e.target.TreeTarget? then Has(e.target.tree, parts[1..], v)
       else |parts| == 1 && v == Leaf(e.target, e.sidecar)
  }

  /** The order of entries: by name, a file before a directory of the same name. */
  predicate EntryLess(a: TreeEntry, b: TreeEntry) {
    Less(a.name, b.name) || (a.name == b.name && !a.target.TreeTarget? && b.target.TreeTarget?)
  }

  /** What the builder produces: plain names, strictly ordered entries, no empty directories. */
  ghost predicate Canonical(t: Tree) {
    && (forall i, j | 0 <= i < j < |t.entries| :: EntryLess(t.entries[i], t.entries[j]))
    && (forall e <- t.entries :: '/' !in e.name)
    && (forall e <- t.entries | e.target.TreeTarget? ::
          e.sidecar.None? && e.target.tree.entries != [] && Canonical(e.target.tree))
  }

  /** The tree objects that make up a tree. */
  function SubTrees(t: Tree): set<ObjId> {
    {TreeId(t)} + set e, x | e in t.entries && e.target.TreeTarget? && x in SubTrees(e.target.tree) :: x
  }

  lemma {:induction false} HasValid(t: Tree, parts: seq<string>, v: Leaf)
    requires Canonical(t) && Has(t, parts, v)
    ensures ValidParts(parts)
    decreases |parts|
  {
    var e :| e in t.entries && EntryHas(e, parts, v);
    assert parts == [parts[0]] + parts[1..];
    if e.target.TreeTarget? {
      HasValid(e.target.tree, parts[1..], v);
    }
  }

  /** A canonical tree with an entry holds a leaf. */
  lemma {:induction false} HasSome(t: Tree) returns (parts: seq<string>, v: Leaf)
    requires Canonical(t) && t.entries != []
    ensures Has(t, parts, v)
    decreases t
  {
    var e := t.entries[0];
    if e.target.TreeTarget? {
      var rest;
      rest, v := HasSome(e.target.tree);
      parts := [e.name] + rest;
      assert parts[1..] == rest;
    } else {
      parts, v := [e.name], Leaf(e.target, e.sidecar);
    }
    assert EntryHas(e, parts, v);
  }

  lemma EntryLessStrict(a: TreeEntry, b: TreeEntry)
    ensures !(EntryLess(a, b) && EntryLess(b, a)) && !EntryLess(a, a)
  {
    LessTotal(a.name, b.name);
  }

  lemma EntryLessTrans(a: TreeEntry, b: TreeEntry, c: TreeEntry)
    requires EntryLess(a, b) && EntryLess(b, c)
    ensures EntryLess(a, c)
  {
    if Less(a.name, b.name) && Less(b.name, c.name) {
      LessTrans(a.name, b.name, c.name);
    }
  }

  /** A canonical tree has at most one entry per name and kind. */
  lemma EntryUnique(t: Tree, e: TreeEntry, f: TreeEntry)
    requires Canonical(t) && e in t.entries && f in t.entries
    requires e.name == f.name && e.target.TreeTarget? == f.target.TreeTarget?
    ensures e == f
  {
    LessTotal(e.name, f.name);
  }

  /** One name leads to a file. */
  lemma HasLeaf(t: Tree, name: string, v: Leaf)
    requires Canonical(t)
    ensures Has(t, [name], v) <==> exists e <- t.entries ::
      e.name == name && !e.target.TreeTarget? && v == Leaf(e.target, e.sidecar)
  {
    assert [name][1..] == [];
    forall e | e in t.entries
      ensures EntryHas(e, [name], v) <==> e.name == name && !e.target.TreeTarget? && v == Leaf(e.target, e.sidecar)
    {
    }
  }

  /** More names lead through the directory with the first name. */
  lemma HasTree(t: Tree, e: TreeEntry, rest: seq<string>, v: Leaf)
    requires Canonical(t) && e in t.entries && e.target.TreeTarget? && rest != []
    ensures Has(t, [e.name] + rest, v) <==> Has(e.target.tree, rest, v)
  {
    var parts := [e.name] + rest;
    assert parts[1..] == rest;
    assert EntryHas(e, parts, v) <==> Has(e.target.tree, rest, v);
    if Has(t, parts, v) {
      var f :| f in t.entries && EntryHas(f, parts, v);
      EntryUnique(t, e, f);
    }
  }

  lemma HasTreeEntry(t: Tree, parts: seq<string>, v: Leaf) returns (e: TreeEntry)
    requires Has(t, parts, v) && |parts| > 1
    ensures e in t.entries && e.target.TreeTarget? && e.name == parts[0] && Has(e.target.tree, parts[1..], v)
  {
    e :| e in t.entries && EntryHas(e, parts, v);
  }

  lemma {:induction false} HasUnique(t: Tree, parts: seq<string>, v: Leaf, w: Leaf)
    requires Canonical(t) && Has(t, parts, v) && Has(t, parts, w)
    ensures v == w
    decreases |parts|
  {
    if |parts| == 1 {
      assert parts == [parts[0]];
      HasLeaf(t, parts[0], v);
      HasLeaf(t, parts[0], w);
      var e :| e in t.entries && e.name == parts[0] && !e.target.TreeTarget? && v == Leaf(e.target, e.sidecar);
      var f :| f in t.entries && f.name == parts[0] && !f.target.TreeTarget? && w == Leaf(f.target, f.sidecar);
      EntryUnique(t, e, f);
    } else {
      var e := HasTreeEntry(t, parts, v);
      var f := HasTreeEntry(t, parts, w);
      EntryUnique(t, e, f);
      HasUnique(e.target.tree, parts[1..], v, w);
    }
  }

  // ----- Canonical trees are determined by the leaves they hold -----

  lemma {:induction false} SortedUnique(a: seq<TreeEntry>, b: seq<TreeEntry>)
    requires forall i, j | 0 <= i < j < |a| :: EntryLess(a[i], a[j])
    requires forall i, j | 0 <= i < j < |b| :: EntryLess(b[i], b[j])
    requires forall e :: e in a <==> e in b
    ensures a == b
  {
    assert a != [] ==> a[0] in a;
    assert b != [] ==> b[0] in b;
    if a != [] && b != [] {
      EntryLessStrict(a[0], b[0]);
      assert a[0] == b[0];
      forall e ensures e in a[1..] <==> e in b[1..] {
        assert e in a <==> e == a[0] || e in a[1..];
        assert e in b <==> e == b[0] || e in b[1..];
        EntryLessStrict(a[0], a[0]);
      }
      SortedUnique(a[1..], b[1..]);
    }
  }

  /** Two canonical trees that hold the same leaves are the same tree, so they have the same hash. */
  lemma {:induction false} CanonicalUnique(s: Tree, t: Tree)
    requires Canonical(s) && Canonical(t)
    requires forall parts, v :: Has(s, parts, v) <==> Has(t, parts, v)
    ensures s == t
    decreases s
  {
    forall e | e in s.entries ensures e in t.entries { SameEntry(s, t, e); }
    forall f | f in t.entries ensures f in s.entries {
      var e := Counterpart(t, s, f);
      SameEntry(s, t, e);
      EntryUnique(t, e, f);
    }
    SortedUnique(s.entries, t.entries);
  }

  /** The other tree has an entry of the same name and kind. */
  lemma Counterpart(s: Tree, t: Tree, e: TreeEntry) returns (f: TreeEntry)
    requires Canonical(s) && Canonical(t) && e in s.entries
    requires forall parts, v :: Has(s, parts, v) <==> Has(t, parts, v)
    ensures f in t.entries && f.name == e.name && f.target.TreeTarget? == e.target.TreeTarget?
    ensures !e.target.TreeTarget? ==> f == e
  {
    if e.target.TreeTarget? {
      var rest, v := HasSome(e.target.tree);
      HasValid(e.target.tree, rest, v);
      HasTree(s, e, rest, v);
      f := HasTreeEntry(t, [e.name] + rest, v);
    } else {
      var v := Leaf(e.target, e.sidecar);
      HasLeaf(s, e.name, v);
      HasLeaf(t, e.name, v);
      f :| f in t.entries && f.name == e.name && !f.target.TreeTarget? && v == Leaf(f.target, f.sidecar);
    }
  }

  lemma {:induction false} SameEntry(s: Tree, t: Tree, e: TreeEntry)
    requires Canonical(s) && Canonical(t) && e in s.entries
    requires forall parts, v :: Has(s, parts, v) <==> Has(t, parts, v)
    ensures e in t.entries
    decreases s, 0
  {
    var f := Counterpart(s, t, e);
    if e.target.TreeTarget? {
      forall q, w ensures Has(e.target.tree, q, w) <==> Has(f.target.tree, q, w) {
        if q != [] {
          HasTree(s, e, q, w);
          HasTree(t, f, q, w);
        }
      }
      CanonicalUnique(e.target.tree, f.target.tree);
    }
  }
}
