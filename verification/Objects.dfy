/**
 The content-addressed object graph: commit -> tree -> manifest -> row.

 A SHA-256 hash is identified with the content it names, so two objects share a hash exactly when
 they are equal and no object can mention itself.  A store is the finite set of the objects it
 holds; a dangling reference is an object outside that set.
 */
module Objects {

  datatype Option<+T> = None | Some(value: T)

  /** A row.  Its fingerprint (the hash of its user messages) is a function of the row. */
  datatype Row = Row(text: string, fingerprint: Option<string>)

  datatype ManifestEntry = ManifestEntry(row: Row, fp: Option<string>)

  datatype Manifest = Manifest(entries: seq<ManifestEntry>)

  datatype Target = ManifestTarget(manifest: Manifest) | TreeTarget(tree: Tree) | BlobTarget(blob: string)

  datatype TreeEntry = TreeEntry(name: string, target: Target, sidecar: Option<string>)

  datatype Tree = Tree(entries: seq<TreeEntry>)

  datatype Commit = Commit(tree: Tree, parents: seq<Commit>, author: string, message: string, timestamp: int)

  /** The key of a stored object: its directory in the store together with its hash. */
  datatype ObjId =
    | CommitId(commit: Commit)
    | TreeId(tree: Tree)
    | ManifestId(manifest: Manifest)
    | RowId(row: Row)
    | SidecarId(sidecar: string)
    | BlobId(blob: string)

  /** Python's truth test on an optional string: None and "" are both false. */
  predicate Truthy(s: Option<string>) {
    s.Some? && s.value != ""
  }

  /** The fingerprint recorded in a manifest entry is the one of its row. */
  predicate Honest(m: seq<ManifestEntry>) {
    forall e <- m :: e.fp == e.row.fingerprint
  }

  function TargetId(t: Target): ObjId {
    match t
    case ManifestTarget(m) => ManifestId(m)
    case TreeTarget(t) => TreeId(t)
    case BlobTarget(b) => BlobId(b)
  }

  /** The objects that an object names in its own bytes. */
  function Refs(o: ObjId): set<ObjId> {
    match o
    case CommitId(c) => {TreeId(c.tree)} + (set p <- c.parents :: CommitId(p))
    case TreeId(t) =>
      (set e <- t.entries :: TargetId(e.target))
      + (set e <- t.entries | Truthy(e.sidecar) :: SidecarId(e.sidecar.value))
    case ManifestId(m) => set e <- m.entries :: RowId(e.row)
    case RowId(_) => {}
    case SidecarId(_) => {}
    case BlobId(_) => {}
  }

  /**
   What each kind of object names: a commit its tree and parents, a tree the targets and true sidecars of its
   entries, a manifest its rows, and nothing else anything.
   */
  lemma RefsMeaning(x: ObjId, o: ObjId)
    ensures o in Refs(x) <==>
      match x
      case CommitId(c) => o == TreeId(c.tree) || (o.CommitId? && o.commit in c.parents)
      case TreeId(t) => exists e <- t.entries ::
        (match e.target
         case ManifestTarget(m) => o == ManifestId(m)
         case TreeTarget(u) => o == TreeId(u)
         case BlobTarget(b) => o == BlobId(b)) ||
        (e.sidecar.Some? && e.sidecar.value != "" && o == SidecarId(e.sidecar.value))
      case ManifestId(m) => o.RowId? && exists e <- m.entries :: e.row == o.row
      case _ => false
  {
  }

  // ----- Reachability through the objects that are present -----

  /** Everything named from a tree, following references only out of objects in `objs`. */
  function ReachTree(objs: set<ObjId>, t: Tree): set<ObjId> {
    {TreeId(t)} +
    if TreeId(t) !in objs then {} else
      Refs(TreeId(t)) + (set e, x | e in t.entries && x in ReachTarget(objs, e.target) :: x)
  }

  function ReachTarget(objs: set<ObjId>, t: Target): set<ObjId> {
    match t
    case ManifestTarget(m) => ReachManifest(objs, m)
    case TreeTarget(t) => ReachTree(objs, t)
    case BlobTarget(b) => {BlobId(b)}
  }

  function ReachManifest(objs: set<ObjId>, m: Manifest): set<ObjId> {
    {ManifestId(m)} + if ManifestId(m) !in objs then {} else Refs(ManifestId(m))
  }

  function ReachCommit(objs: set<ObjId>, c: Commit): set<ObjId> {
    {CommitId(c)} +
    if CommitId(c) !in objs then {} else
      ReachTree(objs, c.tree) + (set p, x | p in c.parents && x in ReachCommit(objs, p) :: x)
  }

  /** The objects reachable from `o`: `o` itself, and whatever a reachable present object names. */
  function Reach(objs: set<ObjId>, o: ObjId): set<ObjId> {
    match o
    case CommitId(c) => ReachCommit(objs, c)
    case TreeId(t) => ReachTree(objs, t)
    case ManifestId(m) => ReachManifest(objs, m)
    case _ => {o}
  }

  function ReachAll(objs: set<ObjId>, roots: set<ObjId>): set<ObjId> {
    set r, x | r in roots && x in Reach(objs, r) :: x
  }

  /** `s` contains every reference of those of its members that are present in `objs`. */
  ghost predicate Closed(objs: set<ObjId>, s: set<ObjId>) {
    forall o | o in s && o in objs :: Refs(o) <= s
  }

  /** A store none of whose objects refers outside the store. */
  ghost predicate DownClosed(objs: set<ObjId>) {
    Closed(objs, objs)
  }

  /** The whole closure of `o` is present. */
  ghost predicate Complete(objs: set<ObjId>, o: ObjId) {
    Reach(objs, o) <= objs
  }

  lemma ReachTreeClosed(objs: set<ObjId>, t: Tree)
    ensures Closed(objs, ReachTree(objs, t))
  {
    forall o | o in ReachTree(objs, t) && o in objs
      ensures Refs(o) <= ReachTree(objs, t)
    {
      assert forall e <- t.entries :: TargetId(e.target) in ReachTarget(objs, e.target);
      if e :| e in t.entries && o in ReachTarget(objs, e.target) {
        if e.target.TreeTarget? {
          ReachTreeClosed(objs, e.target.tree);
        }
        assert Refs(o) <= ReachTarget(objs, e.target);
      }
    }
  }

  lemma ReachCommitClosed(objs: set<ObjId>, c: Commit)
    ensures Closed(objs, ReachCommit(objs, c))
  {
    forall o | o in ReachCommit(objs, c) && o in objs
      ensures Refs(o) <= ReachCommit(objs, c)
    {
      if o in ReachTree(objs, c.tree) {
        ReachTreeClosed(objs, c.tree);
      } else if o != CommitId(c) {
        var p :| p in c.parents && o in ReachCommit(objs, p);
        ReachCommitClosed(objs, p);
      } else {
        forall p | p in c.parents
          ensures CommitId(p) in ReachCommit(objs, c)
        {
          assert CommitId(p) in ReachCommit(objs, p);
        }
      }
    }
  }

  /** Reach is closed. */
  lemma ReachClosed(objs: set<ObjId>, o: ObjId)
    ensures o in Reach(objs, o)
    ensures Closed(objs, Reach(objs, o))
  {
    match o
    case CommitId(c) => ReachCommitClosed(objs, c);
    case TreeId(t) => ReachTreeClosed(objs, t);
    case _ =>
  }

  lemma ReachTreeLeast(objs: set<ObjId>, t: Tree, s: set<ObjId>)
    requires TreeId(t) in s && Closed(objs, s)
    ensures ReachTree(objs, t) <= s
  {
    if TreeId(t) in objs {
      forall e, x | e in t.entries && x in ReachTarget(objs, e.target)
        ensures x in s
      {
        assert TargetId(e.target) in Refs(TreeId(t)) && Refs(TreeId(t)) <= s;
        if e.target.TreeTarget? {
          ReachTreeLeast(objs, e.target.tree, s);
        }
      }
    }
  }

  lemma ReachCommitLeast(objs: set<ObjId>, c: Commit, s: set<ObjId>)
    requires CommitId(c) in s && Closed(objs, s)
    ensures ReachCommit(objs, c) <= s
  {
    if CommitId(c) in objs {
      assert Refs(CommitId(c)) <= s;
      ReachTreeLeast(objs, c.tree, s);
      forall p, x | p in c.parents && x in ReachCommit(objs, p)
        ensures x in s
      {
        assert CommitId(p) in Refs(CommitId(c));
        ReachCommitLeast(objs, p, s);
      }
    }
  }

  /** Reach is the least closed set containing its root. */
  lemma ReachLeast(objs: set<ObjId>, o: ObjId, s: set<ObjId>)
    requires o in s && Closed(objs, s)
    ensures Reach(objs, o) <= s
  {
    match o
    case CommitId(c) => ReachCommitLeast(objs, c, s);
    case TreeId(t) => ReachTreeLeast(objs, t, s);
    case _ =>
  }

  // ----- Consequences of "least closed set" -----

  lemma ReachTrans(objs: set<ObjId>, a: ObjId, b: ObjId)
    requires b in Reach(objs, a)
    ensures Reach(objs, b) <= Reach(objs, a)
  {
    ReachClosed(objs, a);
    ReachLeast(objs, b, Reach(objs, a));
  }

  lemma ReachMono(small: set<ObjId>, big: set<ObjId>, o: ObjId)
    requires small <= big
    ensures Reach(small, o) <= Reach(big, o)
  {
    ReachClosed(big, o);
    ReachLeast(small, o, Reach(big, o));
  }

  /** Only the reachable part of the store matters. */
  lemma ReachFrame(a: set<ObjId>, b: set<ObjId>, o: ObjId)
    requires a * Reach(a, o) == b * Reach(a, o)
    ensures Reach(a, o) == Reach(b, o)
  {
    ReachClosed(a, o);
    ReachClosed(b, o);
    assert forall x | x in Reach(a, o) && x in b :: x in b * Reach(a, o);
    ReachLeast(b, o, Reach(a, o));
    assert forall x | x in Reach(b, o) && x in a :: x in a * Reach(a, o);
    ReachLeast(a, o, Reach(b, o));
  }

  /** A complete closure stays complete, and stays the same, when objects are added. */
  lemma CompleteGrows(small: set<ObjId>, big: set<ObjId>, o: ObjId)
    requires small <= big && Complete(small, o)
    ensures Complete(big, o) && Reach(big, o) == Reach(small, o)
  {
    assert small * Reach(small, o) == big * Reach(small, o);
    ReachFrame(small, big, o);
  }

  /** A complete closure is the same set in every store that has all of it. */
  lemma CompleteAgree(a: set<ObjId>, b: set<ObjId>, o: ObjId)
    requires Complete(a, o) && Complete(b, o)
    ensures Reach(a, o) == Reach(b, o)
  {
    var both := Reach(a, o) * Reach(b, o);
    ReachClosed(a, o);
    ReachClosed(b, o);
    ReachLeast(a, o, both);
    ReachLeast(b, o, both);
  }

  lemma CompletePart(objs: set<ObjId>, a: ObjId, b: ObjId)
    requires Complete(objs, a) && b in Reach(objs, a)
    ensures Complete(objs, b)
  {
    ReachTrans(objs, a, b);
  }

  /** An object is complete as soon as it is present and all it names is complete. */
  lemma CompleteStep(objs: set<ObjId>, o: ObjId)
    requires o in objs && forall r <- Refs(o) :: Complete(objs, r)
    ensures Complete(objs, o)
  {
    var s := {o} + ReachAll(objs, Refs(o));
    forall x | x in s && x in objs
      ensures Refs(x) <= s
    {
      if x == o {
        forall r | r in Refs(o) ensures r in s { ReachClosed(objs, r); }
      } else {
        var r :| r in Refs(o) && x in Reach(objs, r);
        ReachClosed(objs, r);
      }
    }
    ReachLeast(objs, o, s);
  }

  // ----- Ancestry -----

  function Ancestors(objs: set<ObjId>, c: Commit): set<Commit> {
    {c} + if CommitId(c) !in objs then {} else set p, x | p in c.parents && x in Ancestors(objs, p) :: x
  }

  /** `s` contains the parents of those of its commits that are present. */
  ghost predicate ParentClosed(objs: set<ObjId>, s: set<Commit>) {
    forall c, p | c in s && CommitId(c) in objs && p in c.parents :: p in s
  }

  lemma AncestorsClosed(objs: set<ObjId>, c: Commit)
    ensures c in Ancestors(objs, c)
    ensures ParentClosed(objs, Ancestors(objs, c))
  {
    forall x, q | x in Ancestors(objs, c) && CommitId(x) in objs && q in x.parents
      ensures q in Ancestors(objs, c)
    {
      if x == c {
        assert q in Ancestors(objs, q);
      } else {
        var p :| p in c.parents && x in Ancestors(objs, p);
        AncestorsClosed(objs, p);
        assert q in Ancestors(objs, p);
      }
    }
  }

  lemma AncestorsLeast(objs: set<ObjId>, c: Commit, s: set<Commit>)
    requires c in s && ParentClosed(objs, s)
    ensures Ancestors(objs, c) <= s
  {
    if CommitId(c) in objs {
      forall p, x | p in c.parents && x in Ancestors(objs, p) ensures x in s {
        AncestorsLeast(objs, p, s);
      }
    }
  }

  lemma AncestorsTrans(objs: set<ObjId>, a: Commit, b: Commit)
    requires b in Ancestors(objs, a)
    ensures Ancestors(objs, b) <= Ancestors(objs, a)
  {
    AncestorsClosed(objs, a);
    AncestorsLeast(objs, b, Ancestors(objs, a));
  }

  lemma AncestorsMono(small: set<ObjId>, big: set<ObjId>, c: Commit)
    requires small <= big
    ensures Ancestors(small, c) <= Ancestors(big, c)
  {
    AncestorsClosed(big, c);
    AncestorsLeast(small, c, Ancestors(big, c));
  }

  /** An ancestor is a proper part of its descendant, so ancestry has no cycles. */
  lemma AncestorsSmaller(objs: set<ObjId>, c: Commit, x: Commit)
    requires x in Ancestors(objs, c)
    ensures x == c || x < c
  {
    if x != c {
      var p :| p in c.parents && x in Ancestors(objs, p);
      AncestorsSmaller(objs, p, x);
    }
  }

  /** The ancestors are exactly the commits of the closure. */
  lemma AncestorsReach(objs: set<ObjId>, c: Commit, x: Commit)
    ensures x in Ancestors(objs, c) <==> CommitId(x) in Reach(objs, CommitId(c))
  {
    if x == c {
    } else if CommitId(c) in objs {
      forall p | p in c.parents
        ensures x in Ancestors(objs, p) <==> CommitId(x) in ReachCommit(objs, p)
      {
        AncestorsReach(objs, p, x);
      }
      ReachTreeNoCommit(objs, c.tree, x);
    }
  }

  lemma ReachTreeNoCommit(objs: set<ObjId>, t: Tree, x: Commit)
    ensures CommitId(x) !in ReachTree(objs, t)
  {
    forall e | e in t.entries && e.target.TreeTarget?
      ensures CommitId(x) !in ReachTarget(objs, e.target)
    {
      ReachTreeNoCommit(objs, e.target.tree, x);
    }
  }
}
