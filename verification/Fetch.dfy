/** Fetching the history of a remote commit into a local store. */
module Fetch {
  import opened Objects
  import opened Store
  import opened Walker

  const BATCH: nat := 200

  function Present(remote: set<ObjId>, ids: seq<ObjId>): set<ObjId> {
    set o <- ids | o in remote
  }

  /** Download in batches; what the remote lacks is passed over. */
  method BatchDownload(remote: set<ObjId>, store: ObjectStore, ids: seq<ObjId>, now: int)
    modifies store
    ensures store.Objs() == old(store.Objs()) + Present(remote, ids)
  {
    var i := 0;
    while i < |ids|
      invariant 0 <= i <= |ids|
      invariant store.Objs() == old(store.Objs()) + Present(remote, ids[..i])
    {
      var end := if i + BATCH <= |ids| then i + BATCH else |ids|;
      for j := i to end
        invariant store.Objs() == old(store.Objs()) + Present(remote, ids[..j])
      {
        assert ids[..j + 1] == ids[..j] + [ids[j]];
        if ids[j] in remote {
          store.Write(ids[j], now);
        }
      }
      i := end;
    }
    assert ids[..|ids|] == ids;
  }

  /** What a tree walk has found missing locally. */
  datatype Wanted = Wanted(manifests: seq<ObjId>, sidecars: seq<ObjId>, blobs: seq<ObjId>)

  function All(w: Wanted): set<ObjId> {
    (set o <- w.manifests) + (set o <- w.sidecars) + (set o <- w.blobs)
  }

  ghost predicate Kinds(w: Wanted) {
    && (forall o <- w.manifests :: o.ManifestId?)
    && (forall o <- w.sidecars :: o.SidecarId?)
    && (forall o <- w.blobs :: o.BlobId?)
  }

  /** The references that a fetch follows: all but sidecars attached to anything other than a manifest. */
  function Pursued(o: ObjId): set<ObjId> {
    if o.TreeId? then
      (set e <- o.tree.entries :: TargetId(e.target))
      + (set e <- o.tree.entries | e.target.ManifestTarget? && Truthy(e.sidecar) :: SidecarId(e.sidecar.value))
    else Refs(o)
  }

  /** The sidecars that a fetch does not look for. */
  function Strays(o: ObjId): set<ObjId> {
    if o.TreeId? then
      set e <- o.tree.entries | !e.target.ManifestTarget? && Truthy(e.sidecar) :: SidecarId(e.sidecar.value)
    else {}
  }

  function AllStrays(objs: set<ObjId>): set<ObjId> {
    set o, x | o in objs && x in Strays(o) :: x
  }

  lemma PursuedOrStray(o: ObjId)
    ensures Refs(o) == Pursued(o) + Strays(o) && Pursued(o) <= Refs(o)
    ensures forall x <- Strays(o) :: Refs(x) == {}
    ensures o.ManifestId? ==> Pursued(o) == Refs(o)
  {
  }

  /** Everything to follow from the object is here or wanted. */
  ghost predicate Covered(objs: set<ObjId>, wanted: set<ObjId>, o: ObjId) {
    Pursued(o) <= objs + wanted
  }

  /** The step from one state of a tree walk to a later one, as far as the remote is complete for `roots`. */
  ghost predicate Walked(remote: set<ObjId>, objs: set<ObjId>, w: Wanted, objs': set<ObjId>, w': Wanted) {
    && objs <= objs' && objs' <= objs + remote
    && All(w) <= All(w') && (Kinds(w) ==> Kinds(w'))
    && (forall o <- objs' :: o in objs || o.TreeId?)
  }

  /** New trees are covered, and what is newly wanted can be had. */
  ghost predicate Sound(remote: set<ObjId>, objs: set<ObjId>, w: Wanted, objs': set<ObjId>, w': Wanted) {
    && (forall o <- objs' :: o in objs || Covered(objs', All(w'), o))
    && (forall o <- All(w') :: o in All(w) || Complete(remote, o))
  }

  lemma SoundTrans(remote: set<ObjId>, a: set<ObjId>, u: Wanted, b: set<ObjId>, v: Wanted, c: set<ObjId>, w: Wanted)
    requires Sound(remote, a, u, b, v) && Sound(remote, b, v, c, w) && b <= c && All(v) <= All(w)
    ensures Sound(remote, a, u, c, w)
  {
    forall o | o in c ensures o in a || Covered(c, All(w), o) {
      if o in b && o !in a { assert Covered(b, All(v), o); }
    }
  }

  method WantEntry(store: ObjectStore, e: TreeEntry, w: Wanted) returns (w': Wanted)
    ensures All(w) <= All(w') && (Kinds(w) ==> Kinds(w'))
    ensures !e.target.TreeTarget? ==> TargetId(e.target) in store.Objs() + All(w')
    ensures e.target.ManifestTarget? && Truthy(e.sidecar) ==> SidecarId(e.sidecar.value) in store.Objs() + All(w')
    ensures forall o <- All(w') ::
      o in All(w) || (o == TargetId(e.target) && !o.TreeId?) ||
      (e.target.ManifestTarget? && Truthy(e.sidecar) && o == SidecarId(e.sidecar.value))
  {
    w' := w;
    match e.target
    case ManifestTarget(m) =>
      if ManifestId(m) !in store.Objs() {
        w' := w'.(manifests := w'.manifests + [ManifestId(m)]);
      }
      if Truthy(e.sidecar) && SidecarId(e.sidecar.value) !in store.Objs() {
        w' := w'.(sidecars := w'.sidecars + [SidecarId(e.sidecar.value)]);
      }
    case TreeTarget(_) =>
    case BlobTarget(b) =>
      if BlobId(b) !in store.Objs() {
        w' := w'.(blobs := w'.blobs + [BlobId(b)]);
      }
  }

  lemma EntryComplete(remote: set<ObjId>, t: Tree, e: TreeEntry)
    requires Complete(remote, TreeId(t)) && e in t.entries
    ensures TreeId(t) in remote && Complete(remote, TargetId(e.target))
    ensures Truthy(e.sidecar) ==> Complete(remote, SidecarId(e.sidecar.value))
  {
    ReachClosed(remote, TreeId(t));
    assert TargetId(e.target) in Refs(TreeId(t));
    CompletePart(remote, TreeId(t), TargetId(e.target));
    if Truthy(e.sidecar) {
      assert SidecarId(e.sidecar.value) in Refs(TreeId(t));
      CompletePart(remote, TreeId(t), SidecarId(e.sidecar.value));
    }
  }

  /** Walk a tree depth first, downloading tree objects and collecting what else is missing. */
  method WalkTree(remote: set<ObjId>, store: ObjectStore, t: Tree, w: Wanted, now: int) returns (w': Wanted)
    modifies store
    ensures Walked(remote, old(store.Objs()), w, store.Objs(), w')
    ensures Complete(remote, TreeId(t)) ==>
      TreeId(t) in store.Objs() && Sound(remote, old(store.Objs()), w, store.Objs(), w')
    decreases t
  {
    hide Reach, Refs, Pursued;
    w' := w;
    ghost var start := store.Objs();
    if TreeId(t) !in store.Objs() {
      if TreeId(t) !in remote {
        ReachClosed(remote, TreeId(t));
        return;
      }
      store.Write(TreeId(t), now);
    }
    ghost var good := Complete(remote, TreeId(t));
    w' := WalkEntries(remote, store, t, w, now, good);
    if good {
      Entered(remote, start, t, w, store.Objs(), w');
    }
  }

  /** The tree just entered is covered once all its entries are. */
  lemma Entered(remote: set<ObjId>, start: set<ObjId>, t: Tree, w: Wanted, objs: set<ObjId>, w': Wanted)
    requires Complete(remote, TreeId(t))
    requires Sound(remote, start + {TreeId(t)}, w, objs, w')
    requires forall e <- t.entries :: EntryCovered(objs, w', e)
    ensures Sound(remote, start, w, objs, w')
  {
    ReachClosed(remote, TreeId(t));
    assert TreeId(t) in remote;
    assert Covered(objs, All(w'), TreeId(t));
  }

  ghost predicate EntryCovered(objs: set<ObjId>, w: Wanted, e: TreeEntry) {
    && TargetId(e.target) in objs + All(w)
    && (e.target.ManifestTarget? && Truthy(e.sidecar) ==> SidecarId(e.sidecar.value) in objs + All(w))
  }

  method WalkEntries(remote: set<ObjId>, store: ObjectStore, t: Tree, w: Wanted, now: int, ghost good: bool)
    returns (w': Wanted)
    requires good ==> Complete(remote, TreeId(t))
    modifies store
    ensures Walked(remote, old(store.Objs()), w, store.Objs(), w')
    ensures good ==> Sound(remote, old(store.Objs()), w, store.Objs(), w')
    ensures good ==> forall e <- t.entries :: EntryCovered(store.Objs(), w', e)
    decreases t, 0
  {
    hide Reach, Complete, Refs, Pursued, All, Kinds;
    w' := w;
    ghost var start := store.Objs();
    for i := 0 to |t.entries|
      invariant Walked(remote, start, w, store.Objs(), w')
      invariant good ==> Sound(remote, start, w, store.Objs(), w')
      invariant good ==> forall e <- t.entries[..i] :: EntryCovered(store.Objs(), w', e)
    {
      var e := t.entries[i];
      assert e in t.entries && t.entries[..i + 1] == t.entries[..i] + [e];
      ghost var objs, v := store.Objs(), w';
      if good { EntryComplete(remote, t, e); }
      if e.target.TreeTarget? {
        w' := WalkTree(remote, store, e.target.tree, w', now);
      } else {
        w' := WantEntry(store, e, w');
        if good { WantedSound(remote, objs, e, v, w'); }
      }
      if good {
        SoundTrans(remote, start, w, objs, v, store.Objs(), w');
        forall f | f in t.entries[..i] ensures EntryCovered(store.Objs(), w', f) {
          assert EntryCovered(objs, v, f);
        }
      }
    }
    assert t.entries[..|t.entries|] == t.entries;
  }

  lemma WantedSound(remote: set<ObjId>, objs: set<ObjId>, e: TreeEntry, v: Wanted, w: Wanted)
    requires Complete(remote, TargetId(e.target)) &&
      (Truthy(e.sidecar) ==> Complete(remote, SidecarId(e.sidecar.value)))
    requires forall o <- All(w) ::
      o in All(v) || (o == TargetId(e.target) && !o.TreeId?) ||
      (e.target.ManifestTarget? && Truthy(e.sidecar) && o == SidecarId(e.sidecar.value))
    ensures Sound(remote, objs, v, objs, w)
  {
  }

  // ----- One tree with everything below it -----

  /** Rows of the given manifests that are missing locally; each is asked for once. */
  method MissingRows(store: ObjectStore, manifests: seq<ObjId>) returns (rows: seq<ObjId>)
    requires forall o <- manifests :: o.ManifestId?
    ensures forall m, r | m in manifests && m in store.Objs() && r in Refs(m) :: r in store.Objs() || r in rows
    ensures forall r <- rows :: exists m <- manifests :: m in store.Objs() && r in Refs(m)
  {
    rows := [];
    for i := 0 to |manifests|
      invariant forall m, r | m in manifests[..i] && m in store.Objs() && r in Refs(m) :: r in store.Objs() || r in rows
      invariant forall r <- rows :: exists m <- manifests :: m in store.Objs() && r in Refs(m)
    {
      var mid := manifests[i];
      assert manifests[..i + 1] == manifests[..i] + [mid];
      assert mid in manifests;
      if mid !in store.Objs() {
        continue;
      }
      rows := AddRows(store, mid.manifest, rows);
    }
    assert manifests[..|manifests|] == manifests;
  }

  method AddRows(store: ObjectStore, m: Manifest, rows0: seq<ObjId>) returns (rows: seq<ObjId>)
    ensures forall r <- rows0 :: r in rows
    ensures forall r <- Refs(ManifestId(m)) :: r in store.Objs() || r in rows
    ensures forall r <- rows :: r in rows0 || r in Refs(ManifestId(m))
  {
    rows := rows0;
    for i := 0 to |m.entries|
      invariant forall r <- rows0 :: r in rows
      invariant forall e <- m.entries[..i] :: RowId(e.row) in store.Objs() || RowId(e.row) in rows
      invariant forall r <- rows :: r in rows0 || r in Refs(ManifestId(m))
    {
      var e := m.entries[i];
      assert e in m.entries && m.entries[..i + 1] == m.entries[..i] + [e];
      if RowId(e.row) !in rows && RowId(e.row) !in store.Objs() {
        rows := rows + [RowId(e.row)];
      }
    }
    assert m.entries[..|m.entries|] == m.entries;
  }

  /** Every tree and manifest of the store has what it names. */
  ghost predicate TreesClosed(objs: set<ObjId>) {
    forall o | o in objs && !o.CommitId? :: Pursued(o) <= objs
  }

  lemma CompletePresent(remote: set<ObjId>, o: ObjId)
    requires Complete(remote, o)
    ensures o in remote && Refs(o) <= remote
  {
    ReachClosed(remote, o);
  }

  /** Once all that was wanted and all missing rows are downloaded, nothing new dangles. */
  lemma TreeFetched(remote: set<ObjId>, start: set<ObjId>, walked: set<ObjId>, w: Wanted, mid: set<ObjId>,
      rows: seq<ObjId>, objs: set<ObjId>)
    requires TreesClosed(start) && Kinds(w) && Sound(remote, start, Wanted([], [], []), walked, w)
    requires start <= walked && mid == walked + Present(remote, w.manifests)
    requires forall m, r | m in w.manifests && m in mid && r in Refs(m) :: r in mid || r in rows
    requires forall r <- rows :: r.RowId?
    requires objs == mid + Present(remote, rows) + Present(remote, w.sidecars) + Present(remote, w.blobs)
    ensures TreesClosed(objs)
  {
    forall o | o in All(w) ensures o in objs && Refs(o) <= remote {
      CompletePresent(remote, o);
    }
    forall x | x in objs && !x.CommitId? ensures Pursued(x) <= objs {
      if x in start {
        assert Pursued(x) <= start;
      } else if x in walked {
        assert Covered(walked, All(w), x);
      } else if x.ManifestId? {
        assert x in w.manifests && x in mid;
        forall r | r in Refs(x) ensures r in objs {
          assert r in mid || r in rows;
          assert x in All(w) && r in remote;
        }
      }
    }
  }

  method FetchTreeObjects(remote: set<ObjId>, store: ObjectStore, t: Tree, now: int)
    modifies store
    ensures old(store.Objs()) <= store.Objs() <= old(store.Objs()) + remote
    ensures forall o <- store.Objs() :: o in old(store.Objs()) || !o.CommitId?
    ensures Complete(remote, TreeId(t)) && TreesClosed(old(store.Objs())) ==>
      TreesClosed(store.Objs()) && TreeId(t) in store.Objs()
  {
    hide Reach, Sound, TreesClosed;
    ghost var start := store.Objs();
    ghost var good := Complete(remote, TreeId(t)) && TreesClosed(start);
    var w := WalkTree(remote, store, t, Wanted([], [], []), now);
    assert Kinds(Wanted([], [], []));
    ghost var walked := store.Objs();
    BatchDownload(remote, store, w.manifests, now);
    var rows := MissingRows(store, w.manifests);
    ghost var mid := store.Objs();
    assert forall r <- rows :: r.RowId?;
    hide Refs;
    BatchDownload(remote, store, rows, now);
    BatchDownload(remote, store, w.sidecars, now);
    BatchDownload(remote, store, w.blobs, now);
    if good {
      TreeFetched(remote, start, walked, w, mid, rows, store.Objs());
    }
  }

  // ----- The history -----

  /** Every object has what it names, except that the parents of a commit may still be queued. */
  ghost predicate ClosedBut(objs: set<ObjId>, queue: seq<Commit>) {
    && TreesClosed(objs)
    && forall o | o in objs && o.CommitId? ::
         TreeId(o.commit.tree) in objs && forall p <- o.commit.parents :: CommitId(p) in objs || p in queue
  }

  /** Every object has what is followed from it. */
  ghost predicate FetchClosed(objs: set<ObjId>) {
    forall o <- objs :: Pursued(o) <= objs
  }

  /** What a completed fetch relies on: a complete remote tip, a closed local store, a known stopping point. */
  ghost predicate FetchReady(remote: set<ObjId>, objs: set<ObjId>, tip: Commit, stopAt: Option<Commit>) {
    && Complete(remote, CommitId(tip))
    && FetchClosed(objs)
    && (stopAt.Some? ==> CommitId(stopAt.value) in objs)
  }

  lemma ReadyWhenClosed(remote: set<ObjId>, objs: set<ObjId>, tip: Commit, stopAt: Option<Commit>)
    requires Complete(remote, CommitId(tip)) && DownClosed(objs)
    requires stopAt.Some? ==> CommitId(stopAt.value) in objs
    ensures FetchReady(remote, objs, tip, stopAt)
  {
    forall o | o in objs ensures Pursued(o) <= objs {
      PursuedOrStray(o);
    }
  }

  /** What a completed fetch achieves: everything reachable is here but the sidecars not looked for. */
  ghost predicate Fetched(remote: set<ObjId>, objs: set<ObjId>, tip: Commit) {
    var reached := Reach(remote, CommitId(tip));
    && FetchClosed(objs) && CommitId(tip) in objs
    && reached <= objs + AllStrays(reached)
    && (Complete(objs, CommitId(tip)) <==> AllStrays(reached) <= objs)
    && (Complete(objs, CommitId(tip)) ==> Reach(objs, CommitId(tip)) == reached)
  }

  lemma ReadyInitially(remote: set<ObjId>, objs: set<ObjId>, tip: Commit, stopAt: Option<Commit>)
    requires FetchReady(remote, objs, tip, stopAt)
    ensures ClosedBut(objs, [tip])
  {
    forall o | o in objs && o.CommitId?
      ensures TreeId(o.commit.tree) in objs && forall p <- o.commit.parents :: CommitId(p) in objs
    {
      assert Pursued(o) <= objs;
      forall p | p in o.commit.parents ensures CommitId(p) in objs {
        assert CommitId(p) in Refs(o);
      }
    }
  }

  lemma FetchedAll(remote: set<ObjId>, objs: set<ObjId>, tip: Commit)
    requires ClosedBut(objs, []) && CommitId(tip) in objs && Complete(remote, CommitId(tip))
    ensures Fetched(remote, objs, tip)
  {
    var root := CommitId(tip);
    var reached := Reach(remote, root);
    forall o | o in objs ensures Pursued(o) <= objs {}
    ReachClosed(remote, root);
    ReachedOrStray(remote, objs, root);
    StraysReached(remote, root);
    if AllStrays(reached) <= objs {
      assert remote * reached == reached == objs * reached;
      ReachFrame(remote, objs, root);
    }
    if Complete(objs, root) {
      CompleteAgree(remote, objs, root);
    }
  }

  lemma ReachedOrStray(remote: set<ObjId>, objs: set<ObjId>, root: ObjId)
    requires FetchClosed(objs) && root in objs
    ensures Reach(remote, root) <= objs + AllStrays(Reach(remote, root))
  {
    var reached := Reach(remote, root);
    var part := reached * (objs + AllStrays(reached));
    ReachClosed(remote, root);
    hide Reach, Refs;
    forall x | x in part && x in remote ensures Refs(x) <= part {
      PursuedOrStray(x);
      assert Refs(x) <= reached;
      if x !in objs {
        StrayNamesNothing(reached, x);
      }
    }
    ReachLeast(remote, root, part);
  }

  lemma StrayNamesNothing(objs: set<ObjId>, x: ObjId)
    ensures x in AllStrays(objs) ==> Refs(x) == {}
  {
  }

  lemma StraysReached(remote: set<ObjId>, root: ObjId)
    requires Complete(remote, root)
    ensures AllStrays(Reach(remote, root)) <= Reach(remote, root)
  {
    ReachClosed(remote, root);
    hide Reach, Refs;
    forall o, x | o in Reach(remote, root) && x in Strays(o) ensures x in Reach(remote, root) {
      PursuedOrStray(o);
    }
  }

  lemma NoStrays(remote: set<ObjId>)
    requires forall t, e | TreeId(t) in remote && e in t.entries && Truthy(e.sidecar) :: e.target.ManifestTarget?
    ensures AllStrays(remote) == {}
  {
    forall o | o in remote ensures Strays(o) == {} {
      assert o.TreeId? ==> TreeId(o.tree) in remote;
    }
  }

  /** A completed fetch has everything reachable but sidecars, and the sidecars of manifests too. */
  lemma FetchedMeaning(remote: set<ObjId>, objs: set<ObjId>, tip: Commit, o: ObjId)
    requires Fetched(remote, objs, tip) && o in Reach(remote, CommitId(tip))
    ensures !o.SidecarId? ==> o in objs
    ensures o.TreeId? ==> forall e <- o.tree.entries | e.target.ManifestTarget? && Truthy(e.sidecar) ::
      SidecarId(e.sidecar.value) in objs
  {
    hide Reach;
    if o.TreeId? {
      forall e | e in o.tree.entries && e.target.ManifestTarget? && Truthy(e.sidecar)
        ensures SidecarId(e.sidecar.value) in objs
      {
        assert SidecarId(e.sidecar.value) in Pursued(o);
      }
    }
  }

  /**
   Where the remote's closure has sidecars on manifests only, as the format says, a fetch keeps a downward closed
   store so.
   */
  lemma FetchKeepsClosed(remote: set<ObjId>, start: set<ObjId>, objs: set<ObjId>, tip: Commit)
    requires DownClosed(start) && start <= objs <= start + remote && Fetched(remote, objs, tip)
    requires forall t, e | TreeId(t) in remote && e in t.entries && Truthy(e.sidecar) :: e.target.ManifestTarget?
    ensures DownClosed(objs) && Complete(objs, CommitId(tip)) &&
      Reach(objs, CommitId(tip)) == Reach(remote, CommitId(tip))
  {
    NoStrays(remote);
    hide Reach, Refs;
    assert AllStrays(Reach(remote, CommitId(tip))) <= objs by {
      forall o, x | o in Reach(remote, CommitId(tip)) && x in Strays(o) ensures x in objs {
        assert o in remote || o in start;
        PursuedOrStray(o);
        assert Refs(o) <= start || x in AllStrays(remote);
      }
    }
    forall o | o in objs ensures Refs(o) <= objs {
      PursuedOrStray(o);
      assert o in start || Strays(o) <= AllStrays(remote);
    }
  }

  lemma AncestorTreeComplete(remote: set<ObjId>, tip: Commit, c: Commit)
    requires Complete(remote, CommitId(tip)) && c in Ancestors(remote, tip)
    ensures CommitId(c) in remote && Complete(remote, TreeId(c.tree))
  {
    AncestorsReach(remote, tip, c);
    CompletePart(remote, CommitId(tip), CommitId(c));
    ReachClosed(remote, CommitId(c));
    assert TreeId(c.tree) in Refs(CommitId(c));
    CompletePart(remote, CommitId(c), TreeId(c.tree));
  }

  /** The loop invariant that makes a completed fetch complete. */
  ghost predicate Fetching(remote: set<ObjId>, objs: set<ObjId>, tip: Commit, stopAt: Option<Commit>,
      queue: seq<Commit>, visited: set<Commit>) {
    && ClosedBut(objs, queue)
    && (CommitId(tip) in objs || tip in queue)
    && (stopAt.Some? ==> CommitId(stopAt.value) in objs)
    && forall c <- visited :: CommitId(c) in objs
  }

  /** Popping a commit that is there already. */
  lemma FetchSkip(remote: set<ObjId>, objs: set<ObjId>, tip: Commit, stopAt: Option<Commit>, rest: seq<Commit>,
      c: Commit, visited: set<Commit>)
    requires Fetching(remote, objs, tip, stopAt, rest + [c], visited) && CommitId(c) in objs
    ensures Fetching(remote, objs, tip, stopAt, rest, visited + {c})
    ensures Fetching(remote, objs, tip, stopAt, rest, visited)
  {
    assert forall x <- rest + [c] :: x in rest || x == c;
  }

  /** Storing a commit, its tree and everything below, and queueing its parents. */
  lemma FetchStep(remote: set<ObjId>, objs: set<ObjId>, objs': set<ObjId>, tip: Commit, stopAt: Option<Commit>,
      rest: seq<Commit>, c: Commit, visited: set<Commit>)
    requires Fetching(remote, objs, tip, stopAt, rest + [c], visited)
    requires objs + {CommitId(c)} <= objs' && TreesClosed(objs') && TreeId(c.tree) in objs'
    requires forall o <- objs' :: o in objs || o == CommitId(c) || !o.CommitId?
    ensures Fetching(remote, objs', tip, stopAt, rest + c.parents, visited + {c})
  {
    assert forall x <- rest + [c] :: x in rest || x == c;
    assert forall x <- rest :: x in rest + c.parents;
    assert forall x <- c.parents :: x in rest + c.parents;
  }

  method FetchObjectsSince(remote: set<ObjId>, store: ObjectStore, tip: Commit, stopAt: Option<Commit>, now: int)
    modifies store
    ensures old(store.Objs()) <= store.Objs() <= old(store.Objs()) + remote
    ensures FetchReady(remote, old(store.Objs()), tip, stopAt) ==> Fetched(remote, store.Objs(), tip)
  {
    hide Reach, Ancestors, Fetching, TreesClosed, FetchReady;
    ghost var start := store.Objs();
    ghost var ready := FetchReady(remote, start, tip, stopAt);
    ghost var all := Ancestors(remote, tip);
    AncestorsClosed(remote, tip);
    var queue, visited := [tip], {};
    if ready { FetchingInitially(remote, start, tip, stopAt); }
    while queue != []
      invariant start <= store.Objs() <= start + remote
      invariant visited <= all && forall c <- queue :: c in all
      invariant ready ==> Fetching(remote, store.Objs(), tip, stopAt, queue, visited)
      decreases |all - visited|, |queue|
    {
      var c := queue[|queue| - 1];
      ghost var rest, objs := queue[..|queue| - 1], store.Objs();
      assert queue == rest + [c];
      assert c in all by { assert c in queue; }
      queue := queue[..|queue| - 1];
      assert forall x <- queue :: x in rest + [c];
      if c in visited || stopAt == Some(c) {
        if ready {
          VisitedPresent(remote, objs, tip, stopAt, rest + [c], visited, c);
          FetchSkip(remote, objs, tip, stopAt, rest, c, visited);
        }
        continue;
      }
      ShrinksC(all, visited, c);
      visited := visited + {c};
      if CommitId(c) in store.Objs() {
        if ready { FetchSkip(remote, objs, tip, stopAt, rest, c, visited - {c}); }
        continue;
      }
      if CommitId(c) !in remote {
        assert !ready by { if ready { ReadyTip(remote, start, tip, stopAt, c); } }
        continue;
      }
      store.Write(CommitId(c), now);
      ghost var written := store.Objs();
      assert written == objs + {CommitId(c)};
      if ready {
        ReadyTip(remote, start, tip, stopAt, c);
        CommitKeepsTreesClosed(remote, objs, tip, stopAt, rest + [c], visited - {c}, c);
      }
      FetchTreeObjects(remote, store, c.tree, now);
      if ready {
        FetchStep(remote, objs, store.Objs(), tip, stopAt, rest, c, visited - {c});
      }
      queue := queue + c.parents;
    }
    if ready { FetchDone(remote, start, store.Objs(), tip, stopAt, visited); }
  }

  lemma FetchingInitially(remote: set<ObjId>, objs: set<ObjId>, tip: Commit, stopAt: Option<Commit>)
    requires FetchReady(remote, objs, tip, stopAt)
    ensures Fetching(remote, objs, tip, stopAt, [tip], {})
  {
    ReadyInitially(remote, objs, tip, stopAt);
  }

  lemma VisitedPresent(remote: set<ObjId>, objs: set<ObjId>, tip: Commit, stopAt: Option<Commit>,
      queue: seq<Commit>, visited: set<Commit>, c: Commit)
    requires Fetching(remote, objs, tip, stopAt, queue, visited) && (c in visited || stopAt == Some(c))
    ensures CommitId(c) in objs
  {
  }

  lemma ReadyTip(remote: set<ObjId>, start: set<ObjId>, tip: Commit, stopAt: Option<Commit>, c: Commit)
    requires FetchReady(remote, start, tip, stopAt) && c in Ancestors(remote, tip)
    ensures CommitId(c) in remote && Complete(remote, TreeId(c.tree))
  {
    AncestorTreeComplete(remote, tip, c);
  }

  lemma CommitKeepsTreesClosed(remote: set<ObjId>, objs: set<ObjId>, tip: Commit, stopAt: Option<Commit>,
      queue: seq<Commit>, visited: set<Commit>, c: Commit)
    requires Fetching(remote, objs, tip, stopAt, queue, visited)
    ensures TreesClosed(objs + {CommitId(c)})
  {
  }

  lemma FetchDone(remote: set<ObjId>, start: set<ObjId>, objs: set<ObjId>, tip: Commit, stopAt: Option<Commit>,
      visited: set<Commit>)
    requires FetchReady(remote, start, tip, stopAt) && Fetching(remote, objs, tip, stopAt, [], visited)
    ensures Fetched(remote, objs, tip)
  {
    FetchedAll(remote, objs, tip);
  }
}
