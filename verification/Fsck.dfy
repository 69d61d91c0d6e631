/** The integrity checker's graph pass: visit everything reachable from the refs, report what cannot be read. */
module Fsck {
  import opened Objects
  import opened Walker
  import opened Gc

  /** The files of a store, each intact or not: reading a damaged one raises. */
  type Disk = map<ObjId, bool>

  function Good(disk: Disk): set<ObjId> {
    set o <- disk | disk[o]
  }

  datatype Message = Corrupt | Missing

  datatype Issue = Issue(obj: ObjId, message: Message)

  function IssueFor(disk: Disk, o: ObjId): Issue {
    Issue(o, if o in disk then Corrupt else Missing)
  }

  /** The issues of those objects that cannot be read. */
  function Issues(disk: Disk, objs: set<ObjId>): set<Issue> {
    set o <- objs | o !in Good(disk) :: IssueFor(disk, o)
  }

  /** From having checked `before` to having checked `after`: just what the roots reach was added, and all of it. */
  ghost predicate Covers(good: set<ObjId>, before: set<ObjId>, after: set<ObjId>, roots: set<ObjId>) {
    && before <= after && roots <= after
    && after <= before + ReachAll(good, roots)
    && forall o | o in after && o !in before && o in good :: Refs(o) <= after
  }

  lemma CoversNothing(good: set<ObjId>, s: set<ObjId>)
    ensures Covers(good, s, s, {})
  {
  }

  lemma CoversThen(good: set<ObjId>, a: set<ObjId>, b: set<ObjId>, c: set<ObjId>, r: set<ObjId>, q: set<ObjId>)
    requires Covers(good, a, b, r) && Covers(good, b, c, q)
    ensures Covers(good, a, c, r + q)
  {
    hide Reach, Refs;
    assert ReachAll(good, r + q) == ReachAll(good, r) + ReachAll(good, q);
  }

  /** Checking a present object and then all it names covers it. */
  lemma CoversParent(good: set<ObjId>, before: set<ObjId>, after: set<ObjId>, o: ObjId)
    requires o in good && Covers(good, before + {o}, after, Refs(o))
    ensures Covers(good, before, after, {o})
  {
    hide Reach, Refs;
    ReachAllClosed(good, {o});
    ReachAllLeast(good, Refs(o), ReachAll(good, {o}));
  }

  lemma CoversBad(good: set<ObjId>, before: set<ObjId>, o: ObjId)
    requires o !in good || Leaf(o)
    ensures Covers(good, before, before + {o}, {o})
  {
    ReachAllClosed(good, {o});
  }

  lemma CoversSeen(good: set<ObjId>, s: set<ObjId>, o: ObjId)
    requires o in s
    ensures Covers(good, s, s, {o})
  {
  }

  class Checker {
    const disk: Disk
    var visitedCommits: set<Commit>
    var visitedTrees: set<Tree>
    var visitedManifests: set<Manifest>
    var errors: seq<Issue>
    var totalErrors: nat
    /** Every object looked up so far. */
    ghost var checked: set<ObjId>

    ghost predicate VisitedValid()
      reads this
    {
      && (forall c :: c in visitedCommits <==> CommitId(c) in checked)
      && (forall t :: t in visitedTrees <==> TreeId(t) in checked)
      && (forall m :: m in visitedManifests <==> ManifestId(m) in checked)
    }

    /** The errors are the issues of what was checked; only rows, sidecars and blobs are ever repeated. */
    ghost predicate ErrorsValid()
      reads this
    {
      && totalErrors == |errors|
      && (set e <- errors) == Issues(disk, checked)
      && forall i, j | 0 <= i < j < |errors| && errors[i].obj == errors[j].obj :: Leaf(errors[i].obj)
    }

    ghost predicate Valid()
      reads this
    {
      VisitedValid() && ErrorsValid()
    }

    constructor (disk: Disk)
      ensures Valid() && checked == {} && this.disk == disk
    {
      this.disk := disk;
      visitedCommits, visitedTrees, visitedManifests := {}, {}, {};
      errors, totalErrors, checked := [], 0, {};
    }

    /** Try to read an object; if that fails, record why. */
    method Lookup(o: ObjId) returns (ok: bool)
      requires ErrorsValid() && (Leaf(o) || o !in checked)
      modifies `errors, `totalErrors, `checked
      ensures ok <==> o in Good(disk)
      ensures ErrorsValid() && checked == old(checked) + {o}
    {
      ok := o in disk && disk[o];
      if !ok {
        IssuesGrow(disk, checked, o);
        RepeatsOnlyLeaves(errors, disk, checked, o);
        errors := errors + [Issue(o, if o in disk then Corrupt else Missing)];
        totalErrors := totalErrors + 1;
      } else {
        IssuesSame(disk, checked, o);
      }
      checked := checked + {o};
    }

    method CheckLeaf(o: ObjId)
      requires Valid() && Leaf(o)
      modifies this
      ensures Valid() && Covers(Good(disk), old(checked), checked, {o})
    {
      CoversBad(Good(disk), checked, o);
      var _ := Lookup(o);
    }

    method CheckManifest(m: Manifest)
      requires Valid()
      modifies this
      ensures Valid() && Covers(Good(disk), old(checked), checked, {ManifestId(m)})
    {
      hide Covers;
      var o := ManifestId(m);
      ghost var good := Good(disk);
      if m in visitedManifests {
        CoversSeen(good, checked, o);
        return;
      }
      visitedManifests := visitedManifests + {m};
      ghost var before := checked;
      var ok := Lookup(o);
      if !ok {
        CoversBad(good, before, o);
        return;
      }
      ghost var start, named: set<ObjId> := checked, {};
      CoversNothing(good, checked);
      for i := 0 to |m.entries|
        invariant Valid() && Covers(good, start, checked, named)
        invariant named == set e <- m.entries[..i] :: RowId(e.row)
      {
        ghost var prev := checked;
        CheckLeaf(RowId(m.entries[i].row));
        CoversThen(good, start, prev, checked, named, {RowId(m.entries[i].row)});
        named := named + {RowId(m.entries[i].row)};
        assert m.entries[..i + 1] == m.entries[..i] + [m.entries[i]];
      }
      assert m.entries[..|m.entries|] == m.entries;
      CoversParent(good, before, checked, o);
    }

    method CheckTree(t: Tree)
      requires Valid()
      modifies this
      ensures Valid() && Covers(Good(disk), old(checked), checked, {TreeId(t)})
      decreases t
    {
      hide Covers;
      var o := TreeId(t);
      ghost var good := Good(disk);
      if t in visitedTrees {
        CoversSeen(good, checked, o);
        return;
      }
      visitedTrees := visitedTrees + {t};
      ghost var before := checked;
      var ok := Lookup(o);
      if !ok {
        CoversBad(good, before, o);
        return;
      }
      ghost var start := checked;
      CoversNothing(good, checked);
      assert EntryRefs(t.entries[..0]) == {};
      for i := 0 to |t.entries|
        invariant Valid() && Covers(good, start, checked, EntryRefs(t.entries[..i]))
      {
        var e := t.entries[i];
        ghost var prev := checked;
        match e.target {
          case TreeTarget(sub) => CheckTree(sub);
          case ManifestTarget(m) => CheckManifest(m);
          case BlobTarget(b) => CheckLeaf(BlobId(b));
        }
        CoversThen(good, start, prev, checked, EntryRefs(t.entries[..i]), {TargetId(e.target)});
        ghost var named := EntryRefs(t.entries[..i]) + {TargetId(e.target)};
        EntryRefsGrow(t.entries, i);
        assert Covers(good, start, checked, named);
        if Truthy(e.sidecar) {
          prev := checked;
          CheckLeaf(SidecarId(e.sidecar.value));
          CoversThen(good, start, prev, checked, named, {SidecarId(e.sidecar.value)});
        }
      }
      assert t.entries[..|t.entries|] == t.entries;
      CoversParent(good, before, checked, o);
    }

    method CheckCommit(c: Commit)
      requires Valid()
      modifies this
      ensures Valid() && Covers(Good(disk), old(checked), checked, {CommitId(c)})
      decreases c
    {
      hide Covers;
      var o := CommitId(c);
      ghost var good := Good(disk);
      if c in visitedCommits {
        CoversSeen(good, checked, o);
        return;
      }
      visitedCommits := visitedCommits + {c};
      ghost var before := checked;
      var ok := Lookup(o);
      if !ok {
        CoversBad(good, before, o);
        return;
      }
      ghost var start := checked;
      CoversNothing(good, checked);
      assert Heads(c.parents[..0]) == {};
      for i := 0 to |c.parents|
        invariant Valid() && Covers(good, start, checked, Heads(c.parents[..i]))
      {
        ghost var prev := checked;
        CheckCommit(c.parents[i]);
        CoversThen(good, start, prev, checked, Heads(c.parents[..i]), {CommitId(c.parents[i])});
        HeadsGrow(c.parents, i);
      }
      assert c.parents[..|c.parents|] == c.parents;
      ghost var prev := checked;
      CheckTree(c.tree);
      CoversThen(good, start, prev, checked, Heads(c.parents), {TreeId(c.tree)});
      assert Heads(c.parents) + {TreeId(c.tree)} == Refs(o);
      CoversParent(good, before, checked, o);
    }
  }

  lemma IssuesGrow(disk: Disk, checked: set<ObjId>, o: ObjId)
    requires o !in Good(disk)
    ensures Issues(disk, checked + {o}) == Issues(disk, checked) + {IssueFor(disk, o)}
  {
  }

  lemma IssuesSame(disk: Disk, checked: set<ObjId>, o: ObjId)
    requires o in Good(disk)
    ensures Issues(disk, checked + {o}) == Issues(disk, checked)
  {
  }

  lemma RepeatsOnlyLeaves(errors: seq<Issue>, disk: Disk, checked: set<ObjId>, o: ObjId)
    requires (set e <- errors) == Issues(disk, checked)
    requires Leaf(o) || o !in checked
    ensures forall i | 0 <= i < |errors| && errors[i].obj == o :: Leaf(errors[i].obj)
  {
    forall i | 0 <= i < |errors| ensures errors[i].obj in checked {
      assert errors[i] in (set e <- errors) && errors[i] in Issues(disk, checked);
    }
  }

  /** What the first entries of a tree name. */
  function EntryRefs(s: seq<TreeEntry>): set<ObjId> {
    (set e <- s :: TargetId(e.target)) + (set e <- s | Truthy(e.sidecar) :: SidecarId(e.sidecar.value))
  }

  lemma EntryRefsGrow(s: seq<TreeEntry>, i: nat)
    requires i < |s|
    ensures EntryRefs(s[..i + 1]) == EntryRefs(s[..i]) + {TargetId(s[i].target)}
      + (if Truthy(s[i].sidecar) then {SidecarId(s[i].sidecar.value)} else {})
    ensures !Truthy(s[i].sidecar) ==> EntryRefs(s[..i + 1]) == EntryRefs(s[..i]) + {TargetId(s[i].target)}
  {
    assert s[..i + 1] == s[..i] + [s[i]];
  }

  lemma HeadsGrow(s: seq<Commit>, i: nat)
    requires i < |s|
    ensures Heads(s[..i + 1]) == Heads(s[..i]) + {CommitId(s[i])}
  {
    assert s[..i + 1] == s[..i] + [s[i]];
  }

  /** The set of issues the graph pass finds. */
  function GraphIssues(disk: Disk, refs: seq<Commit>): set<Issue> {
    Issues(disk, ReachAll(Good(disk), Heads(refs)))
  }

  /** Exactly the reachable objects that cannot be read are reported, and the counter counts the list. */
  method VerifyGraph(disk: Disk, refs: seq<Commit>) returns (errors: seq<Issue>, totalErrors: nat)
    ensures (set e <- errors) == GraphIssues(disk, refs)
    ensures totalErrors == |errors|
    ensures forall i, j | 0 <= i < j < |errors| && errors[i].obj == errors[j].obj :: Leaf(errors[i].obj)
  {
    hide Covers;
    var checker := new Checker(disk);
    ghost var good := Good(disk);
    CoversNothing(good, {});
    assert Heads(refs[..0]) == {};
    for i := 0 to |refs|
      invariant fresh(checker) && checker.disk == disk
      invariant checker.Valid() && Covers(good, {}, checker.checked, Heads(refs[..i]))
    {
      ghost var prev := checker.checked;
      checker.CheckCommit(refs[i]);
      CoversThen(good, {}, prev, checker.checked, Heads(refs[..i]), {CommitId(refs[i])});
      HeadsGrow(refs, i);
    }
    assert refs[..|refs|] == refs;
    CoversAll(good, checker.checked, Heads(refs));
    errors, totalErrors := checker.errors, checker.totalErrors;
  }

  lemma CoversAll(good: set<ObjId>, checked: set<ObjId>, roots: set<ObjId>)
    requires Covers(good, {}, checked, roots)
    ensures checked == ReachAll(good, roots)
  {
    ReachAllLeast(good, roots, checked);
  }

  // ----- Laws -----

  /** What is reported: every object that a ref reaches and that is missing or damaged, with which of the two it is. */
  lemma IssuesMeaning(disk: Disk, refs: seq<Commit>, o: ObjId, m: Message)
    ensures Issue(o, m) in GraphIssues(disk, refs) <==>
      (exists c <- refs :: o in Reach(Good(disk), CommitId(c))) &&
      if o in disk then !disk[o] && m == Corrupt else m == Missing
  {
    hide Reach;
    if c :| c in refs && o in Reach(Good(disk), CommitId(c)) {
      assert CommitId(c) in Heads(refs) && o in ReachAll(Good(disk), Heads(refs));
    }
  }

  /** The pass is silent exactly when every ref's whole closure can be read. */
  lemma SilentIffComplete(disk: Disk, refs: seq<Commit>)
    ensures GraphIssues(disk, refs) == {} <==> forall c <- refs :: Complete(Good(disk), CommitId(c))
  {
    hide Reach;
    var good := Good(disk);
    if GraphIssues(disk, refs) == {} {
      forall c, o | c in refs && o in Reach(good, CommitId(c)) ensures o in good {
        assert CommitId(c) in Heads(refs) && o in ReachAll(good, Heads(refs));
        assert o !in good ==> IssueFor(disk, o) in GraphIssues(disk, refs);
      }
    } else {
      var e :| e in GraphIssues(disk, refs);
      var o :| o in ReachAll(good, Heads(refs)) && o !in good && e == IssueFor(disk, o);
      var r :| r in Heads(refs) && o in Reach(good, r);
      var c :| c in refs && r == CommitId(c);
      assert !(Reach(good, CommitId(c)) <= good);
    }
  }

  /** One more damaged or missing object is noticed exactly when it is reachable. */
  lemma DamageNoticed(disk: Disk, refs: seq<Commit>, o: ObjId)
    requires forall c <- refs :: Complete(Good(disk), CommitId(c))
    ensures var reachable := o in ReachAll(Good(disk), Heads(refs));
      && GraphIssues(disk[o := false], refs) == (if reachable then {Issue(o, Corrupt)} else {})
      && GraphIssues(disk - {o}, refs) == (if reachable then {Issue(o, Missing)} else {})
  {
    LoseOne(disk, disk[o := false], refs, o);
    LoseOne(disk, disk - {o}, refs, o);
  }

  lemma ReachAllMono(small: set<ObjId>, big: set<ObjId>, roots: set<ObjId>)
    requires small <= big
    ensures ReachAll(small, roots) <= ReachAll(big, roots)
  {
    hide Reach;
    forall r, x | r in roots && x in Reach(small, r) ensures x in ReachAll(big, roots) {
      ReachMono(small, big, r);
    }
  }

  /** An object taken out of the store is still reached if it was before. */
  lemma StillReached(good: set<ObjId>, roots: set<ObjId>, o: ObjId)
    requires o in ReachAll(good, roots)
    ensures o in ReachAll(good - {o}, roots)
  {
    var small := ReachAll(good - {o}, roots);
    ReachAllClosed(good - {o}, roots);
    hide ReachAll, Refs;
    if o !in small {
      forall x | x in small && x in good ensures Refs(x) <= small {
        assert x in good - {o};
      }
      ReachAllLeast(good, roots, small);
      assert false;
    }
  }

  lemma LoseOne(disk: Disk, after: Disk, refs: seq<Commit>, o: ObjId)
    requires forall c <- refs :: Complete(Good(disk), CommitId(c))
    requires Good(after) == Good(disk) - {o}
    ensures GraphIssues(after, refs) == if o in ReachAll(Good(disk), Heads(refs)) then {IssueFor(after, o)} else {}
  {
    var big, small := ReachAll(Good(disk), Heads(refs)), ReachAll(Good(after), Heads(refs));
    assert big <= Good(disk) by { AllComplete(Good(disk), refs); }
    ReachAllMono(Good(after), Good(disk), Heads(refs));
    hide ReachAll, Complete, Good;
    if o in big {
      StillReached(Good(disk), Heads(refs), o);
    }
    assert forall x | x in small && x !in Good(after) :: x == o;
  }

  lemma AllComplete(good: set<ObjId>, refs: seq<Commit>)
    requires forall c <- refs :: Complete(good, CommitId(c))
    ensures ReachAll(good, Heads(refs)) <= good
  {
    hide Reach;
  }

  /** Whether an object that names nothing is present does not affect what is reached. */
  lemma ReachFrameLeaves(a: set<ObjId>, b: set<ObjId>, o: ObjId)
    requires forall x <- Reach(a, o) :: Leaf(x) || (x in a <==> x in b)
    ensures Reach(a, o) == Reach(b, o)
  {
    ReachClosed(a, o);
    ReachClosed(b, o);
    hide Reach;
    ReachLeast(b, o, Reach(a, o));
    ReachLeast(a, o, Reach(b, o));
  }

  function WithDamage(files: map<ObjId, int>, damaged: set<ObjId>): Disk {
    map o <- files :: o !in damaged
  }

  /**
   A collection leaves the checker's report on the same refs unchanged.  The marking phase reads every
   reachable commit, tree and manifest, so it completes only if those are undamaged.
   */
  lemma GcKeepsReport(files: map<ObjId, int>, damaged: set<ObjId>, refs: seq<Commit>, index: map<string, Target>,
      cutoff: int)
    requires forall o | o in damaged && o in Live(files.Keys, refs, index) :: Leaf(o)
    ensures GraphIssues(WithDamage(AfterGc(files, refs, index, cutoff), damaged), refs) ==
      GraphIssues(WithDamage(files, damaged), refs)
  {
    hide Reach, AfterGc;
    var kept := AfterGc(files, refs, index, cutoff);
    var reached := ReachAll(files.Keys, Heads(refs));
    var before, after := WithDamage(files, damaged), WithDamage(kept, damaged);
    forall c | c in refs
      ensures Reach(Good(before), CommitId(c)) == Reach(files.Keys, CommitId(c)) == Reach(Good(after), CommitId(c))
      ensures forall o <- Reach(files.Keys, CommitId(c)) :: o in files <==> o in kept
    {
      assert CommitId(c) in Heads(refs);
      assert Reach(files.Keys, CommitId(c)) <= Live(files.Keys, refs, index);
      RefSurvives(files, refs, index, cutoff, c);
      KeptWasThere(files, refs, index, cutoff);
      ReachFrameLeaves(files.Keys, Good(before), CommitId(c));
      ReachFrameLeaves(files.Keys, Good(after), CommitId(c));
    }
    assert ReachAll(Good(before), Heads(refs)) == reached == ReachAll(Good(after), Heads(refs));
    assert forall o <- reached :: o in files <==> o in kept;
  }

  lemma KeptWasThere(files: map<ObjId, int>, refs: seq<Commit>, index: map<string, Target>, cutoff: int)
    ensures AfterGc(files, refs, index, cutoff).Keys <= files.Keys
  {
  }
}
