/** Worklist walks over the object graph: everything reachable, only what is new, and ancestry. */
module Walker {
  import opened Objects

  /** Objects that name nothing: the walks record them without stacking them. */
  predicate Leaf(o: ObjId) {
    o.RowId? || o.SidecarId? || o.BlobId?
  }

  /** From (stack, result), recording the object `o` led to (stack', result'). */
  ghost predicate Followed(o: ObjId, stack: seq<ObjId>, result: set<ObjId>, stack': seq<ObjId>, result': set<ObjId>) {
    && result <= result'
    && (forall x <- stack :: x in stack')
    && (forall x <- stack' :: x in stack || (x in Refs(o) && !Leaf(x)))
    && (forall x <- result' :: x in result || (x in Refs(o) && Leaf(x)))
    && (forall x <- Refs(o) :: x in stack' || x in result')
  }

  method FollowCommit(c: Commit, stack0: seq<ObjId>, result: set<ObjId>) returns (stack: seq<ObjId>)
    ensures Followed(CommitId(c), stack0, result, stack, result)
  {
    stack := stack0 + [TreeId(c.tree)];
    for i := 0 to |c.parents|
      invariant forall x <- stack0 :: x in stack
      invariant TreeId(c.tree) in stack && forall p <- c.parents[..i] :: CommitId(p) in stack
      invariant forall x <- stack :: x in stack0 || (x in Refs(CommitId(c)) && !Leaf(x))
    {
      assert c.parents[i] in c.parents;
      stack := stack + [CommitId(c.parents[i])];
      assert c.parents[..i + 1] == c.parents[..i] + [c.parents[i]];
    }
    assert c.parents[..|c.parents|] == c.parents;
  }

  method FollowTree(t: Tree, stack0: seq<ObjId>, result0: set<ObjId>) returns (stack: seq<ObjId>, result: set<ObjId>)
    ensures Followed(TreeId(t), stack0, result0, stack, result)
  {
    stack, result := stack0, result0;
    for i := 0 to |t.entries|
      invariant result0 <= result && forall x <- stack0 :: x in stack
      invariant forall e <- t.entries[..i] :: TargetId(e.target) in stack || TargetId(e.target) in result
      invariant forall e <- t.entries[..i] :: Truthy(e.sidecar) ==> SidecarId(e.sidecar.value) in result
      invariant forall x <- stack :: x in stack0 || (x in Refs(TreeId(t)) && !Leaf(x))
      invariant forall x <- result :: x in result0 || (x in Refs(TreeId(t)) && Leaf(x))
    {
      var e := t.entries[i];
      assert t.entries[..i + 1] == t.entries[..i] + [e];
      assert e in t.entries && TargetId(e.target) in Refs(TreeId(t));
      if Truthy(e.sidecar) {
        assert SidecarId(e.sidecar.value) in Refs(TreeId(t));
        result := result + {SidecarId(e.sidecar.value)};
      }
      if e.target.ManifestTarget? || e.target.TreeTarget? {
        stack := stack + [TargetId(e.target)];
      } else {
        result := result + {TargetId(e.target)};
      }
    }
    assert t.entries[..|t.entries|] == t.entries;
  }

  method FollowManifest(m: Manifest, stack: seq<ObjId>, result0: set<ObjId>) returns (result: set<ObjId>)
    ensures Followed(ManifestId(m), stack, result0, stack, result)
  {
    result := result0;
    for i := 0 to |m.entries|
      invariant result0 <= result
      invariant forall e <- m.entries[..i] :: RowId(e.row) in result
      invariant forall x <- result :: x in result0 || (x in Refs(ManifestId(m)) && Leaf(x))
    {
      assert m.entries[i] in m.entries && m.entries[..i + 1] == m.entries[..i] + [m.entries[i]];
      result := result + {RowId(m.entries[i].row)};
    }
    assert m.entries[..|m.entries|] == m.entries;
  }

  predicate Pending(x: ObjId, stack: seq<ObjId>, result: set<ObjId>) {
    x in stack || x in result
  }

  /**
   What holds between iterations of a walk bounded by `all`: everything recorded or stacked is within
   bounds, and the roots and whatever a recorded object names are recorded or stacked.
   */
  ghost predicate Draining(objs: set<ObjId>, all: set<ObjId>, roots: set<ObjId>, result0: set<ObjId>,
      stack: seq<ObjId>, result: set<ObjId>) {
    && result0 <= result <= result0 + all
    && (forall x <- stack :: x in all && !Leaf(x))
    && (forall r <- roots :: Pending(r, stack, result))
    && (forall x | x in result && x !in result0 && x in objs :: Explored(x, stack, result))
  }

  ghost predicate Explored(x: ObjId, stack: seq<ObjId>, result: set<ObjId>) {
    forall y <- Refs(x) :: Pending(y, stack, result)
  }

  lemma ReachAllClosed(objs: set<ObjId>, roots: set<ObjId>)
    ensures roots <= ReachAll(objs, roots) && Closed(objs, ReachAll(objs, roots))
  {
    forall r | r in roots ensures r in ReachAll(objs, roots) { ReachClosed(objs, r); }
    forall o | o in ReachAll(objs, roots) && o in objs ensures Refs(o) <= ReachAll(objs, roots) {
      var r :| r in roots && o in Reach(objs, r);
      ReachClosed(objs, r);
    }
  }

  lemma ReachAllLeast(objs: set<ObjId>, roots: set<ObjId>, s: set<ObjId>)
    requires roots <= s && Closed(objs, s)
    ensures ReachAll(objs, roots) <= s
  {
    forall r, x | r in roots && x in Reach(objs, r) ensures x in s { ReachLeast(objs, r, s); }
  }

  /** Popping the top of the stack onto the result, and following it when it is present, keeps the walk's invariant. */
  lemma DrainStep(objs: set<ObjId>, all: set<ObjId>, roots: set<ObjId>, result0: set<ObjId>, stack: seq<ObjId>,
      result: set<ObjId>, o: ObjId, stack': seq<ObjId>, result': set<ObjId>)
    requires Draining(objs, all, roots, result0, stack + [o], result) && Closed(objs, all)
    requires if o in objs then Followed(o, stack, result + {o}, stack', result')
      else stack' == stack && result' == result + {o}
    ensures Draining(objs, all, roots, result0, stack', result')
  {
    assert o in stack + [o];
    forall y | Pending(y, stack + [o], result)
      ensures Pending(y, stack', result')
    {
    }
    forall x | x in result' && x !in result0 && x in objs
      ensures Explored(x, stack', result')
    {
      if x in result {
        assert Explored(x, stack + [o], result);
      } else if x != o {
        assert Leaf(x);
      }
    }
    assert forall x <- stack :: x in stack + [o];
  }

  /** The loop both walks run: pop, skip if recorded, record, and follow if present. */
  method Drain(objs: set<ObjId>, roots: seq<ObjId>, result0: set<ObjId>) returns (result: set<ObjId>)
    requires forall r <- roots :: !Leaf(r)
    requires result0 !! ReachAll(objs, set r <- roots)
    ensures result == result0 + ReachAll(objs, set r <- roots)
  {
    ghost var from := set r <- roots;
    ghost var all := ReachAll(objs, from);
    ReachAllClosed(objs, from);
    hide ReachAll, Followed, Explored, Refs;
    var stack := roots;
    result := result0;
    while stack != []
      invariant Draining(objs, all, from, result0, stack, result)
      decreases |all - result|, |stack|
    {
      var o := stack[|stack| - 1];
      ghost var before := result;
      ghost var rest := stack[..|stack| - 1];
      assert stack == rest + [o];
      assert o in all && !Leaf(o) by { assert o in stack; }
      stack := stack[..|stack| - 1];
      if o in result {
        SkipStep(objs, all, from, result0, stack, result, o);
        continue;
      }
      result := result + {o};
      if o in objs {
        match o
        case CommitId(c) => stack := FollowCommit(c, stack, result);
        case TreeId(t) => stack, result := FollowTree(t, stack, result);
        case ManifestId(m) => result := FollowManifest(m, stack, result);
      }
      DrainStep(objs, all, from, result0, rest, before, o, stack, result);
      Shrinks(all, before, o, result);
    }
    Drained(objs, from, result0, result);
  }

  lemma SkipStep(objs: set<ObjId>, all: set<ObjId>, roots: set<ObjId>, result0: set<ObjId>, stack: seq<ObjId>,
      result: set<ObjId>, o: ObjId)
    requires Draining(objs, all, roots, result0, stack + [o], result) && o in result
    ensures Draining(objs, all, roots, result0, stack, result)
  {
    assert forall x | Pending(x, stack + [o], result) :: Pending(x, stack, result);
    assert forall x <- stack :: x in stack + [o];
    forall x | x in result && x !in result0 && x in objs
      ensures Explored(x, stack, result)
    {
      assert Explored(x, stack + [o], result);
    }
  }

  lemma Drained(objs: set<ObjId>, roots: set<ObjId>, result0: set<ObjId>, result: set<ObjId>)
    requires Draining(objs, ReachAll(objs, roots), roots, result0, [], result)
    requires result0 !! ReachAll(objs, roots)
    ensures result == result0 + ReachAll(objs, roots)
  {
    var all := ReachAll(objs, roots);
    ReachAllClosed(objs, roots);
    var reached := result * all;
    forall x | x in reached && x in objs ensures Refs(x) <= reached {
      assert Explored(x, [], result);
    }
    assert forall r <- roots :: Pending(r, [], result);
    ReachAllLeast(objs, roots, reached);
  }

  lemma Shrinks(all: set<ObjId>, before: set<ObjId>, o: ObjId, after: set<ObjId>)
    requires o in all && o !in before && before + {o} <= after
    ensures |all - after| < |all - before|
  {
    assert all - before == (all - after) + (all * after - before);
    assert o in all * after - before;
  }

  method WalkCommitObjects(objs: set<ObjId>, head: Commit) returns (result: set<ObjId>)
    ensures result == Reach(objs, CommitId(head))
  {
    result := Drain(objs, [CommitId(head)], {});
    assert (set r <- [CommitId(head)]) == {CommitId(head)};
    assert ReachAll(objs, {CommitId(head)}) == Reach(objs, CommitId(head));
  }

  // ----- Only what is new -----

  /** The commits reached from `head` without passing through `stop`. */
  function NewCommits(objs: set<ObjId>, head: Commit, stop: Commit): set<Commit> {
    Ancestors(objs - {CommitId(stop)}, head) - {stop}
  }

  function TreesOf(objs: set<ObjId>, commits: set<Commit>): set<ObjId> {
    set c <- commits | CommitId(c) in objs :: TreeId(c.tree)
  }

  function CommitIds(commits: set<Commit>): set<ObjId> {
    set c <- commits :: CommitId(c)
  }

  function Since(objs: set<ObjId>, head: Commit, stopAt: Option<Commit>): set<ObjId> {
    match stopAt
    case None => Reach(objs, CommitId(head))
    case Some(stop) =>
      var commits := NewCommits(objs, head, stop);
      CommitIds(commits) + ReachAll(objs, TreesOf(objs, commits))
  }

  ghost predicate Queued(c: Commit, stack: seq<Commit>, visited: set<Commit>) {
    c in stack || c in visited
  }

  /** Invariant of a search through parents that stays within `all`. */
  ghost predicate Searching(objs: set<ObjId>, all: set<Commit>, root: Commit, stack: seq<Commit>,
      visited: set<Commit>) {
    && visited <= all
    && (forall c <- stack :: c in all)
    && Queued(root, stack, visited)
    && (forall c, p | c in visited && CommitId(c) in objs && p in c.parents :: Queued(p, stack, visited))
  }

  lemma SearchStarts(objs: set<ObjId>, root: Commit)
    ensures Searching(objs, Ancestors(objs, root), root, [root], {})
  {
    AncestorsClosed(objs, root);
  }

  /** The commit on top of the stack is within bounds. */
  lemma SearchTop(objs: set<ObjId>, all: set<Commit>, root: Commit, stack: seq<Commit>, visited: set<Commit>)
    requires Searching(objs, all, root, stack, visited) && stack != []
    ensures stack == stack[..|stack| - 1] + [stack[|stack| - 1]] && stack[|stack| - 1] in all
  {
    assert stack[|stack| - 1] in stack;
  }

  lemma SearchStep(objs: set<ObjId>, all: set<Commit>, root: Commit, stack: seq<Commit>, visited: set<Commit>,
      c: Commit, stack': seq<Commit>)
    requires Searching(objs, all, root, stack + [c], visited) && ParentClosed(objs, all)
    requires forall x <- stack :: x in stack'
    requires forall x <- stack' :: x in stack || (CommitId(c) in objs && x in c.parents)
    requires CommitId(c) in objs ==> forall p <- c.parents :: Queued(p, stack', visited + {c})
    ensures Searching(objs, all, root, stack', visited + {c})
  {
    assert c in stack + [c];
    assert forall x <- stack :: x in stack + [c];
    forall x | Queued(x, stack + [c], visited) ensures Queued(x, stack', visited + {c}) {}
  }

  lemma SearchSkip(objs: set<ObjId>, all: set<Commit>, root: Commit, stack: seq<Commit>, visited: set<Commit>,
      c: Commit)
    requires Searching(objs, all, root, stack + [c], visited) && c in visited
    ensures Searching(objs, all, root, stack, visited)
  {
    assert forall x <- stack :: x in stack + [c];
    forall x | Queued(x, stack + [c], visited) ensures Queued(x, stack, visited) {}
  }

  lemma Searched(objs: set<ObjId>, root: Commit, visited: set<Commit>)
    requires Searching(objs, Ancestors(objs, root), root, [], visited)
    ensures visited == Ancestors(objs, root)
  {
    assert Queued(root, [], visited);
    forall c, p | c in visited && CommitId(c) in objs && p in c.parents ensures p in visited {
      assert Queued(p, [], visited);
    }
    AncestorsLeast(objs, root, visited);
  }

  lemma ShrinksC(all: set<Commit>, before: set<Commit>, c: Commit)
    requires c in all && c !in before
    ensures |all - (before + {c})| < |all - before|
  {
    assert all - before == (all - (before + {c})) + {c};
  }

  method PushUnvisited(parents: seq<Commit>, stack0: seq<Commit>, visited: set<Commit>) returns (stack: seq<Commit>)
    ensures forall x <- stack0 :: x in stack
    ensures forall x <- stack :: x in stack0 || x in parents
    ensures forall p <- parents :: Queued(p, stack, visited)
  {
    stack := stack0;
    for i := 0 to |parents|
      invariant forall x <- stack0 :: x in stack
      invariant forall x <- stack :: x in stack0 || x in parents
      invariant forall p <- parents[..i] :: Queued(p, stack, visited)
    {
      var p := parents[i];
      assert p in parents && parents[..i + 1] == parents[..i] + [p];
      ghost var was := stack;
      if p !in visited {
        stack := stack + [p];
      }
      assert forall x | Queued(x, was, visited) :: Queued(x, stack, visited);
    }
    assert parents[..|parents|] == parents;
  }

  method CollectNewCommits(objs: set<ObjId>, head: Commit, stop: Commit) returns (commits: set<Commit>)
    ensures commits == NewCommits(objs, head, stop)
  {
    ghost var seen := objs - {CommitId(stop)};
    ghost var all := Ancestors(seen, head);
    AncestorsClosed(seen, head);
    hide Ancestors, Searching;
    var stack, visited := [head], {};
    commits := {};
    SearchStarts(seen, head);
    while stack != []
      invariant Searching(seen, all, head, stack, visited)
      invariant commits == visited - {stop}
      decreases |all - visited|, |stack|
    {
      var c := stack[|stack| - 1];
      ghost var rest := stack[..|stack| - 1];
      SearchTop(seen, all, head, stack, visited);
      stack := stack[..|stack| - 1];
      if c in visited {
        SearchSkip(seen, all, head, rest, visited, c);
        continue;
      }
      ShrinksC(all, visited, c);
      ghost var before := visited;
      visited := visited + {c};
      if c != stop {
        commits := commits + {c};
        if CommitId(c) in objs {
          stack := PushUnvisited(c.parents, stack, visited);
        }
      }
      SearchStep(seen, all, head, rest, before, c, stack);
    }
    Searched(seen, head, visited);
  }

  lemma ReachAllNoCommit(objs: set<ObjId>, commits: set<Commit>)
    ensures CommitIds(commits) !! ReachAll(objs, TreesOf(objs, commits))
  {
    forall c, d | c in commits && d in commits ensures CommitId(c) !in Reach(objs, TreeId(d.tree)) {
      ReachTreeNoCommit(objs, d.tree, c);
    }
  }

  method WalkCommitObjectsSince(objs: set<ObjId>, head: Commit, stopAt: Option<Commit>) returns (result: set<ObjId>)
    ensures result == Since(objs, head, stopAt)
  {
    if stopAt.None? {
      result := WalkCommitObjects(objs, head);
      return;
    }
    var commits := CollectNewCommits(objs, head, stopAt.value);
    var trees: seq<ObjId> := [];
    var todo := commits;
    ghost var done := {};
    while todo != {}
      invariant todo + done == commits
      invariant (set r <- trees) == TreesOf(objs, done)
      decreases todo
    {
      var c :| c in todo;
      todo := todo - {c};
      assert TreesOf(objs, done + {c}) == TreesOf(objs, done) + if CommitId(c) in objs then {TreeId(c.tree)} else {};
      done := done + {c};
      if CommitId(c) in objs {
        assert (set r <- trees + [TreeId(c.tree)]) == (set r <- trees) + {TreeId(c.tree)};
        trees := trees + [TreeId(c.tree)];
      }
    }
    ReachAllNoCommit(objs, commits);
    assert forall r <- trees :: r in (set r <- trees) && r in TreesOf(objs, commits);
    hide Ancestors, ReachAll;
    result := Drain(objs, trees, CommitIds(commits));
  }

  /** Delta law: what `stop` reaches together with what is new since `stop` is what `head` reaches. */
  lemma DeltaLaw(objs: set<ObjId>, head: Commit, stop: Commit)
    requires stop in Ancestors(objs, head)
    ensures Reach(objs, CommitId(head)) == Reach(objs, CommitId(stop)) + Since(objs, head, Some(stop))
  {
    AncestorsReach(objs, head, stop);
    ReachTrans(objs, CommitId(head), CommitId(stop));
    SinceReached(objs, head, stop);
    SinceSuffices(objs, head, stop);
  }

  lemma SinceReached(objs: set<ObjId>, head: Commit, stop: Commit)
    ensures Since(objs, head, Some(stop)) <= Reach(objs, CommitId(head))
  {
    var R := Reach(objs, CommitId(head));
    var commits := NewCommits(objs, head, stop);
    ReachClosed(objs, CommitId(head));
    AncestorsMono(objs - {CommitId(stop)}, objs, head);
    forall c | c in commits ensures CommitId(c) in R { AncestorsReach(objs, head, c); }
    forall t | t in TreesOf(objs, commits) ensures t in R {
      var c :| c in commits && CommitId(c) in objs && t == TreeId(c.tree);
      assert t in Refs(CommitId(c));
    }
    ReachAllLeast(objs, TreesOf(objs, commits), R);
  }

  /** A new commit names its tree, new commits and the commit where the walk stopped. */
  lemma NewCommitRefs(objs: set<ObjId>, head: Commit, stop: Commit, c: Commit)
    requires c in NewCommits(objs, head, stop) && CommitId(c) in objs
    ensures TreeId(c.tree) in TreesOf(objs, NewCommits(objs, head, stop))
    ensures forall o <- Refs(CommitId(c)) ::
      o == TreeId(c.tree) || o == CommitId(stop) || o in CommitIds(NewCommits(objs, head, stop))
  {
    AncestorsClosed(objs - {CommitId(stop)}, head);
    forall p | p in c.parents ensures p == stop || p in NewCommits(objs, head, stop) {}
  }

  lemma SinceSuffices(objs: set<ObjId>, head: Commit, stop: Commit)
    ensures Reach(objs, CommitId(head)) <= Reach(objs, CommitId(stop)) + Since(objs, head, Some(stop))
  {
    var commits := NewCommits(objs, head, stop);
    var before, trees := Reach(objs, CommitId(stop)), ReachAll(objs, TreesOf(objs, commits));
    var S := before + (CommitIds(commits) + trees);
    ReachClosed(objs, CommitId(stop));
    ReachAllClosed(objs, TreesOf(objs, commits));
    AncestorsClosed(objs - {CommitId(stop)}, head);
    assert CommitId(head) in S;
    hide Reach, ReachAll, NewCommits, TreesOf, Refs;
    forall o | o in S && o in objs ensures Refs(o) <= S {
      if o in CommitIds(commits) {
        var c :| c in commits && o == CommitId(c);
        NewCommitRefs(objs, head, stop, c);
        assert TreeId(c.tree) in trees;
      } else {
        assert Refs(o) <= trees || Refs(o) <= before;
      }
    }
    ReachLeast(objs, CommitId(head), S);
  }

  // ----- Ancestry -----

  /** Stack the parents, unless one of them is the commit looked for. */
  method PushUntil(parents: seq<Commit>, wanted: Commit, stack0: seq<Commit>) returns (found: bool, stack: seq<Commit>)
    ensures found <==> wanted in parents
    ensures !found ==> stack == stack0 + parents
  {
    stack := stack0;
    for i := 0 to |parents|
      invariant stack == stack0 + parents[..i] && wanted !in parents[..i]
    {
      if parents[i] == wanted {
        return true, stack;
      }
      stack := stack + [parents[i]];
      assert parents[..i + 1] == parents[..i] + [parents[i]];
    }
    assert parents[..|parents|] == parents;
    return false, stack;
  }

  method IsAncestor(objs: set<ObjId>, ancestor: Commit, descendant: Commit) returns (r: bool)
    ensures r <==> ancestor in Ancestors(objs, descendant)
  {
    AncestorsClosed(objs, descendant);
    ghost var all := Ancestors(objs, descendant);
    if ancestor == descendant {
      return true;
    }
    hide Ancestors, Searching;
    SearchStarts(objs, descendant);
    var stack, visited := [descendant], {};
    while stack != []
      invariant Searching(objs, all, descendant, stack, visited)
      invariant !Queued(ancestor, stack, visited)
      decreases |all - visited|, |stack|
    {
      var c := stack[|stack| - 1];
      ghost var rest := stack[..|stack| - 1];
      SearchTop(objs, all, descendant, stack, visited);
      assert c != ancestor && ancestor !in rest by { assert forall x <- rest + [c] :: x in stack; }
      stack := stack[..|stack| - 1];
      if c in visited {
        SearchSkip(objs, all, descendant, rest, visited, c);
        continue;
      }
      ShrinksC(all, visited, c);
      ghost var before := visited;
      visited := visited + {c};
      if CommitId(c) !in objs {
        SearchStep(objs, all, descendant, rest, before, c, stack);
        continue;
      }
      var found;
      found, stack := PushUntil(c.parents, ancestor, stack);
      if found {
        return true;
      }
      SearchStep(objs, all, descendant, rest, before, c, stack);
    }
    Searched(objs, descendant, visited);
    return false;
  }

  /** A chain of parents, each but the last read from the store. */
  ghost predicate ParentPath(objs: set<ObjId>, path: seq<Commit>) {
    && path != []
    && forall i | 0 <= i < |path| - 1 :: CommitId(path[i]) in objs && path[i + 1] in path[i].parents
  }

  lemma {:induction false} PathEndsInAncestor(objs: set<ObjId>, path: seq<Commit>)
    requires ParentPath(objs, path)
    ensures path[|path| - 1] in Ancestors(objs, path[0])
    decreases |path|
  {
    AncestorsClosed(objs, path[0]);
    if |path| > 1 {
      PathEndsInAncestor(objs, path[1..]);
      AncestorsTrans(objs, path[0], path[1]);
    }
  }

  lemma {:induction false} AncestorHasPath(objs: set<ObjId>, c: Commit, x: Commit) returns (path: seq<Commit>)
    requires x in Ancestors(objs, c)
    ensures ParentPath(objs, path) && path[0] == c && path[|path| - 1] == x
  {
    if x == c {
      path := [c];
    } else {
      var p :| p in c.parents && x in Ancestors(objs, p);
      var rest := AncestorHasPath(objs, p, x);
      path := [c] + rest;
      assert forall i | 1 <= i < |path| :: path[i] == rest[i - 1];
    }
  }

  /** `is_ancestor` decides whether a path of parents leads from the descendant to the ancestor. */
  lemma AncestorIffPath(objs: set<ObjId>, c: Commit, x: Commit)
    ensures x in Ancestors(objs, c) <==>
            exists path :: ParentPath(objs, path) && path[0] == c && path[|path| - 1] == x
  {
    if x in Ancestors(objs, c) {
      var path := AncestorHasPath(objs, c, x);
    }
    forall path | ParentPath(objs, path) && path[0] == c && path[|path| - 1] == x
      ensures x in Ancestors(objs, c)
    {
      PathEndsInAncestor(objs, path);
    }
  }

  /** What the bounded walk takes for new: the commits to which some path of parents leads past the stop commit. */
  lemma NewCommitIffPath(objs: set<ObjId>, head: Commit, stop: Commit, x: Commit)
    ensures x in NewCommits(objs, head, stop) <==>
      exists path :: ParentPath(objs, path) && path[0] == head && path[|path| - 1] == x && stop !in path
  {
    var seen := objs - {CommitId(stop)};
    AncestorIffPath(seen, head, x);
    hide Ancestors;
    if path :| ParentPath(seen, path) && path[0] == head && path[|path| - 1] == x && x != stop {
      assert ParentPath(objs, path);
      forall i | 0 <= i < |path| ensures path[i] != stop {
        assert i < |path| - 1 ==> CommitId(path[i]) in seen;
      }
    }
    if path :| ParentPath(objs, path) && path[0] == head && path[|path| - 1] == x && stop !in path {
      assert path[|path| - 1] in path;
      forall i | 0 <= i < |path| - 1 ensures CommitId(path[i]) in seen {
        assert path[i] in path;
      }
      assert ParentPath(seen, path);
    }
  }

  /** Everything in the delta is a new commit or lies below the tree of one. */
  lemma SinceMeaning(objs: set<ObjId>, head: Commit, stop: Commit, o: ObjId)
    ensures o in Since(objs, head, Some(stop)) <==>
      (o.CommitId? && o.commit in NewCommits(objs, head, stop)) ||
      exists c <- NewCommits(objs, head, stop) :: CommitId(c) in objs && o in Reach(objs, TreeId(c.tree))
  {
    hide NewCommits, Reach;
    var commits := NewCommits(objs, head, stop);
    assert o in CommitIds(commits) <==> o.CommitId? && o.commit in commits;
    if c :| c in commits && CommitId(c) in objs && o in Reach(objs, TreeId(c.tree)) {
      assert TreeId(c.tree) in TreesOf(objs, commits);
    }
  }
}
