/**
 The merge base of two commits: two breadth-first searches towards the roots, one round each in
 turn, stopping at the first commit that both have seen.
 */
module MergeBase {
  import opened Objects

  /** One of the two searches: the commits seen so far, and those still to be expanded. */
  datatype Side = Side(seen: set<Commit>, queue: seq<Commit>)

  datatype Scan = Scan(side: Side, found: Option<Commit>)

  datatype State = State(a: Side, b: Side, found: Option<Commit>)

  /** Record the parents of an expanded commit, stopping at one the other side has seen. */
  function ScanParents(side: Side, parents: seq<Commit>, other: set<Commit>): (r: Scan)
    ensures side.seen <= r.side.seen && forall p | p in r.side.seen :: p in side.seen || p in parents
    ensures side.queue <= r.side.queue
    ensures forall q <- r.side.queue[|side.queue|..] :: q in r.side.seen && q in parents && q !in side.seen
    ensures forall q <- side.queue :: q in r.side.queue
    ensures forall q <- r.side.seen :: q in side.seen || q in r.side.queue
    ensures r.side.seen == side.seen ==> r.side.queue == side.queue
    ensures r.found.None? ==> (forall p <- parents :: p in r.side.seen) && r.side.seen * other == side.seen * other
    ensures r.found.Some? ==> r.found.value in parents && r.found.value in other && r.found.value !in side.seen
    decreases |parents|
  {
    if parents == [] then Scan(side, None)
    else if parents[0] in side.seen then ScanParents(side, parents[1..], other)
    else
      var p := parents[0];
      var side' := Side(side.seen + {p}, side.queue + [p]);
      assert p in side'.queue && side.queue <= side'.queue;
      if p in other then Scan(side', Some(p)) else ScanParents(side', parents[1..], other)
  }

  /** Take one commit from the queue, if there is one. */
  function Advance(objs: set<ObjId>, side: Side, other: set<Commit>): Scan {
    if side.queue == [] then Scan(side, None) else
      var c, rest := side.queue[0], Side(side.seen, side.queue[1..]);
      if c in other then Scan(rest, Some(c))
      else if CommitId(c) !in objs then Scan(rest, None)
      else ScanParents(rest, c.parents, other)
  }

  function Start(a: Commit, b: Commit): State {
    State(Side({a}, [a]), Side({b}, [b]), None)
  }

  function Round(objs: set<ObjId>, s: State): State {
    var x := Advance(objs, s.a, s.b.seen);
    if x.found.Some? then State(x.side, s.b, x.found) else
      var y := Advance(objs, s.b, x.side.seen);
      State(x.side, y.side, y.found)
  }

  predicate Running(s: State) {
    s.found.None? && (s.a.queue != [] || s.b.queue != [])
  }

  function Run(objs: set<ObjId>, s: State, n: nat): State
    decreases n
  {
    if n == 0 || !Running(s) then s else Run(objs, Round(objs, s), n - 1)
  }

  /** `r` is what the search from `a` and `b` returns. */
  ghost predicate Computes(objs: set<ObjId>, a: Commit, b: Commit, r: Option<Commit>) {
    if a == b then r == Some(a)
    else exists n: nat :: !Running(Run(objs, Start(a, b), n)) && Run(objs, Start(a, b), n).found == r
  }

  // ----- The algorithm -----

  method Expand(objs: set<ObjId>, seen0: set<Commit>, queue0: seq<Commit>, other: set<Commit>)
    returns (seen: set<Commit>, queue: seq<Commit>, found: Option<Commit>)
    ensures Scan(Side(seen, queue), found) == Advance(objs, Side(seen0, queue0), other)
  {
    seen, queue, found := seen0, queue0, None;
    if queue != [] {
      var current := queue[0];
      queue := queue[1..];
      if current in other {
        return seen, queue, Some(current);
      }
      if CommitId(current) in objs {
        for i := 0 to |current.parents|
          invariant ScanParents(Side(seen, queue), current.parents[i..], other)
                 == ScanParents(Side(seen0, queue0[1..]), current.parents, other)
        {
          var parent := current.parents[i];
          assert current.parents[i..][1..] == current.parents[i + 1..];
          if parent !in seen {
            seen := seen + {parent};
            queue := queue + [parent];
            if parent in other {
              return seen, queue, Some(parent);
            }
          }
        }
      }
    }
  }

  method FindMergeBase(objs: set<ObjId>, a: Commit, b: Commit) returns (r: Option<Commit>)
    ensures Computes(objs, a, b, r)
  {
    if a == b {
      return Some(a);
    }
    var seenA, seenB, queueA, queueB, found := {a}, {b}, [a], [b], None;
    ghost var all := Ancestors(objs, a) + Ancestors(objs, b);
    ghost var n := 0;
    InvariantInitially(objs, a, b);
    while queueA != [] || queueB != []
      invariant State(Side(seenA, queueA), Side(seenB, queueB), found) == Run(objs, Start(a, b), n)
      invariant found.None? && Invariant(objs, a, b, Run(objs, Start(a, b), n))
      decreases |all - seenA| + |all - seenB|, |queueA| + |queueB|
    {
      ghost var s := State(Side(seenA, queueA), Side(seenB, queueB), found);
      RunSnoc(objs, Start(a, b), n);
      InvariantKept(objs, a, b, s);
      n := n + 1;
      seenA, queueA, found := Expand(objs, seenA, queueA, seenB);
      if found.Some? {
        return found;
      }
      seenB, queueB, found := Expand(objs, seenB, queueB, seenA);
      if found.Some? {
        return found;
      }
      assert State(Side(seenA, queueA), Side(seenB, queueB), found) == Round(objs, s);
      Progress(objs, all, s.a, s.b.seen);
      Progress(objs, all, s.b, seenA);
    }
    return None;
  }

  /** A half-round sees new commits or, failing that, shortens the queue. */
  lemma Progress(objs: set<ObjId>, all: set<Commit>, side: Side, other: set<Commit>)
    requires Advance(objs, side, other).side.seen <= all
    ensures var side' := Advance(objs, side, other).side;
      && |all - side'.seen| <= |all - side.seen|
      && (|all - side'.seen| == |all - side.seen| ==>
           |side'.queue| <= |side.queue| && (side.queue != [] ==> |side'.queue| < |side.queue|))
  {
    var side' := Advance(objs, side, other).side;
    assert all - side.seen == (all - side'.seen) + (side'.seen - side.seen);
    assert |all - side.seen| == |all - side'.seen| + |side'.seen - side.seen|;
    if |side'.seen - side.seen| == 0 {
      assert side'.seen - side.seen == {};
      assert side'.seen == side.seen;
    }
  }

  lemma {:induction false} RunSnoc(objs: set<ObjId>, s: State, n: nat)
    requires Running(Run(objs, s, n))
    ensures Run(objs, s, n + 1) == Round(objs, Run(objs, s, n))
    decreases n
  {
    if n > 0 && Running(s) {
      RunSnoc(objs, Round(objs, s), n - 1);
    }
  }

  // ----- Invariant of the search -----

  /** A search has seen only ancestors of its root, and expanded all it has seen but the queue. */
  ghost predicate SideInvariant(objs: set<ObjId>, root: Commit, side: Side) {
    && root in side.seen
    && side.seen <= Ancestors(objs, root)
    && (forall q <- side.queue :: q in side.seen)
    && (forall x, p | x in side.seen && x !in side.queue && CommitId(x) in objs && p in x.parents :: p in side.seen)
  }

  /** Until a common commit is found the two searches are disjoint. */
  ghost predicate Invariant(objs: set<ObjId>, a: Commit, b: Commit, s: State) {
    match s.found
    case None => SideInvariant(objs, a, s.a) && SideInvariant(objs, b, s.b) && s.a.seen !! s.b.seen
    case Some(r) => r in Ancestors(objs, a) && r in Ancestors(objs, b)
  }

  lemma InvariantInitially(objs: set<ObjId>, a: Commit, b: Commit)
    requires a != b
    ensures Invariant(objs, a, b, Start(a, b))
  {
    AncestorsClosed(objs, a);
    AncestorsClosed(objs, b);
  }

  lemma SideKept(objs: set<ObjId>, root: Commit, side: Side, other: set<Commit>)
    requires SideInvariant(objs, root, side) && side.seen !! other
    ensures var r := Advance(objs, side, other);
      && (r.found.None? ==> SideInvariant(objs, root, r.side) && r.side.seen !! other)
      && (r.found.Some? ==> r.found.value in other && r.found.value in Ancestors(objs, root))
      && r.side.seen <= Ancestors(objs, root)
  {
    AncestorsClosed(objs, root);
    if side.queue != [] {
      var c, rest := side.queue[0], Side(side.seen, side.queue[1..]);
      assert side.queue == [c] + rest.queue;
      if CommitId(c) in objs {
        var r := ScanParents(rest, c.parents, other);
        assert r.side.queue == rest.queue + r.side.queue[|rest.queue|..];
        assert r.side.seen * other == {} || r.found.Some?;
      }
    }
  }

  lemma InvariantKept(objs: set<ObjId>, a: Commit, b: Commit, s: State)
    requires Running(s) && Invariant(objs, a, b, s)
    ensures Invariant(objs, a, b, Round(objs, s))
    ensures Round(objs, s).a.seen <= Ancestors(objs, a) && Round(objs, s).b.seen <= Ancestors(objs, b)
  {
    SideKept(objs, a, s.a, s.b.seen);
    var x := Advance(objs, s.a, s.b.seen);
    if x.found.None? {
      SideKept(objs, b, s.b, x.side.seen);
    }
  }

  lemma {:induction false} RunInvariant(objs: set<ObjId>, a: Commit, b: Commit, s: State, n: nat)
    requires Invariant(objs, a, b, s)
    ensures Invariant(objs, a, b, Run(objs, s, n))
    decreases n
  {
    hide Round, Running, Invariant;
    if n > 0 && Running(s) {
      InvariantKept(objs, a, b, s);
      RunInvariant(objs, a, b, Round(objs, s), n - 1);
    }
  }

  lemma {:induction false} RunHalts(objs: set<ObjId>, s: State, n: nat, m: nat)
    requires !Running(Run(objs, s, n)) && !Running(Run(objs, s, m))
    ensures Run(objs, s, n) == Run(objs, s, m)
    decreases n
  {
    hide Round, Running;
    if n > 0 && m > 0 && Running(s) {
      RunHalts(objs, Round(objs, s), n - 1, m - 1);
    }
  }

  /** The search has one answer. */
  lemma ComputesUnique(objs: set<ObjId>, a: Commit, b: Commit, r: Option<Commit>, r': Option<Commit>)
    requires Computes(objs, a, b, r) && Computes(objs, a, b, r')
    ensures r == r'
  {
    if a != b {
      var n: nat :| !Running(Run(objs, Start(a, b), n)) && Run(objs, Start(a, b), n).found == r;
      var m: nat :| !Running(Run(objs, Start(a, b), m)) && Run(objs, Start(a, b), m).found == r';
      RunHalts(objs, Start(a, b), n, m);
    }
  }

  /** The search has an answer. */
  lemma Answer(objs: set<ObjId>, a: Commit, b: Commit) returns (r: Option<Commit>)
    ensures Computes(objs, a, b, r)
  {
    if a == b {
      r := Some(a);
    } else {
      InvariantInitially(objs, a, b);
      var n := Halts(objs, a, b, Start(a, b));
      r := Run(objs, Start(a, b), n).found;
    }
  }

  lemma {:induction false} Halts(objs: set<ObjId>, a: Commit, b: Commit, s: State) returns (n: nat)
    requires Invariant(objs, a, b, s)
    ensures !Running(Run(objs, s, n))
    decreases |Ancestors(objs, a) - s.a.seen| + |Ancestors(objs, b) - s.b.seen|, |s.a.queue| + |s.b.queue|
  {
    hide Advance, Round, Invariant, Ancestors;
    n := 0;
    if Running(s) {
      InvariantKept(objs, a, b, s);
      var s' := Round(objs, s);
      var m := 0;
      if Running(s') {
        HalfSteps(objs, a, b, s);
        m := Halts(objs, a, b, s');
      }
      n := m + 1;
    }
  }

  /** A round that goes on makes the search smaller. */
  lemma HalfSteps(objs: set<ObjId>, a: Commit, b: Commit, s: State)
    requires Running(s) && Invariant(objs, a, b, s) && Round(objs, s).found.None?
    ensures var s' := Round(objs, s);
      var before := |Ancestors(objs, a) - s.a.seen| + |Ancestors(objs, b) - s.b.seen|;
      var after := |Ancestors(objs, a) - s'.a.seen| + |Ancestors(objs, b) - s'.b.seen|;
      after < before || (after == before && |s'.a.queue| + |s'.b.queue| < |s.a.queue| + |s.b.queue|)
  {
    hide Advance, Ancestors;
    InvariantKept(objs, a, b, s);
    Progress(objs, Ancestors(objs, a), s.a, s.b.seen);
    Progress(objs, Ancestors(objs, b), s.b, Advance(objs, s.a, s.b.seen).side.seen);
  }

  ghost predicate Common(objs: set<ObjId>, a: Commit, b: Commit, x: Commit) {
    x in Ancestors(objs, a) && x in Ancestors(objs, b)
  }

  /** Only common ancestors are returned, and None exactly when there is none. */
  lemma BaseIsCommon(objs: set<ObjId>, a: Commit, b: Commit, r: Option<Commit>)
    requires Computes(objs, a, b, r)
    ensures r.Some? ==> Common(objs, a, b, r.value)
    ensures r.None? <==> forall x :: !Common(objs, a, b, x)
  {
    if a == b {
      AncestorsClosed(objs, a);
      assert Common(objs, a, b, a);
    } else {
      var n: nat :| !Running(Run(objs, Start(a, b), n)) && Run(objs, Start(a, b), n).found == r;
      InvariantInitially(objs, a, b);
      RunInvariant(objs, a, b, Start(a, b), n);
      var s := Run(objs, Start(a, b), n);
      if r.None? {
        AncestorsLeast(objs, a, s.a.seen);
        AncestorsLeast(objs, b, s.b.seen);
      } else {
        assert Common(objs, a, b, r.value);
      }
    }
  }

  /** The server's fast-forward test is sound: a base equal to `a` makes `b` a descendant of `a`. */
  lemma FastForwardSound(objs: set<ObjId>, a: Commit, b: Commit)
    requires Computes(objs, a, b, Some(a))
    ensures a in Ancestors(objs, b)
  {
    BaseIsCommon(objs, a, b, Some(a));
  }

  // ----- One gate to the common history: the base is the lowest common ancestor -----

  /** Each branch enters the common history at `g` and nowhere else. */
  ghost predicate Gate(objs: set<ObjId>, a: Commit, b: Commit, g: Commit) {
    && (a in Ancestors(objs, b) ==> a == g)
    && (b in Ancestors(objs, a) ==> b == g)
    && forall x, p | (x in Ancestors(objs, a) || x in Ancestors(objs, b)) && !Common(objs, a, b, x)
                     && CommitId(x) in objs && p in x.parents && Common(objs, a, b, p) :: p == g
  }

  /** A search that has seen any common commit has seen the gate. */
  ghost predicate ThroughGate(objs: set<ObjId>, a: Commit, b: Commit, g: Commit, side: Side) {
    forall x <- side.seen | Common(objs, a, b, x) :: g in side.seen
  }

  lemma GateSwap(objs: set<ObjId>, a: Commit, b: Commit, g: Commit)
    requires Gate(objs, a, b, g)
    ensures Gate(objs, b, a, g)
  {
    assert forall x :: Common(objs, b, a, x) <==> Common(objs, a, b, x);
  }

  /** What a half-round adds are parents of the commit it takes. */
  lemma AdvanceAdds(objs: set<ObjId>, side: Side, other: set<Commit>)
    requires forall q <- side.queue :: q in side.seen
    ensures var r := Advance(objs, side, other);
      && (forall p <- r.side.seen ::
        p in side.seen || (side.queue != [] && CommitId(side.queue[0]) in objs && p in side.queue[0].parents))
      && ((r.found.Some? && side.seen !! other) ==>
            side.queue != [] && CommitId(side.queue[0]) in objs && r.found.value in side.queue[0].parents &&
              r.found.value in other)
  {
  }

  /** A half-round keeps to the gate, and can only meet the other search there. */
  lemma GateKept(objs: set<ObjId>, a: Commit, b: Commit, g: Commit, x: Side, y: Side)
    requires Gate(objs, a, b, g)
    requires SideInvariant(objs, a, x) && SideInvariant(objs, b, y) && x.seen !! y.seen
    requires ThroughGate(objs, a, b, g, x) && ThroughGate(objs, a, b, g, y)
    ensures var r := Advance(objs, x, y.seen);
      if r.found.None? then ThroughGate(objs, a, b, g, r.side) else r.found.value == g
  {
    hide Ancestors;
    var r := Advance(objs, x, y.seen);
    AdvanceAdds(objs, x, y.seen);
    SideKept(objs, a, x, y.seen);
    hide Advance;
    if x.queue != [] && CommitId(x.queue[0]) in objs {
      var c := x.queue[0];
      assert c in x.seen;
      if r.found.Some? {
        assert Common(objs, a, b, r.found.value);
        assert !(g in x.seen && g in y.seen);
      } else {
        AdvanceKeeps(objs, x, y.seen);
        forall p | p in r.side.seen && Common(objs, a, b, p) ensures g in r.side.seen {
          if p !in x.seen && !Common(objs, a, b, c) {
            assert p == g;
          }
        }
      }
    }
  }

  lemma AdvanceKeeps(objs: set<ObjId>, side: Side, other: set<Commit>)
    ensures side.seen <= Advance(objs, side, other).side.seen
  {
  }

  lemma {:induction false} RunGate(objs: set<ObjId>, a: Commit, b: Commit, g: Commit, s: State, n: nat)
    requires Gate(objs, a, b, g) && s.found.None? && Invariant(objs, a, b, s)
    requires ThroughGate(objs, a, b, g, s.a) && ThroughGate(objs, a, b, g, s.b)
    ensures Run(objs, s, n).found.Some? ==> Run(objs, s, n).found.value == g
    decreases n
  {
    hide Advance, SideInvariant, Gate, ThroughGate;
    if n > 0 && Running(s) {
      InvariantKept(objs, a, b, s);
      GateKept(objs, a, b, g, s.a, s.b);
      SideKept(objs, a, s.a, s.b.seen);
      var x := Advance(objs, s.a, s.b.seen);
      if x.found.None? {
        GateSwap(objs, a, b, g);
        GateSides(objs, a, b, g, s.b);
        GateSides(objs, a, b, g, x.side);
        GateKept(objs, b, a, g, s.b, x.side);
        var y := Advance(objs, s.b, x.side.seen);
        GateSides(objs, b, a, g, y.side);
        if y.found.None? {
          RunGate(objs, a, b, g, Round(objs, s), n - 1);
        }
      }
    }
  }

  lemma GateSides(objs: set<ObjId>, a: Commit, b: Commit, g: Commit, side: Side)
    ensures ThroughGate(objs, a, b, g, side) ==> ThroughGate(objs, b, a, g, side)
  {
    assert forall x :: Common(objs, b, a, x) <==> Common(objs, a, b, x);
  }

  /** Main result: on every graph, a gate to the common history is the base. */
  lemma BaseIsGate(objs: set<ObjId>, a: Commit, b: Commit, g: Commit, r: Option<Commit>)
    requires Gate(objs, a, b, g) && Common(objs, a, b, g) && Computes(objs, a, b, r)
    ensures r == Some(g)
  {
    BaseIsCommon(objs, a, b, r);
    AncestorsClosed(objs, a);
    AncestorsClosed(objs, b);
    if a != b {
      var n: nat :| !Running(Run(objs, Start(a, b), n)) && Run(objs, Start(a, b), n).found == r;
      InvariantInitially(objs, a, b);
      RunGate(objs, a, b, g, Start(a, b), n);
    }
  }

  /** Every common ancestor lies at or behind the gate. */
  lemma GateIsLowest(objs: set<ObjId>, a: Commit, b: Commit, g: Commit, c: Commit)
    requires Gate(objs, a, b, g) && Common(objs, a, b, c)
    ensures c in Ancestors(objs, g)
  {
    AncestorsClosed(objs, a);
    if a !in Ancestors(objs, b) {
      BehindGate(objs, a, b, g, a, c);
    }
  }

  lemma {:induction false} BehindGate(objs: set<ObjId>, a: Commit, b: Commit, g: Commit, x: Commit, c: Commit)
    requires Gate(objs, a, b, g) && Common(objs, a, b, c)
    requires x in Ancestors(objs, a) && !Common(objs, a, b, x) && c in Ancestors(objs, x)
    ensures c in Ancestors(objs, g)
    decreases x
  {
    AncestorsClosed(objs, a);
    var p :| CommitId(x) in objs && p in x.parents && c in Ancestors(objs, p);
    if !Common(objs, a, b, p) {
      BehindGate(objs, a, b, g, p, c);
    }
  }

  /** When `a` is the only way from `b` into the history of `a`, the fast-forward test is exact. */
  lemma FastForwardThroughGate(objs: set<ObjId>, a: Commit, b: Commit, r: Option<Commit>)
    requires a in Ancestors(objs, b) && Computes(objs, a, b, r)
    requires forall x, p | x in Ancestors(objs, b) && x !in Ancestors(objs, a) && CommitId(x) in objs
                           && p in x.parents && p in Ancestors(objs, a) :: p == a
    ensures r == Some(a)
  {
    AncestorsClosed(objs, a);
    AncestorsTrans(objs, b, a);
    if b in Ancestors(objs, a) {
      AncestorsSmaller(objs, a, b);
      AncestorsSmaller(objs, b, a);
    }
    BaseIsGate(objs, a, b, a, r);
  }

  // ----- Linear histories have a gate -----

  ghost predicate Linear(objs: set<ObjId>, c: Commit) {
    forall x <- Ancestors(objs, c) | CommitId(x) in objs :: |x.parents| <= 1
  }

  lemma LinearParent(objs: set<ObjId>, c: Commit)
    requires Linear(objs, c) && CommitId(c) in objs && c.parents != []
    ensures c.parents == [c.parents[0]] && Linear(objs, c.parents[0])
    ensures Ancestors(objs, c) == {c} + Ancestors(objs, c.parents[0])
  {
    AncestorsClosed(objs, c);
    assert c.parents == [c.parents[0]];
    AncestorsClosed(objs, c.parents[0]);
    AncestorsTrans(objs, c, c.parents[0]);
  }

  /** In a linear history of two commits one is an ancestor of the other. */
  lemma {:induction false} LinearOrder(objs: set<ObjId>, c: Commit, x: Commit, y: Commit)
    requires Linear(objs, c) && x in Ancestors(objs, c) && y in Ancestors(objs, c)
    ensures x in Ancestors(objs, y) || y in Ancestors(objs, x)
    decreases c
  {
    if x != c && y != c {
      LinearParent(objs, c);
      LinearOrder(objs, c.parents[0], x, y);
    }
  }

  /** The first common commit along a linear history. */
  lemma {:induction false} FirstCommon(objs: set<ObjId>, a: Commit, b: Commit, c: Commit) returns (g: Commit)
    requires Linear(objs, a) && Common(objs, a, b, c)
    ensures Common(objs, a, b, g)
    ensures forall x <- Ancestors(objs, a) :: x in Ancestors(objs, b) <==> x in Ancestors(objs, g)
    decreases a
  {
    AncestorsClosed(objs, a);
    if a in Ancestors(objs, b) {
      g := a;
      AncestorsTrans(objs, b, a);
    } else {
      LinearParent(objs, a);
      g := FirstCommon(objs, a.parents[0], b, c);
      if a in Ancestors(objs, g) {
        AncestorsTrans(objs, b, g);
      }
    }
  }

  lemma LinearGate(objs: set<ObjId>, a: Commit, b: Commit, c: Commit) returns (g: Commit)
    requires Linear(objs, a) && Linear(objs, b) && Common(objs, a, b, c)
    ensures Common(objs, a, b, g) && Gate(objs, a, b, g)
  {
    g := FirstCommon(objs, a, b, c);
    AncestorsTrans(objs, a, g);
    AncestorsTrans(objs, b, g);
    AncestorsClosed(objs, a);
    AncestorsClosed(objs, b);
    EntryIsFirst(objs, a, b, g, a);
    EntryIsFirst(objs, b, a, g, b);
    forall x, p | (x in Ancestors(objs, a) || x in Ancestors(objs, b)) && !Common(objs, a, b, x)
                  && CommitId(x) in objs && p in x.parents && Common(objs, a, b, p)
      ensures p == g
    {
      if x in Ancestors(objs, a) {
        EntryAtParent(objs, a, b, g, x, p);
      } else {
        EntryAtParent(objs, b, a, g, x, p);
      }
    }
  }

  /** A common commit with the gate behind it is the gate. */
  lemma EntryIsFirst(objs: set<ObjId>, a: Commit, b: Commit, g: Commit, p: Commit)
    requires g in Ancestors(objs, p)
    requires forall x | Common(objs, a, b, x) :: x in Ancestors(objs, g)
    ensures Common(objs, a, b, p) ==> p == g
  {
    if Common(objs, a, b, p) {
      AncestorsSmaller(objs, p, g);
      AncestorsSmaller(objs, g, p);
    }
  }

  lemma EntryAtParent(objs: set<ObjId>, a: Commit, b: Commit, g: Commit, x: Commit, p: Commit)
    requires Linear(objs, a) && Common(objs, a, b, g)
    requires forall y | Common(objs, a, b, y) :: y in Ancestors(objs, g)
    requires x in Ancestors(objs, a) && !Common(objs, a, b, x) && CommitId(x) in objs && p in x.parents &&
      Common(objs, a, b, p)
    ensures p == g
  {
    LinearOrder(objs, a, x, g);
    if x in Ancestors(objs, g) {
      AncestorsTrans(objs, a, g);
      AncestorsTrans(objs, b, g);
    }
    AncestorsTrans(objs, a, x);
    LinearParent(objs, x);
    EntryIsFirst(objs, a, b, g, p);
  }

  /** On linear histories every common ancestor is an ancestor of the base. */
  lemma BaseIsLowest(objs: set<ObjId>, a: Commit, b: Commit, r: Option<Commit>, c: Commit)
    requires Linear(objs, a) && Linear(objs, b)
    requires Computes(objs, a, b, r) && Common(objs, a, b, c)
    ensures r.Some? && Common(objs, a, b, r.value) && c in Ancestors(objs, r.value)
  {
    var g := LinearGate(objs, a, b, c);
    BaseIsGate(objs, a, b, g, r);
    GateIsLowest(objs, a, b, g, c);
  }

  /** There the fast-forward test is exact. */
  lemma FastForwardLinear(objs: set<ObjId>, a: Commit, b: Commit, r: Option<Commit>)
    requires Linear(objs, a) && Linear(objs, b) && Computes(objs, a, b, r)
    ensures r == Some(a) <==> a in Ancestors(objs, b)
  {
    if a in Ancestors(objs, b) {
      AncestorsClosed(objs, a);
      BaseIsLowest(objs, a, b, r, a);
      AncestorsSmaller(objs, a, r.value);
      AncestorsSmaller(objs, r.value, a);
    } else if r == Some(a) {
      FastForwardSound(objs, a, b);
    }
  }

  // ----- The base in general: a race of two searches that know nothing of each other -----

  /** A breadth-first search from `root` alone, after `n` expansions. */
  function Solo(objs: set<ObjId>, root: Commit, n: nat): Side {
    if n == 0 then Side({root}, [root]) else Advance(objs, Solo(objs, root, n - 1), {}).side
  }

  /** `x` is the first of `met` in the queue. */
  ghost predicate IsFirst(queue: seq<Commit>, met: set<Commit>, x: Commit) {
    exists i | 0 <= i < |queue| :: queue[i] == x && x in met && forall j | 0 <= j < i :: queue[j] !in met
  }

  /**
   The lone searches move in turn, the one from `a` first.  With their `h`-th move both have seen some
   commit for the first time, and of those commits `x` is the first that this move discovered.
   */
  ghost predicate FirstMet(objs: set<ObjId>, a: Commit, b: Commit, h: nat, x: Commit) {
    && h > 0 && Solo(objs, a, h / 2).seen !! Solo(objs, b, (h - 1) / 2).seen
    && var x', y' := Solo(objs, a, (h + 1) / 2), Solo(objs, b, h / 2);
    IsFirst((if h % 2 == 1 then x' else y').queue, x'.seen * y'.seen, x)
  }

  /** Looking out for the other search changes nothing until a commit it has seen turns up. */
  lemma {:induction false} ScanFound(side: Side, parents: seq<Commit>, other: set<Commit>)
    requires side.seen !! other && forall q <- side.queue :: q in side.seen
    ensures var r, alone := ScanParents(side, parents, other), ScanParents(side, parents, {}).side;
      match r.found
      case None => r.side == alone && alone.seen !! other
      case Some(x) => IsFirst(alone.queue, alone.seen * other, x)
    decreases |parents|
  {
    if parents != [] {
      if parents[0] in side.seen {
        ScanFound(side, parents[1..], other);
      } else {
        var p := parents[0];
        var side' := Side(side.seen + {p}, side.queue + [p]);
        if p in other {
          var alone := ScanParents(side', parents[1..], {}).side;
          assert side'.queue <= alone.queue;
          assert forall j | 0 <= j < |side.queue| :: alone.queue[j] == side.queue[j] && side.queue[j] in side.queue;
          assert alone.queue[|side.queue|] == p;
        } else {
          ScanFound(side', parents[1..], other);
        }
      }
    }
  }

  lemma AdvanceFound(objs: set<ObjId>, side: Side, other: set<Commit>)
    requires side.seen !! other && forall q <- side.queue :: q in side.seen
    ensures var r, alone := Advance(objs, side, other), Advance(objs, side, {}).side;
      match r.found
      case None => r.side == alone && alone.seen !! other
      case Some(x) => side.queue != [] && IsFirst(alone.queue, alone.seen * other, x)
  {
    if side.queue != [] {
      var rest := Side(side.seen, side.queue[1..]);
      assert side.queue[0] in side.queue && forall q <- rest.queue :: q in side.queue;
      if CommitId(side.queue[0]) in objs {
        ScanFound(rest, side.queue[0].parents, other);
      }
    }
  }

  lemma {:induction false} SoloInvariant(objs: set<ObjId>, root: Commit, n: nat)
    ensures SideInvariant(objs, root, Solo(objs, root, n))
    decreases n
  {
    hide Advance;
    if n == 0 {
      AncestorsClosed(objs, root);
    } else {
      SoloInvariant(objs, root, n - 1);
      SideKept(objs, root, Solo(objs, root, n - 1), {});
      AdvanceFound(objs, Solo(objs, root, n - 1), {});
    }
  }

  lemma {:induction false} SoloGrows(objs: set<ObjId>, root: Commit, n: nat, m: nat)
    requires n <= m
    ensures Solo(objs, root, n).seen <= Solo(objs, root, m).seen
    decreases m
  {
    hide Advance;
    if n < m {
      SoloGrows(objs, root, n, m - 1);
      AdvanceKeeps(objs, Solo(objs, root, m - 1), {});
    }
  }

  /** As long as they have nothing in common, the two searches run as they would alone. */
  lemma {:induction false} RunIsSolo(objs: set<ObjId>, a: Commit, b: Commit, n: nat)
    requires Solo(objs, a, n).seen !! Solo(objs, b, n).seen
    ensures Run(objs, Start(a, b), n) == State(Solo(objs, a, n), Solo(objs, b, n), None)
    decreases n
  {
    hide Advance, SideInvariant;
    if n > 0 {
      SoloGrows(objs, a, n - 1, n);
      SoloGrows(objs, b, n - 1, n);
      RunIsSolo(objs, a, b, n - 1);
      HalvesAlone(objs, a, b, n - 1);
      var s := Run(objs, Start(a, b), n - 1);
      if Running(s) {
        RunSnoc(objs, Start(a, b), n - 1);
      } else {
        RunStays(objs, Start(a, b), n - 1);
        SoloStays(objs, a, n - 1);
        SoloStays(objs, b, n - 1);
      }
    }
  }

  lemma HalvesAlone(objs: set<ObjId>, a: Commit, b: Commit, n: nat)
    requires Solo(objs, a, n + 1).seen !! Solo(objs, b, n + 1).seen
    ensures Round(objs, State(Solo(objs, a, n), Solo(objs, b, n), None)) ==
      State(Solo(objs, a, n + 1), Solo(objs, b, n + 1), None)
  {
    hide Advance;
    SoloGrows(objs, a, n, n + 1);
    SoloGrows(objs, b, n, n + 1);
    SoloInvariant(objs, a, n);
    SoloInvariant(objs, b, n);
    AdvanceFound(objs, Solo(objs, a, n), Solo(objs, b, n).seen);
    AdvanceFound(objs, Solo(objs, b, n), Solo(objs, a, n + 1).seen);
  }

  lemma SoloStays(objs: set<ObjId>, root: Commit, n: nat)
    ensures Solo(objs, root, n).queue == [] ==> Solo(objs, root, n + 1) == Solo(objs, root, n)
  {
  }

  lemma {:induction false} RunStays(objs: set<ObjId>, s: State, n: nat)
    requires !Running(Run(objs, s, n))
    ensures Run(objs, s, n + 1) == Run(objs, s, n)
    decreases n
  {
    hide Round, Running;
    if n > 0 && Running(s) {
      RunStays(objs, Round(objs, s), n - 1);
    }
  }

  /** The commit met first is the base. */
  lemma FirstMetIsBase(objs: set<ObjId>, a: Commit, b: Commit, h: nat, x: Commit)
    requires a != b && FirstMet(objs, a, b, h, x)
    ensures Computes(objs, a, b, Some(x))
  {
    hide Advance, SideInvariant, IsFirst;
    var n := (h - 1) / 2;
    SoloGrows(objs, a, n, h / 2);
    SoloInvariant(objs, a, n);
    SoloInvariant(objs, b, n);
    assert Solo(objs, a, n).seen !! Solo(objs, b, n).seen;
    RunIsSolo(objs, a, b, n);
    var s := Run(objs, Start(a, b), n);
    SideSeen(objs, a, s.a);
    SideSeen(objs, b, s.b);
    AdvanceFound(objs, s.a, s.b.seen);
    if h == 2 * n + 1 {
      MetNow(Advance(objs, s.a, {}).side, s.b.seen, x);
      FirstUniqueIf(Solo(objs, a, n + 1), s.b.seen, x, Advance(objs, s.a, s.b.seen).found);
    } else {
      assert h == 2 * n + 2;
      SoloInvariant(objs, a, n + 1);
      MetNotYet(Solo(objs, a, n + 1), s.b.seen, Advance(objs, s.a, s.b.seen).found);
      AdvanceFound(objs, s.b, Solo(objs, a, n + 1).seen);
      assert Solo(objs, a, n + 1).seen * Solo(objs, b, n + 1).seen ==
        Solo(objs, b, n + 1).seen * Solo(objs, a, n + 1).seen;
      MetNow(Solo(objs, b, n + 1), Solo(objs, a, n + 1).seen, x);
      FirstUniqueIf(Solo(objs, b, n + 1), Solo(objs, a, n + 1).seen, x,
        Advance(objs, s.b, Solo(objs, a, n + 1).seen).found);
    }
    assert Round(objs, s).found == Some(x);
    RunSnoc(objs, Start(a, b), n);
  }

  lemma SideSeen(objs: set<ObjId>, root: Commit, side: Side)
    requires SideInvariant(objs, root, side)
    ensures forall q <- side.queue :: q in side.seen
  {
  }

  lemma MetNow(alone: Side, other: set<Commit>, x: Commit)
    requires IsFirst(alone.queue, alone.seen * other, x)
    ensures !(alone.seen !! other)
  {
    assert x in alone.seen * other;
  }

  lemma MetNotYet(alone: Side, other: set<Commit>, found: Option<Commit>)
    requires alone.seen !! other
    ensures found.Some? ==> !IsFirst(alone.queue, alone.seen * other, found.value)
  {
  }

  lemma FirstUniqueIf(alone: Side, other: set<Commit>, x: Commit, found: Option<Commit>)
    requires IsFirst(alone.queue, alone.seen * other, x)
    requires found.Some? && IsFirst(alone.queue, alone.seen * other, found.value)
    ensures found == Some(x)
  {
  }

  /** Some commit is met first when there is a base. */
  lemma SomeFirstMet(objs: set<ObjId>, a: Commit, b: Commit, r: Commit) returns (h: nat, x: Commit)
    requires a != b && Computes(objs, a, b, Some(r))
    ensures FirstMet(objs, a, b, h, x)
  {
    hide Advance;
    var n: nat :| !Running(Run(objs, Start(a, b), n)) && Run(objs, Start(a, b), n).found == Some(r);
    if Solo(objs, a, n).seen !! Solo(objs, b, n).seen {
      RunIsSolo(objs, a, b, n);
    }
    h := FirstMove(objs, a, b, 2 * n);
    var k := (h - 1) / 2;
    SoloInvariant(objs, a, k);
    SoloInvariant(objs, b, k);
    if h % 2 == 1 {
      AdvanceFound(objs, Solo(objs, a, k), Solo(objs, b, k).seen);
      x := Advance(objs, Solo(objs, a, k), Solo(objs, b, k).seen).found.value;
    } else {
      AdvanceFound(objs, Solo(objs, b, k), Solo(objs, a, k + 1).seen);
      x := Advance(objs, Solo(objs, b, k), Solo(objs, a, k + 1).seen).found.value;
      assert Solo(objs, a, k + 1).seen * Solo(objs, b, k + 1).seen ==
        Solo(objs, b, k + 1).seen * Solo(objs, a, k + 1).seen;
    }
  }

  lemma {:induction false} FirstMove(objs: set<ObjId>, a: Commit, b: Commit, m: nat) returns (h: nat)
    requires a != b && !(Solo(objs, a, (m + 1) / 2).seen !! Solo(objs, b, m / 2).seen)
    ensures h > 0 && Solo(objs, a, h / 2).seen !! Solo(objs, b, (h - 1) / 2).seen
    ensures !(Solo(objs, a, (h + 1) / 2).seen !! Solo(objs, b, h / 2).seen)
    decreases m
  {
    if m > 0 && !(Solo(objs, a, m / 2).seen !! Solo(objs, b, (m - 1) / 2).seen) {
      h := FirstMove(objs, a, b, m - 1);
    } else {
      h := m;
    }
  }

  /** Main result in general: the base is exactly the commit that two lone searches have both seen first. */
  lemma BaseIsFirstMet(objs: set<ObjId>, a: Commit, b: Commit, r: Option<Commit>, x: Commit)
    requires a != b && Computes(objs, a, b, r)
    ensures r == Some(x) <==> exists h :: FirstMet(objs, a, b, h, x)
  {
    hide FirstMet, Computes;
    if r == Some(x) {
      var h, y := SomeFirstMet(objs, a, b, x);
      FirstMetIsBase(objs, a, b, h, y);
      ComputesUnique(objs, a, b, r, Some(y));
    }
    forall h | FirstMet(objs, a, b, h, x) ensures r == Some(x) {
      FirstMetIsBase(objs, a, b, h, x);
      ComputesUnique(objs, a, b, r, Some(x));
    }
  }

  lemma ParentsAreOlder(objs: set<ObjId>, p: Commit, a: Commit, m: Commit, c: Commit)
    requires a.parents == [p] && m.parents == [a] && c.parents == [m, p]
    requires CommitId(a) in objs && CommitId(m) in objs && CommitId(c) in objs
    ensures p < a < m < c && p != a && p != m && p != c && a != m && a != c && m != c
    ensures Common(objs, a, c, a) && a !in Ancestors(objs, p)
  {
    AncestorsClosed(objs, c);
    AncestorsClosed(objs, a);
    assert p in a.parents && a in m.parents && m in c.parents;
    assert m in Ancestors(objs, c) && a in Ancestors(objs, c);
    if a in Ancestors(objs, p) {
      AncestorsSmaller(objs, p, a);
    }
  }

  /**
   With merges the base need not be lowest, nor the fast-forward test complete: in every history
   p <- a <- m where c has parents m and p, the search from a and c answers p, although a is an
   ancestor of c.
   */
  lemma BaseNotLowest(objs: set<ObjId>, p: Commit, a: Commit, m: Commit, c: Commit)
    requires a.parents == [p] && m.parents == [a] && c.parents == [m, p]
    requires CommitId(a) in objs && CommitId(m) in objs && CommitId(c) in objs
    ensures Computes(objs, a, c, Some(p))
    ensures Common(objs, a, c, a) && a !in Ancestors(objs, p)
  {
    ParentsAreOlder(objs, p, a, m, c);
    hide Ancestors;
    AdvanceLinear(objs, {a}, a, {c});
    assert {a} + {p} == {a, p};
    SecondParentMet(objs, p, m, c, {a, p});
    hide Advance;
    var s := Round(objs, Start(a, c));
    assert s.found == Some(p);
    assert Run(objs, Start(a, c), 1) == Run(objs, s, 0) == s;
  }

  /** A half-round of a search whose one waiting commit has at most one parent. */
  lemma AdvanceLinear(objs: set<ObjId>, seen: set<Commit>, c: Commit, other: set<Commit>)
    requires c !in other && |c.parents| <= 1
    ensures Advance(objs, Side(seen, [c]), other) ==
      if CommitId(c) !in objs || c.parents == [] || c.parents[0] in seen then Scan(Side(seen, []), None)
      else
        var p := c.parents[0];
        Scan(Side(seen + {p}, [p]), if p in other then Some(p) else None)
  {
  }

  lemma SecondParentMet(objs: set<ObjId>, p: Commit, m: Commit, c: Commit, other: set<Commit>)
    requires c.parents == [m, p] && CommitId(c) in objs && m != c && p != c && p != m
    requires c !in other && m !in other && p in other
    ensures Advance(objs, Side({c}, [c]), other).found == Some(p)
  {
    var rest := Side({c}, [c][1..]);
    assert [m, p][1..] == [p];
    assert ScanParents(Side(rest.seen + {m}, rest.queue + [m]), [p], other).found == Some(p);
    assert ScanParents(rest, [m, p], other).found == Some(p);
  }

  /** Such a history exists. */
  lemma BaseNotLowestExample(t: Tree) returns (objs: set<ObjId>, a: Commit, c: Commit, r: Commit)
    ensures Computes(objs, a, c, Some(r)) && Common(objs, a, c, a) && a !in Ancestors(objs, r)
  {
    r := Commit(t, [], "", "p", 0);
    a := Commit(t, [r], "", "a", 1);
    var m := Commit(t, [a], "", "m", 2);
    c := Commit(t, [m, r], "", "c", 3);
    objs := {CommitId(r), CommitId(a), CommitId(m), CommitId(c)};
    BaseNotLowest(objs, r, a, m, c);
  }

  // ----- The order of discovery -----

  /** The commits at most `k` parent steps from `root`. */
  ghost function Ball(objs: set<ObjId>, root: Commit, k: nat): set<Commit> {
    if k == 0 then {root} else
      var inner := Ball(objs, root, k - 1);
      inner + set c, p | c in inner && CommitId(c) in objs && p in c.parents :: p
  }

  /** All commits within `k` steps have been seen; the queue holds some of those, then some one step further. */
  ghost predicate Layered(objs: set<ObjId>, root: Commit, side: Side, k: nat, i: nat) {
    && Ball(objs, root, k) <= side.seen <= Ball(objs, root, k + 1) && i <= |side.queue|
    && (forall q <- side.queue[..i] :: q in Ball(objs, root, k))
    && (forall q <- side.queue[i..] :: q !in Ball(objs, root, k))
  }

  /**
   A search sees commits breadth first: at any time all commits within some number of steps, and none that is
   more than one step further.
   */
  lemma SoloBreadthFirst(objs: set<ObjId>, root: Commit, n: nat)
    ensures exists k: nat :: Ball(objs, root, k) <= Solo(objs, root, n).seen <= Ball(objs, root, k + 1)
  {
    var k, i := SoloLayered(objs, root, n);
  }

  lemma {:induction false} SoloLayered(objs: set<ObjId>, root: Commit, n: nat) returns (k: nat, i: nat)
    ensures Layered(objs, root, Solo(objs, root, n), k, i)
    decreases n
  {
    hide *;
    if n == 0 {
      LayeredStarts(objs, root);
      k, i := 0, 1;
    } else {
      var side := Solo(objs, root, n - 1);
      k, i := SoloLayered(objs, root, n - 1);
      SoloInvariant(objs, root, n - 1);
      SoloNext(objs, root, n);
      if side.queue == [] {
        AdvanceIdle(objs, side);
        return;
      }
      if i == 0 {
        NextLayer(objs, root, side, k);
        k, i := k + 1, |side.queue|;
      }
      LayeredStep(objs, root, side, k, i);
      i := i - 1;
    }
  }

  lemma LayeredStarts(objs: set<ObjId>, root: Commit)
    ensures Layered(objs, root, Solo(objs, root, 0), 0, 1)
  {
    assert [root][..1] == [root] && [root][1..] == [];
  }

  lemma SoloNext(objs: set<ObjId>, root: Commit, n: nat)
    requires n > 0
    ensures Solo(objs, root, n) == Advance(objs, Solo(objs, root, n - 1), {}).side
  {
  }

  lemma AdvanceIdle(objs: set<ObjId>, side: Side)
    ensures side.queue == [] ==> Advance(objs, side, {}).side == side
  {
  }

  /** Once the nearer commits have left the queue, the next layer is complete. */
  lemma NextLayer(objs: set<ObjId>, root: Commit, side: Side, k: nat)
    requires SideInvariant(objs, root, side) && Layered(objs, root, side, k, 0)
    ensures Layered(objs, root, side, k + 1, |side.queue|)
  {
    var near := Ball(objs, root, k);
    assert side.queue[0..] == side.queue && side.queue[..|side.queue|] == side.queue;
    forall c, p | c in near && CommitId(c) in objs && p in c.parents ensures p in side.seen {
      assert c !in side.queue;
    }
    assert side.seen == Ball(objs, root, k + 1);
  }

  lemma LayeredStep(objs: set<ObjId>, root: Commit, side: Side, k: nat, i: nat)
    requires Layered(objs, root, side, k, i) && i > 0
    ensures Layered(objs, root, Advance(objs, side, {}).side, k, i - 1)
  {
    var c, rest, next := side.queue[0], side.queue[1..], Advance(objs, side, {}).side;
    assert c in side.queue[..i] && c in Ball(objs, root, k);
    assert rest[..i - 1] == side.queue[1..i] && rest[i - 1..] == side.queue[i..];
    assert forall q <- side.queue[1..i] :: q in side.queue[..i];
    assert rest <= next.queue && next.queue[..i - 1] == rest[..i - 1];
    assert next.queue[i - 1..] == rest[i - 1..] + next.queue[|rest|..];
    if CommitId(c) in objs {
      assert forall p <- c.parents :: p in Ball(objs, root, k + 1);
    }
    hide Ball;
  }

  /**
   The source's search looks for a meeting last in each round, and at parents in their order: when the heads
   share a parent, and neither is a parent of the other, the base is the first parent of the source that
   is also one of the target.
   */
  lemma SharedParent(objs: set<ObjId>, target: Commit, source: Commit, i: nat)
    requires target != source && CommitId(target) in objs && CommitId(source) in objs
    requires source !in target.parents && target !in source.parents
    requires i < |source.parents| && source.parents[i] in target.parents
    requires forall j | 0 <= j < i :: source.parents[j] !in target.parents
    ensures Computes(objs, target, source, Some(source.parents[i]))
  {
    var r := source.parents[i];
    assert r < source;
    var x, y := Solo(objs, target, 1), Solo(objs, source, 1);
    FirstExpansion(objs, target);
    FirstExpansion(objs, source);
    assert Solo(objs, source, 0).seen == {source};
    var met := x.seen * y.seen;
    ScanFirst(Side({source}, []), source.parents, met, i);
    assert FirstMet(objs, target, source, 2, r);
    FirstMetIsBase(objs, target, source, 2, r);
  }

  lemma FirstExpansion(objs: set<ObjId>, root: Commit)
    requires CommitId(root) in objs
    ensures var side := Solo(objs, root, 1);
      && side == ScanParents(Side({root}, []), root.parents, {}).side
      && forall p :: p in side.seen <==> p == root || p in root.parents
  {
    assert Solo(objs, root, 0) == Side({root}, [root]);
    assert [root][1..] == [];
  }

  /** Among the parents recorded, the first with a property is the first in the queue with it. */
  lemma {:induction false} ScanFirst(side: Side, parents: seq<Commit>, met: set<Commit>, i: nat)
    requires i < |parents| && parents[i] in met && parents[i] !in side.seen
    requires forall j | 0 <= j < i :: parents[j] !in met
    requires forall q <- side.queue :: q !in met
    ensures IsFirst(ScanParents(side, parents, {}).side.queue, met, parents[i])
    decreases |parents|
  {
    var p := parents[0];
    if p in side.seen {
      assert i > 0 && parents[1..][i - 1] == parents[i];
      assert forall j | 0 <= j < i - 1 :: parents[1..][j] == parents[j + 1];
      ScanFirst(side, parents[1..], met, i - 1);
    } else if i > 0 {
      assert parents[1..][i - 1] == parents[i];
      assert forall j | 0 <= j < i - 1 :: parents[1..][j] == parents[j + 1];
      assert p !in met;
      ScanFirst(Side(side.seen + {p}, side.queue + [p]), parents[1..], met, i - 1);
    } else {
      var queue, all := side.queue + [p], ScanParents(side, parents, {}).side.queue;
      assert queue <= all;
      assert all[|side.queue|] == p && forall j | 0 <= j < |side.queue| :: all[j] == side.queue[j];
    }
  }
}
