/**
 The server shared by pushing clients, branch merges, pull-request merges and conflict resolutions,
 as a state machine over their atomic steps.

 A request, or task, reads refs, plans what to store, stores it object by object, and ends with
 a compare-and-swap on one ref.  Tasks interleave freely, and at any moment further objects may be stored,
 as by a preview or by a merge that ends in conflicts.  There is no garbage collection and no ref
 deletion, and a client that pushes holds the closure of the commit it pushes.
 */
module Server {
  import opened Objects
  import opened Walker
  import MergeBase
  import opened TreeWalker
  import opened Merge
  import opened MergeLaws
  import opened FileMerge
  import opened MergeCommit

  datatype PullRequest = PullRequest(
    status: string,
    sourceRef: string,
    targetRef: string,
    sourceCommit: Commit,
    targetCommit: Commit,
    mergeCommit: Option<Commit>)

  /** What the two heads are read for. */
  datatype Purpose =
    | MergeBranches
    | ResolvePr(pr: nat, chosen: map<string, Row>)
    | OpenPr(pr: nat)
    | RefreshPr(pr: nat)

  datatype Task =
      // A push: objects still to be checked or uploaded, then the compare-and-swap.
    | Pushing(branch: string, expected: Option<Commit>, next: Commit, todo: set<ObjId>)
      // Two refs being read, one after the other, in either order.
    | Reading(sourceRef: string, targetRef: string, readSource: Option<Commit>, readTarget: Option<Commit>,
      purpose: Purpose)
      // The merge of two known commits, to be computed; `chosen` when conflicts are to be resolved.
    | Planning(source: Commit, target: Commit, targetRef: string, pr: Option<nat>,
      chosen: Option<map<string, Row>>)
      // Objects still to be written, then the compare-and-swap.
    | Merging(targetRef: string, replaced: Commit, next: Commit, todo: set<ObjId>, pr: Option<nat>)
      // A status change whose check has passed.
    | Updating(updated: nat, status: string)

  datatype State = State(
    objs: set<ObjId>,
    refs: map<string, Commit>,
    prs: map<nat, PullRequest>,
    tasks: map<nat, Task>)

  datatype Step =
    | StartPush(id: nat, local: set<ObjId>, branch: string, head: Commit)
    | SkipPresent(id: nat, found: set<ObjId>)
    | StoreSome(id: nat, batch: set<ObjId>)
    | StoreMore(batch: set<ObjId>)
    | FinishPush(id: nat)
    | StartRead(id: nat, sourceRef: string, targetRef: string, purpose: Purpose)
    | ReadSource(id: nat)
    | ReadTarget(id: nat)
    | FinishRead(id: nat)
    | StartPrMerge(id: nat, pr: nat)
    | FastForward(id: nat)
    | PlanMerge(id: nat, commit: Commit)
    | FinishMerge(id: nat)
    | StartUpdate(id: nat, pr: nat, status: string)
    | FinishUpdate(id: nat)
    | Abort(id: nat)

  // ----- What a merge may publish -----

  ghost predicate IsBase(objs: set<ObjId>, target: Commit, source: Commit, base: Option<Commit>) {
    MergeBase.Computes(objs, target, source, base)
  }

  function Candidates(c: MergeConflict): seq<ManifestEntry> {
    (if c.ours.Some? then c.ours.value else []) + (if c.theirs.Some? then c.theirs.value else [])
  }

  /** Each conflict is given a row from one of its sides. */
  ghost predicate Resolves(chosen: map<string, Row>, conflicts: set<MergeConflict>) {
    forall c <- conflicts :: c.path in chosen && chosen[c.path] in Rows(Candidates(c))
  }

  /** The first entry for a row. */
  function FirstWith(s: seq<ManifestEntry>, r: Row): (e: Option<ManifestEntry>)
    ensures e.None? <==> r !in Rows(s)
    ensures e.Some? ==> e.value in s && e.value.row == r
  {
    if s == [] then None
    else if s[0].row == r then Some(s[0])
    else
      assert s == [s[0]] + s[1..];
      FirstWith(s[1..], r)
  }

  /** For every file in conflict, the entry of the chosen row, as found in one of its conflicts. */
  ghost predicate Picks(entries: map<string, ManifestEntry>, chosen: map<string, Row>, conflicts: set<MergeConflict>) {
    && entries.Keys == (set c <- conflicts :: c.path)
    && forall p <- entries ::
      p in chosen &&
      exists c <- conflicts :: c.path == p && FirstWith(Candidates(c), chosen[p]) == Some(entries[p])
  }

  /** A conflicting file is replaced by its chosen row. */
  function ResolvedFiles(files: Files, entries: map<string, ManifestEntry>): Files {
    files + map p | p in entries :: Manifest([entries[p]])
  }

  /** The files of a merge over a base: no conflict may remain. */
  ghost predicate MergedFrom(objs: set<ObjId>, base: Option<Commit>, task: Task, files: Files)
    requires task.Planning?
  {
    && (task.chosen.None? ==> base != Some(task.target))
    && var b, o, t := BaseFiles(objs, base), FilesAt(objs, task.target), FilesAt(objs, task.source);
    var conflicts := AllConflicts(b, o, t, b.Keys + o.Keys + t.Keys);
    match task.chosen
    case None => conflicts == {} && files == FilesSpec(b, o, t)
    case Some(chosen) =>
      conflicts != {} && Resolves(chosen, conflicts) &&
      exists entries :: Picks(entries, chosen, conflicts) && files == ResolvedFiles(FilesSpec(b, o, t), entries)
  }

  /** The files of the merge commit. */
  ghost predicate MergedFiles(objs: set<ObjId>, task: Task, files: Files)
    requires task.Planning?
  {
    exists base :: IsBase(objs, task.target, task.source, base) && MergedFrom(objs, base, task, files)
  }

  /** A resolution has to name, for every conflict, a row that one of its sides offers. */
  lemma ResolvesMeaning(chosen: map<string, Row>, conflicts: set<MergeConflict>)
    ensures Resolves(chosen, conflicts) <==>
      forall c <- conflicts :: c.path in chosen && Offers(c, chosen[c.path])
  {
    forall c | c in conflicts && c.path in chosen
      ensures chosen[c.path] in Rows(Candidates(c)) <==> Offers(c, chosen[c.path])
    {
      OffersIff(c, chosen[c.path]);
    }
  }

  /** Ours or theirs holds the row. */
  predicate Offers(c: MergeConflict, r: Row) {
    || (c.ours.Some? && exists e <- c.ours.value :: e.row == r)
    || (c.theirs.Some? && exists e <- c.theirs.value :: e.row == r)
  }

  lemma OffersIff(c: MergeConflict, r: Row)
    ensures r in Rows(Candidates(c)) <==> Offers(c, r)
  {
    var ours := if c.ours.Some? then c.ours.value else [];
    var theirs := if c.theirs.Some? then c.theirs.value else [];
    assert Candidates(c) == ours + theirs;
    assert forall e :: e in ours + theirs <==> e in ours || e in theirs;
  }

  ghost predicate HonestFiles(files: Files) {
    forall p <- files :: Honest(files[p].entries)
  }

  /**
   Conflicts can be resolved exactly when each leaves a row to choose and no file has two of them: two
   disputes in one file never share a row.
   */
  lemma ResolvableIff(b: Files, o: Files, t: Files)
    requires HonestFiles(o) && HonestFiles(t)
    ensures var conflicts := AllConflicts(b, o, t, b.Keys + o.Keys + t.Keys);
      (exists chosen :: Resolves(chosen, conflicts)) <==>
        forall c <- conflicts :: (exists r :: Offers(c, r)) && forall d <- conflicts | d.path == c.path :: d == c
  {
    var conflicts := AllConflicts(b, o, t, b.Keys + o.Keys + t.Keys);
    forall c | c in conflicts ensures (exists r :: Offers(c, r)) <==> Candidates(c) != [] {
      SomeOffer(c);
    }
    hide Candidates, AllConflicts, Rows, HonestFiles, Offers;
    if chosen :| Resolves(chosen, conflicts) {
      forall c, d | c in conflicts && d in conflicts && d.path == c.path ensures Candidates(c) != [] && d == c {
        OneRowOneConflict(b, o, t, c, d, chosen[c.path]);
      }
    }
    if forall c <- conflicts :: Candidates(c) != [] && forall d <- conflicts | d.path == c.path :: d == c {
      var chosen := FirstChoice(conflicts);
    }
  }

  lemma SomeOffer(c: MergeConflict)
    ensures (exists r :: Offers(c, r)) <==> Candidates(c) != []
  {
    if Candidates(c) != [] {
      assert Candidates(c)[0] in Candidates(c);
      OffersIff(c, Candidates(c)[0].row);
    }
    forall r | Offers(c, r) ensures Candidates(c) != [] {
      OffersIff(c, r);
    }
  }

  lemma FirstChoice(conflicts: set<MergeConflict>) returns (chosen: map<string, Row>)
    requires forall c <- conflicts :: Candidates(c) != [] && forall d <- conflicts | d.path == c.path :: d == c
    ensures Resolves(chosen, conflicts)
  {
    hide Candidates;
    var paths := set c <- conflicts :: c.path;
    chosen := map p | p in paths :: Candidates(ConflictAt(conflicts, p))[0].row;
    forall c | c in conflicts ensures c.path in chosen && chosen[c.path] in Rows(Candidates(c)) {
      assert c.path in paths && ConflictAt(conflicts, c.path) == c;
    }
  }

  ghost function ConflictAt(conflicts: set<MergeConflict>, p: string): (c: MergeConflict)
    requires exists c <- conflicts :: c.path == p
    ensures c in conflicts && c.path == p
  {
    var c :| c in conflicts && c.path == p;
    c
  }

  /** Two conflicts of a file that offer the same row are one. */
  lemma OneRowOneConflict(b: Files, o: Files, t: Files, c: MergeConflict, d: MergeConflict, r: Row)
    requires HonestFiles(o) && HonestFiles(t) && c.path == d.path
    requires var all := AllConflicts(b, o, t, b.Keys + o.Keys + t.Keys); c in all && d in all
    requires r in Rows(Candidates(c)) && r in Rows(Candidates(d))
    ensures c == d && Candidates(c) != []
  {
    hide Candidates, Rows, HonestFiles, ConflictsAt;
    var p, q :| c in ConflictsAt(b, o, t, p) && d in ConflictsAt(b, o, t, q);
    ConflictsHere(b, o, t, p, c);
    ConflictsHere(b, o, t, q, d);
    OneRowAt(b, o, t, p, c, d, r);
  }

  lemma OneRowAt(b: Files, o: Files, t: Files, p: string, c: MergeConflict, d: MergeConflict, r: Row)
    requires HonestFiles(o) && HonestFiles(t)
    requires c in ConflictsAt(b, o, t, p) && d in ConflictsAt(b, o, t, p)
    requires r in Rows(Candidates(c)) && r in Rows(Candidates(d))
    ensures c == d && Candidates(c) != []
  {
    hide Candidates, MergeSpec, ConflictSpec;
    if FileRule(At(b, p), At(o, p), At(t, p)).MergeRows? {
      OneRowOneDispute(b[p].entries, o[p].entries, t[p].entries, p, c, d, r);
    }
  }

  lemma OneRowOneDispute(base: seq<ManifestEntry>, ours: seq<ManifestEntry>, theirs: seq<ManifestEntry>, path: string,
      c: MergeConflict, d: MergeConflict, r: Row)
    requires Honest(ours) && Honest(theirs)
    requires c in ConflictSpec(base, ours, theirs, path) && d in ConflictSpec(base, ours, theirs, path)
    requires r in Rows(Candidates(c)) && r in Rows(Candidates(d))
    ensures c == d
  {
    DisputeRows(base, ours, theirs, path, c, r);
    DisputeRows(base, ours, theirs, path, d, r);
    hide ConflictSpec, TablesOf, Candidates;
  }

  lemma DisputeFrom(base: seq<ManifestEntry>, ours: seq<ManifestEntry>, theirs: seq<ManifestEntry>, path: string,
      c: MergeConflict)
    returns (q: string)
    requires c in ConflictSpec(base, ours, theirs, path)
    ensures var x := TablesOf(base, ours, theirs);
      && q in ByFp(base) && Disputed(x.oursRefreshed, x.theirsRefreshed, q)
      && c == DisputeAt(path, ByFp(base), x.oursRefreshed, x.theirsRefreshed, q)
      && x.oursRefreshed[q] in ours && x.theirsRefreshed[q] in theirs
      && x.oursRefreshed[q].fp == Some(q) == x.theirsRefreshed[q].fp && q != ""
  {
    var x := TablesOf(base, ours, theirs);
    RefreshedFrom(ByFp(base), ours);
    RefreshedFrom(ByFp(base), theirs);
    q :| q in x.oursRefreshed.Keys && q in ByFp(base) && Disputed(x.oursRefreshed, x.theirsRefreshed, q) &&
      c == DisputeAt(path, ByFp(base), x.oursRefreshed, x.theirsRefreshed, q);
  }

  /** A dispute offers rows of one fingerprint, which tells it from the others. */
  lemma DisputeRows(base: seq<ManifestEntry>, ours: seq<ManifestEntry>, theirs: seq<ManifestEntry>, path: string,
      c: MergeConflict, r: Row)
    requires Honest(ours) && Honest(theirs)
    requires c in ConflictSpec(base, ours, theirs, path) && r in Rows(Candidates(c))
    ensures var x := TablesOf(base, ours, theirs);
      Truthy(r.fingerprint) &&
      var q := r.fingerprint.value;
      q in ByFp(base) && Disputed(x.oursRefreshed, x.theirsRefreshed, q) &&
        c == DisputeAt(path, ByFp(base), x.oursRefreshed, x.theirsRefreshed, q)
  {
    hide TablesOf, ConflictSpec, ByFp;
    var x := TablesOf(base, ours, theirs);
    var q := DisputeFrom(base, ours, theirs, path, c);
    assert Candidates(c) == [x.oursRefreshed[q], x.theirsRefreshed[q]];
    var e :| e in Candidates(c) && e.row == r;
  }

  lemma PicksOf(objs: set<ObjId>, base: Option<Commit>, task: Task, files: Files)
    returns (entries: map<string, ManifestEntry>)
    requires task.Planning? && task.chosen.Some? && MergedFrom(objs, base, task, files)
    ensures var b, o, t := BaseFiles(objs, base), FilesAt(objs, task.target), FilesAt(objs, task.source);
      Picks(entries, task.chosen.value, AllConflicts(b, o, t, b.Keys + o.Keys + t.Keys)) &&
      files == ResolvedFiles(FilesSpec(b, o, t), entries)
  {
    hide Picks, BaseFiles, FilesAt, AllConflicts, FilesSpec, ResolvedFiles, Resolves;
    var b, o, t := BaseFiles(objs, base), FilesAt(objs, task.target), FilesAt(objs, task.source);
    entries :| Picks(entries, task.chosen.value, AllConflicts(b, o, t, b.Keys + o.Keys + t.Keys)) &&
      files == ResolvedFiles(FilesSpec(b, o, t), entries);
  }

  /** A resolved file keeps the chosen row only, and the other files are merged as ever. */
  lemma ResolvedKeepsOneRow(objs: set<ObjId>, base: Option<Commit>, task: Task, files: Files, p: string)
    requires task.Planning? && task.chosen.Some? && MergedFrom(objs, base, task, files)
    ensures var b, o, t := BaseFiles(objs, base), FilesAt(objs, task.target), FilesAt(objs, task.source);
      if exists c <- AllConflicts(b, o, t, b.Keys + o.Keys + t.Keys) :: c.path == p
      then p in files && p in task.chosen.value && |files[p].entries| == 1 &&
        files[p].entries[0].row == task.chosen.value[p]
      else At(files, p) == MergedAt(b, o, t, p)
  {
    hide *;
    var b, o, t := BaseFiles(objs, base), FilesAt(objs, task.target), FilesAt(objs, task.source);
    var conflicts := AllConflicts(b, o, t, b.Keys + o.Keys + t.Keys);
    var entries := PicksOf(objs, base, task, files);
    PickedRow(entries, task.chosen.value, conflicts, p);
    ResolvedAt(FilesSpec(b, o, t), entries, p);
    FilesSpecAt(b, o, t, p);
  }

  lemma PickedRow(entries: map<string, ManifestEntry>, chosen: map<string, Row>, conflicts: set<MergeConflict>,
      p: string)
    requires Picks(entries, chosen, conflicts)
    ensures p in entries <==> exists c <- conflicts :: c.path == p
    ensures p in entries ==> p in chosen && entries[p].row == chosen[p]
  {
    hide Candidates;
  }

  lemma ResolvedAt(files: Files, entries: map<string, ManifestEntry>, p: string)
    ensures At(ResolvedFiles(files, entries), p) == if p in entries then Some(Manifest([entries[p]])) else At(files, p)
    ensures p in entries ==>
      p in ResolvedFiles(files, entries) && ResolvedFiles(files, entries)[p].entries == [entries[p]]
  {
  }

  lemma FilesSpecAt(b: Files, o: Files, t: Files, p: string)
    ensures At(FilesSpec(b, o, t), p) == MergedAt(b, o, t, p)
  {
    hide MergeSpec;
  }

  function FileIds(files: Files): set<ObjId> {
    set p <- files :: ManifestId(files[p])
  }

  // ----- Steps -----

  function Done(s: State, id: nat): map<nat, Task> {
    s.tasks - {id}
  }

  function WithTask(s: State, id: nat, t: Task): State {
    s.(tasks := s.tasks[id := t])
  }

  /** A request with some of its objects taken care of. */
  function Without(t: Task, batch: set<ObjId>): Task
    requires t.Pushing? || t.Merging?
  {
    match t
    case Pushing(branch, expected, next, todo) => Pushing(branch, expected, next, todo - batch)
    case Merging(targetRef, replaced, next, todo, pr) => Merging(targetRef, replaced, next, todo - batch, pr)
  }

  function RefAt(s: State, name: string): Option<Commit> {
    if name in s.refs then Some(s.refs[name]) else None
  }

  /** Compare-and-swap, or insert when nothing is expected. */
  function Cas(refs: map<string, Commit>, name: string, expected: Option<Commit>,
      next: Commit): Option<map<string, Commit>> {
    if (if name in refs then Some(refs[name]) else None) == expected then Some(refs[name := next]) else None
  }

  function FinishedRead(s: State, id: nat, task: Task): State
    requires task.Reading? && task.readSource.Some? && task.readTarget.Some?
  {
    match task.purpose
    case MergeBranches => WithTask(s, id,
      Planning(task.readSource.value, task.readTarget.value, task.targetRef, None, None))
    case ResolvePr(n, chosen) => WithTask(s, id,
      Planning(task.readSource.value, task.readTarget.value, task.targetRef, Some(n), Some(chosen)))
    case OpenPr(n) =>
      if n in s.prs then s.(tasks := Done(s, id)) else
        s.(tasks := Done(s, id),
           prs := s.prs[n :=
             PullRequest("open", task.sourceRef, task.targetRef, task.readSource.value, task.readTarget.value, None)])
    case RefreshPr(n) =>
      if n !in s.prs then s.(tasks := Done(s, id)) else
        s.(tasks := Done(s, id),
           prs := s.prs[n := s.prs[n].(sourceCommit := task.readSource.value, targetCommit := task.readTarget.value)])
  }

  function FinishedMerge(s: State, id: nat, task: Task): State
    requires task.Merging?
  {
    match Cas(s.refs, task.targetRef, Some(task.replaced), task.next)
    case None => s.(tasks := Done(s, id))
    case Some(refs) =>
      var s' := s.(tasks := Done(s, id), refs := refs);
      if task.pr.Some? && task.pr.value in s.prs then
        var n := task.pr.value;
        s'.(prs := s.prs[n := s.prs[n].(status := "merged", mergeCommit := Some(task.next), targetCommit := task.next)])
      else s'
  }

  /** The pull request a purpose is about exists and is between the refs being read. */
  predicate PurposeFits(s: State, sourceRef: string, targetRef: string, purpose: Purpose) {
    match purpose
    case MergeBranches => true
    case OpenPr(_) => sourceRef != targetRef
    case ResolvePr(n, _) => n in s.prs && s.prs[n].status == "open" && s.prs[n].sourceRef == sourceRef &&
      s.prs[n].targetRef == targetRef
    case RefreshPr(n) =>
      n in s.prs && s.prs[n].status == "open" && s.prs[n].sourceRef == sourceRef && s.prs[n].targetRef == targetRef
  }

  ghost predicate Next(s: State, s': State, step: Step) {
    match step
    case StartPush(id, local, branch, head) =>
      // The remote head must be an ancestor of the local one, judged locally.
      && id !in s.tasks
      && Complete(local, CommitId(head))
      && (RefAt(s, branch).Some? ==> RefAt(s, branch).value in Ancestors(local, head))
      && s' == WithTask(s, id, Pushing(branch, RefAt(s, branch), head, Since(local, head, RefAt(s, branch))))
    case SkipPresent(id, found) =>
      && id in s.tasks && s.tasks[id].Pushing? && found <= s.objs
      && s' == WithTask(s, id, Without(s.tasks[id], found))
    case StoreSome(id, batch) =>
      && id in s.tasks && (s.tasks[id].Pushing? || s.tasks[id].Merging?) && batch <= s.tasks[id].todo
      && s' == WithTask(s, id, Without(s.tasks[id], batch)).(objs := s.objs + batch)
    case StoreMore(batch) =>
      // A preview, a check for mergeability, a merge that ends in conflicts, or a single upload.
      s' == s.(objs := s.objs + batch)
    case FinishPush(id) =>
      && id in s.tasks && s.tasks[id].Pushing? && s.tasks[id].todo == {}
      && var r := Cas(s.refs, s.tasks[id].branch, s.tasks[id].expected, s.tasks[id].next);
      s' == s.(tasks := Done(s, id), refs := if r.Some? then r.value else s.refs)
    case StartRead(id, sourceRef, targetRef, purpose) =>
      && id !in s.tasks && PurposeFits(s, sourceRef, targetRef, purpose)
      && s' == WithTask(s, id, Reading(sourceRef, targetRef, None, None, purpose))
    case ReadSource(id) =>
      && id in s.tasks && s.tasks[id].Reading? && s.tasks[id].sourceRef in s.refs
      && s' == WithTask(s, id, s.tasks[id].(readSource := Some(s.refs[s.tasks[id].sourceRef])))
    case ReadTarget(id) =>
      && id in s.tasks && s.tasks[id].Reading? && s.tasks[id].targetRef in s.refs
      && s' == WithTask(s, id, s.tasks[id].(readTarget := Some(s.refs[s.tasks[id].targetRef])))
    case FinishRead(id) =>
      && id in s.tasks && s.tasks[id].Reading? && s.tasks[id].readSource.Some? && s.tasks[id].readTarget.Some?
      && s' == FinishedRead(s, id, s.tasks[id])
    case StartPrMerge(id, n) =>
      && id !in s.tasks && n in s.prs && s.prs[n].status != "merged" && s.prs[n].status != "closed"
      && s' == WithTask(s, id, Planning(s.prs[n].sourceCommit, s.prs[n].targetCommit, s.prs[n].targetRef, Some(n),
        None))
    case FastForward(id) =>
      && id in s.tasks && s.tasks[id].Planning? && s.tasks[id].chosen.None?
      && IsBase(s.objs, s.tasks[id].target, s.tasks[id].source, Some(s.tasks[id].target))
      && var t := s.tasks[id];
      s' == WithTask(s, id, Merging(t.targetRef, t.target, t.source, {}, t.pr))
    case PlanMerge(id, c) =>
      && id in s.tasks && s.tasks[id].Planning?
      && var t := s.tasks[id];
      && c.parents == [t.target, t.source]
      && exists files ::
        && MergedFiles(s.objs, t, files)
        && IsMergeTree(c.tree, files, Sidecars(s.objs, t.target, t.source))
        && s' == WithTask(s, id, Merging(t.targetRef, t.target, c, {CommitId(c), TreeId(c.tree)} + FileIds(files),
          t.pr))
    case FinishMerge(id) =>
      && id in s.tasks && s.tasks[id].Merging? && s.tasks[id].todo == {}
      && s' == FinishedMerge(s, id, s.tasks[id])
    case StartUpdate(id, n, status) =>
      && id !in s.tasks && n in s.prs && s.prs[n].status != "merged"
      && s' == WithTask(s, id, Updating(n, status))
    case FinishUpdate(id) =>
      && id in s.tasks && s.tasks[id].Updating? && s.tasks[id].updated in s.prs
      && var t := s.tasks[id];
      s' == s.(tasks := Done(s, id), prs := s.prs[t.updated := s.prs[t.updated].(status := t.status)])
    case Abort(id) =>
      s' == s.(tasks := Done(s, id))
  }

  const EMPTY := State({}, map[], map[], map[])

  // ----- Invariant -----

  /** The whole closure of the commit is on the server. */
  ghost predicate Whole(objs: set<ObjId>, c: Commit) {
    Complete(objs, CommitId(c))
  }

  ghost predicate PrOk(objs: set<ObjId>, refs: map<string, Commit>, pr: PullRequest) {
    && Whole(objs, pr.sourceCommit) && Whole(objs, pr.targetCommit)
    && (pr.mergeCommit.Some? ==> pr.targetRef in refs && pr.mergeCommit.value in Ancestors(objs, refs[pr.targetRef]))
  }

  ghost predicate AimedAt(prs: map<nat, PullRequest>, pr: Option<nat>, targetRef: string) {
    pr.Some? ==> pr.value in prs && prs[pr.value].targetRef == targetRef
  }

  /**
   With the objects a request has yet to store, the commit it will publish is whole and descends from the one it
   replaces.
   */
  ghost predicate Publishable(objs: set<ObjId>, todo: set<ObjId>, expected: Option<Commit>, next: Commit) {
    && Whole(objs + todo, next)
    && (expected.Some? ==> expected.value in Ancestors(objs + todo, next))
  }

  ghost predicate TaskOk(objs: set<ObjId>, prs: map<nat, PullRequest>, task: Task) {
    match task
    case Pushing(branch, expected, next, todo) => Publishable(objs, todo, expected, next)
    case Reading(_, targetRef, source, target, purpose) =>
      && (source.Some? ==> Whole(objs, source.value))
      && (target.Some? ==> Whole(objs, target.value))
      && (purpose.ResolvePr? ==> AimedAt(prs, Some(purpose.pr), targetRef))
    case Planning(source, target, targetRef, pr, _) =>
      Whole(objs, source) && Whole(objs, target) && AimedAt(prs, pr, targetRef)
    case Merging(targetRef, replaced, next, todo, pr) =>
      Publishable(objs, todo, Some(replaced), next) && AimedAt(prs, pr, targetRef)
    case Updating(_, _) => true
  }

  ghost predicate Inv(s: State) {
    && (forall r <- s.refs :: Whole(s.objs, s.refs[r]))
    && (forall n <- s.prs :: PrOk(s.objs, s.refs, s.prs[n]))
    && (forall id <- s.tasks :: TaskOk(s.objs, s.prs, s.tasks[id]))
  }

  /** Objects stay, and every ref stays or moves to a descendant. */
  ghost predicate Advances(s: State, s': State) {
    && s.objs <= s'.objs
    && forall r <- s.refs :: r in s'.refs && s.refs[r] in Ancestors(s'.objs, s'.refs[r])
  }

  // ----- Closures that agree between stores -----

  /** Objects that hold a complete closure of another store make it complete here. */
  lemma CompleteTransfer(from: set<ObjId>, to: set<ObjId>, o: ObjId)
    requires Complete(from, o) && Reach(from, o) <= to
    ensures Complete(to, o) && Reach(to, o) == Reach(from, o)
  {
    assert from * Reach(from, o) == Reach(from, o) == to * Reach(from, o);
    ReachFrame(from, to, o);
  }

  lemma WholeGrows(objs: set<ObjId>, more: set<ObjId>, c: Commit)
    requires Whole(objs, c) && objs <= more
    ensures Whole(more, c)
  {
    CompleteGrows(objs, more, CommitId(c));
  }

  lemma AncestorGrows(objs: set<ObjId>, more: set<ObjId>, c: Commit, x: Commit)
    requires x in Ancestors(objs, c) && objs <= more
    ensures x in Ancestors(more, c)
  {
    AncestorsMono(objs, more, c);
  }

  // ----- The push plan covers what the server lacks -----

  lemma PushPlan(objs: set<ObjId>, local: set<ObjId>, head: Commit, remote: Option<Commit>)
    requires Complete(local, CommitId(head))
    requires remote.Some? ==> Whole(objs, remote.value) && remote.value in Ancestors(local, head)
    ensures Publishable(objs, Since(local, head, remote), remote, head)
  {
    var todo := Since(local, head, remote);
    if remote.Some? {
      var r := remote.value;
      DeltaLaw(local, head, r);
      AncestorsReach(local, head, r);
      CompletePart(local, CommitId(head), CommitId(r));
      CompleteAgree(local, objs, CommitId(r));
    }
    CompleteTransfer(local, objs + todo, CommitId(head));
    if remote.Some? {
      AncestorsReach(objs + todo, head, remote.value);
    }
  }

  // ----- A merge commit is whole -----

  /** Flattening only yields what is reachable from the tree. */
  lemma {:induction false} FlattenReach(objs: set<ObjId>, t: Tree, n: nat, prefix: string, p: string)
    requires n <= |t.entries| && TreeId(t) in objs && p in FlattenEntries(objs, t, n, prefix)
    ensures var v := FlattenEntries(objs, t, n, prefix)[p];
      && TargetId(v.target) in Reach(objs, TreeId(t))
      && (Truthy(v.sidecar) ==> SidecarId(v.sidecar.value) in Reach(objs, TreeId(t)))
    decreases t, n
  {
    var e := t.entries[n - 1];
    ReachClosed(objs, TreeId(t));
    assert TargetId(e.target) in Refs(TreeId(t));
    if p in FlattenEntry(objs, e, prefix) {
      if e.target.TreeTarget? {
        var sub, q := e.target.tree, Extend(prefix, e.name);
        assert p in Flatten(objs, sub, q);
        FlattenReach(objs, sub, |sub.entries|, q, p);
        ReachTrans(objs, TreeId(t), TreeId(sub));
      } else if Truthy(e.sidecar) {
        assert SidecarId(e.sidecar.value) in Refs(TreeId(t));
      }
    } else {
      FlattenReach(objs, t, n - 1, prefix, p);
    }
  }

  lemma TreeReached(objs: set<ObjId>, c: Commit)
    requires Whole(objs, c)
    ensures TreeId(c.tree) in objs && Reach(objs, TreeId(c.tree)) <= objs
  {
    ReachClosed(objs, CommitId(c));
    assert TreeId(c.tree) in Refs(CommitId(c));
    CompletePart(objs, CommitId(c), TreeId(c.tree));
    ReachClosed(objs, TreeId(c.tree));
  }

  /** The files and sidecars of a whole commit are on the server, rows included. */
  lemma WholeFiles(objs: set<ObjId>, c: Commit, p: string)
    requires Whole(objs, c)
    ensures p in FilesAt(objs, c) ==> Complete(objs, ManifestId(FilesAt(objs, c)[p]))
    ensures var flat := Flatten(objs, c.tree, "");
      p in flat && Truthy(flat[p].sidecar) ==> SidecarId(flat[p].sidecar.value) in objs
  {
    TreeReached(objs, c);
    if p in Flatten(objs, c.tree, "") {
      FlattenReach(objs, c.tree, |c.tree.entries|, "", p);
      if p in FilesAt(objs, c) {
        CompletePart(objs, TreeId(c.tree), ManifestId(FilesAt(objs, c)[p]));
      }
    }
  }

  lemma WholeRows(objs: set<ObjId>, c: Commit, p: string, e: ManifestEntry)
    requires Whole(objs, c) && p in FilesAt(objs, c) && e in FilesAt(objs, c)[p].entries
    ensures RowId(e.row) in objs
  {
    var m := FilesAt(objs, c)[p];
    WholeFiles(objs, c, p);
    ReachClosed(objs, ManifestId(m));
    assert RowId(e.row) in Refs(ManifestId(m));
  }

  /** Conflicts offer only rows of the two sides. */
  lemma CandidateOrigin(b: Files, o: Files, t: Files, p: string, c: MergeConflict, e: ManifestEntry)
    requires c in ConflictsAt(b, o, t, p) && e in Candidates(c)
    ensures c.path == p
    ensures (p in o && e in o[p].entries) || (p in t && e in t[p].entries)
  {
  }

  lemma PickOrigin(b: Files, o: Files, t: Files, entries: map<string, ManifestEntry>, chosen: map<string, Row>,
      p: string)
    requires Picks(entries, chosen, AllConflicts(b, o, t, b.Keys + o.Keys + t.Keys)) && p in entries
    ensures (p in o && entries[p] in o[p].entries) || (p in t && entries[p] in t[p].entries)
  {
    hide ConflictsAt, Candidates;
    var all := AllConflicts(b, o, t, b.Keys + o.Keys + t.Keys);
    var c :| c in all && c.path == p && FirstWith(Candidates(c), chosen[p]) == Some(entries[p]);
    var q :| q in b.Keys + o.Keys + t.Keys && c in ConflictsAt(b, o, t, q);
    CandidateOrigin(b, o, t, q, c, entries[p]);
  }

  /** Every row of the merge commit's files is one of the two sides'. */
  lemma MergedRowOrigin(objs: set<ObjId>, base: Option<Commit>, task: Task, files: Files, p: string, e: ManifestEntry)
    requires task.Planning? && MergedFrom(objs, base, task, files) && p in files && e in files[p].entries
    ensures var o, t := FilesAt(objs, task.target), FilesAt(objs, task.source);
      (p in o && e in o[p].entries) || (p in t && e in t[p].entries)
  {
    var b, o, t := BaseFiles(objs, base), FilesAt(objs, task.target), FilesAt(objs, task.source);
    hide FilesAt, BaseFiles, MergedAt, ConflictsAt, Candidates;
    if task.chosen.Some? {
      var entries := PicksOf(objs, base, task, files);
      hide AllConflicts, FilesSpec, Picks, MergedFrom;
      if p in entries {
        PickOrigin(b, o, t, entries, task.chosen.value, p);
        assert files[p].entries == [entries[p]];
        return;
      }
      assert files[p] == FilesSpec(b, o, t)[p];
    }
    MergedRowsProvenance(b, o, t, p, e);
  }

  /** The rows of every file of the merge commit are on the server. */
  lemma MergedRowsPresent(objs: set<ObjId>, task: Task, files: Files, p: string, e: ManifestEntry)
    requires task.Planning? && Whole(objs, task.source) && Whole(objs, task.target)
    requires MergedFiles(objs, task, files) && p in files && e in files[p].entries
    ensures RowId(e.row) in objs
  {
    hide MergedFrom, Whole, IsBase, FilesAt;
    var base :| IsBase(objs, task.target, task.source, base) && MergedFrom(objs, base, task, files);
    MergedRowOrigin(objs, base, task, files, p, e);
    var o := FilesAt(objs, task.target);
    if p in o && e in o[p].entries {
      WholeRows(objs, task.target, p, e);
    } else {
      WholeRows(objs, task.source, p, e);
    }
  }

  lemma MergeTreeRefs(objs: set<ObjId>, task: Task, files: Files, t: Tree)
    requires task.Planning? && Whole(objs, task.source) && Whole(objs, task.target)
    requires MergedFiles(objs, task, files)
    requires IsMergeTree(t, files, Sidecars(objs, task.target, task.source))
    ensures forall r <- Refs(TreeId(t)) :: r in FileIds(files) || (r in objs && Refs(r) == {})
  {
    hide MergedFiles, Whole;
    forall e | e in t.entries && Truthy(e.sidecar) ensures SidecarId(e.sidecar.value) in objs {
      WholeFiles(objs, task.target, e.name);
      WholeFiles(objs, task.source, e.name);
    }
  }

  lemma MergePlan(objs: set<ObjId>, task: Task, files: Files, c: Commit)
    requires task.Planning? && Whole(objs, task.source) && Whole(objs, task.target)
    requires MergedFiles(objs, task, files)
    requires c.parents == [task.target, task.source]
    requires IsMergeTree(c.tree, files, Sidecars(objs, task.target, task.source))
    ensures Publishable(objs, {CommitId(c), TreeId(c.tree)} + FileIds(files), Some(task.target), c)
  {
    var all := objs + ({CommitId(c), TreeId(c.tree)} + FileIds(files));
    hide MergedFiles, IsMergeTree, Sidecars, Ancestors, Reach;
    MergeTreeComplete(objs, all, task, files, c.tree);
    WholeGrows(objs, all, task.source);
    WholeGrows(objs, all, task.target);
    AncestorsClosed(all, c);
    assert task.target in c.parents;
    hide Complete;
    assert forall r <- Refs(CommitId(c)) ::
      r == TreeId(c.tree) || r == CommitId(task.target) || r == CommitId(task.source);
    CompleteStep(all, CommitId(c));
  }

  lemma MergeTreeComplete(objs: set<ObjId>, all: set<ObjId>, task: Task, files: Files, t: Tree)
    requires task.Planning? && Whole(objs, task.source) && Whole(objs, task.target)
    requires MergedFiles(objs, task, files)
    requires IsMergeTree(t, files, Sidecars(objs, task.target, task.source))
    requires objs + {TreeId(t)} + FileIds(files) <= all
    ensures Complete(all, TreeId(t))
  {
    MergeTreeRefs(objs, task, files, t);
    hide MergedFiles, IsMergeTree, Sidecars, Complete, Whole;
    forall r | r in Refs(TreeId(t)) ensures Complete(all, r) {
      if r in FileIds(files) {
        var p :| p in files && r == ManifestId(files[p]);
        MergedManifestComplete(objs, all, task, files, p);
      } else {
        LeafComplete(all, r);
      }
    }
    CompleteStep(all, TreeId(t));
  }

  /** An object that names nothing is complete when present. */
  lemma LeafComplete(objs: set<ObjId>, r: ObjId)
    requires r in objs && Refs(r) == {}
    ensures Complete(objs, r)
  {
    CompleteStep(objs, r);
  }

  lemma MergedManifestComplete(objs: set<ObjId>, all: set<ObjId>, task: Task, files: Files, p: string)
    requires task.Planning? && Whole(objs, task.source) && Whole(objs, task.target)
    requires MergedFiles(objs, task, files) && p in files && objs + {ManifestId(files[p])} <= all
    ensures Complete(all, ManifestId(files[p]))
  {
    hide MergedFiles, Whole;
    forall r | r in Refs(ManifestId(files[p])) ensures Complete(all, r) {
      var e :| e in files[p].entries && r == RowId(e.row);
      MergedRowsPresent(objs, task, files, p, e);
    }
    CompleteStep(all, ManifestId(files[p]));
  }

  // ----- Every step keeps the invariant and advances the refs -----

  lemma PublishableGrows(objs: set<ObjId>, todo: set<ObjId>, objs': set<ObjId>, todo': set<ObjId>,
      expected: Option<Commit>, next: Commit)
    requires Publishable(objs, todo, expected, next) && objs + todo <= objs' + todo'
    ensures Publishable(objs', todo', expected, next)
  {
    WholeGrows(objs + todo, objs' + todo', next);
    if expected.Some? {
      AncestorGrows(objs + todo, objs' + todo', next, expected.value);
    }
  }

  lemma TaskGrows(objs: set<ObjId>, objs': set<ObjId>, prs: map<nat, PullRequest>, prs': map<nat, PullRequest>,
      task: Task)
    requires TaskOk(objs, prs, task) && objs <= objs'
    requires forall n <- prs :: n in prs' && prs'[n].targetRef == prs[n].targetRef
    ensures TaskOk(objs', prs', task)
  {
    match task
    case Pushing(_, expected, next, todo) => PublishableGrows(objs, todo, objs', todo, expected, next);
    case Merging(_, replaced, next, todo, _) => PublishableGrows(objs, todo, objs', todo, Some(replaced), next);
    case Reading(_, _, source, target, _) =>
      if source.Some? { WholeGrows(objs, objs', source.value); }
      if target.Some? { WholeGrows(objs, objs', target.value); }
    case Planning(source, target, _, _, _) =>
      WholeGrows(objs, objs', source);
      WholeGrows(objs, objs', target);
    case Updating(_, _) =>
  }

  lemma PrGrows(s: State, s': State, pr: PullRequest)
    requires PrOk(s.objs, s.refs, pr) && Advances(s, s')
    ensures PrOk(s'.objs, s'.refs, pr)
  {
    WholeGrows(s.objs, s'.objs, pr.sourceCommit);
    WholeGrows(s.objs, s'.objs, pr.targetCommit);
    if pr.mergeCommit.Some? {
      var r := pr.targetRef;
      AncestorGrows(s.objs, s'.objs, s.refs[r], pr.mergeCommit.value);
      AncestorsTrans(s'.objs, s'.refs[r], s.refs[r]);
    }
  }

  lemma RefsStay(s: State, s': State)
    requires s.objs <= s'.objs && s'.refs == s.refs
    ensures Advances(s, s')
  {
    forall r | r in s.refs ensures s.refs[r] in Ancestors(s'.objs, s'.refs[r]) {
      AncestorsClosed(s'.objs, s.refs[r]);
    }
  }

  /** A step that moves no ref and touches at most one task and one pull request. */
  lemma LocalStep(s: State, s': State, id: nat)
    requires Inv(s) && s.objs <= s'.objs && s'.refs == s.refs
    requires forall n <- s.prs :: n in s'.prs && s'.prs[n].targetRef == s.prs[n].targetRef
    requires forall n <- s'.prs :: (n in s.prs && s'.prs[n] == s.prs[n]) || PrOk(s'.objs, s'.refs, s'.prs[n])
    requires forall i <- s'.tasks :: i == id || (i in s.tasks && s'.tasks[i] == s.tasks[i])
    requires id in s'.tasks ==> TaskOk(s'.objs, s'.prs, s'.tasks[id])
    ensures Inv(s') && Advances(s, s')
  {
    RefsStay(s, s');
    forall r | r in s'.refs ensures Whole(s'.objs, s'.refs[r]) { WholeGrows(s.objs, s'.objs, s.refs[r]); }
    forall n | n in s'.prs ensures PrOk(s'.objs, s'.refs, s'.prs[n]) {
      if n in s.prs && s'.prs[n] == s.prs[n] { PrGrows(s, s', s.prs[n]); }
    }
    forall i | i in s'.tasks ensures TaskOk(s'.objs, s'.prs, s'.tasks[i]) {
      if i != id { TaskGrows(s.objs, s'.objs, s.prs, s'.prs, s.tasks[i]); }
    }
  }

  /** A successful compare-and-swap to a publishable commit with nothing left to store. */
  lemma CasAdvances(s: State, refs: map<string, Commit>, name: string, expected: Option<Commit>, next: Commit)
    requires Inv(s) && Publishable(s.objs, {}, expected, next)
    requires Cas(s.refs, name, expected, next) == Some(refs)
    ensures Whole(s.objs, next)
    ensures Advances(s, s.(refs := refs)) && forall r <- refs :: Whole(s.objs, refs[r])
  {
    assert s.objs + {} == s.objs;
    forall r | r in s.refs ensures s.refs[r] in Ancestors(s.objs, refs[r]) {
      if r != name { AncestorsClosed(s.objs, s.refs[r]); }
    }
  }

  lemma PushStep(s: State, s': State, id: nat)
    requires Inv(s) && Next(s, s', FinishPush(id))
    ensures Inv(s') && Advances(s, s')
  {
    var t := s.tasks[id];
    var r := Cas(s.refs, t.branch, t.expected, t.next);
    if r.Some? {
      CasAdvances(s, r.value, t.branch, t.expected, t.next);
      forall n | n in s'.prs ensures PrOk(s'.objs, s'.refs, s'.prs[n]) { PrGrows(s, s', s.prs[n]); }
    } else {
      LocalStep(s, s', id);
    }
  }

  /** The pull request a merge finishes: its merge commit is the new head of its target. */
  lemma MergedPrOk(s: State, s': State, id: nat, n: nat)
    requires Inv(s) && Next(s, s', FinishMerge(id)) && Advances(s, s') && n in s'.prs
    requires RefAt(s, s.tasks[id].targetRef) == Some(s.tasks[id].replaced) && Whole(s.objs, s.tasks[id].next)
    ensures n in s.prs && s'.prs[n].targetRef == s.prs[n].targetRef && PrOk(s'.objs, s'.refs, s'.prs[n])
  {
    hide Whole;
    PrGrows(s, s', s.prs[n]);
    assert TaskOk(s.objs, s.prs, s.tasks[id]);
    AncestorsClosed(s.objs, s.tasks[id].next);
  }

  lemma MergeFinished(s: State, s': State, id: nat)
    requires Inv(s) && Next(s, s', FinishMerge(id))
    ensures Inv(s') && Advances(s, s')
  {
    hide Whole, Publishable, Ancestors;
    var t := s.tasks[id];
    assert TaskOk(s.objs, s.prs, t);
    var r := Cas(s.refs, t.targetRef, Some(t.replaced), t.next);
    if r.Some? {
      CasAdvances(s, r.value, t.targetRef, Some(t.replaced), t.next);
      assert Advances(s, s');
      forall n | n in s'.prs
        ensures n in s.prs && s'.prs[n].targetRef == s.prs[n].targetRef && PrOk(s'.objs, s'.refs, s'.prs[n])
      {
        MergedPrOk(s, s', id, n);
      }
      hide PrOk;
      forall i | i in s'.tasks ensures TaskOk(s'.objs, s'.prs, s'.tasks[i]) {
        TaskGrows(s.objs, s'.objs, s.prs, s'.prs, s.tasks[i]);
      }
    } else {
      LocalStep(s, s', id);
    }
  }

  lemma ReadFinished(s: State, s': State, id: nat)
    requires Inv(s) && Next(s, s', FinishRead(id))
    ensures Inv(s') && Advances(s, s')
  {
    hide Whole, Publishable, Ancestors, Advances;
    assert TaskOk(s.objs, s.prs, s.tasks[id]);
    match s.tasks[id].purpose {
      case RefreshPr(n) =>
        if n in s.prs {
          assert PrOk(s.objs, s.refs, s.prs[n]);
          assert s'.prs.Keys == s.prs.Keys;
        }
      case _ =>
    }
    LocalStep(s, s', id);
  }

  /** What either way of dealing with objects does to the state. */
  lemma StoreFacts(s: State, s': State, id: nat, batch: set<ObjId>)
    requires Next(s, s', SkipPresent(id, batch)) || Next(s, s', StoreSome(id, batch))
    ensures id in s.tasks && (s.tasks[id].Pushing? || s.tasks[id].Merging?)
    ensures s.objs <= s'.objs && s.objs + s.tasks[id].todo <= s'.objs + (s.tasks[id].todo - batch)
    ensures s'.refs == s.refs && s'.prs == s.prs && s'.tasks == s.tasks[id := Without(s.tasks[id], batch)]
  {
  }

  lemma StoreStep(s: State, s': State, id: nat, batch: set<ObjId>)
    requires Inv(s) && (Next(s, s', SkipPresent(id, batch)) || Next(s, s', StoreSome(id, batch)))
    ensures Inv(s') && Advances(s, s')
  {
    StoreFacts(s, s', id, batch);
    hide Next;
    var t := s.tasks[id];
    assert TaskOk(s.objs, s.prs, t);
    var expected := if t.Pushing? then t.expected else Some(t.replaced);
    PublishableGrows(s.objs, t.todo, s'.objs, t.todo - batch, expected, t.next);
    hide Publishable, Whole;
    LocalStep(s, s', id);
  }

  /** Further objects disturb nobody. */
  lemma StoreMoreStep(s: State, s': State, batch: set<ObjId>)
    requires Inv(s) && Next(s, s', StoreMore(batch))
    ensures Inv(s') && Advances(s, s')
  {
    hide Publishable, Whole;
    if 0 in s.tasks {
      TaskGrows(s.objs, s'.objs, s.prs, s'.prs, s.tasks[0]);
    }
    LocalStep(s, s', 0);
  }

  lemma ReadStep(s: State, s': State, id: nat)
    requires Inv(s) && (Next(s, s', ReadSource(id)) || Next(s, s', ReadTarget(id)))
    ensures Inv(s') && Advances(s, s')
  {
    hide Whole;
    assert TaskOk(s.objs, s.prs, s.tasks[id]);
    LocalStep(s, s', id);
  }

  lemma FastForwardPlan(objs: set<ObjId>, target: Commit, source: Commit)
    requires Whole(objs, source) && IsBase(objs, target, source, Some(target))
    ensures Publishable(objs, {}, Some(target), source)
  {
    assert objs + {} == objs;
    MergeBase.FastForwardSound(objs, target, source);
  }

  lemma FastForwardStep(s: State, s': State, id: nat)
    requires Inv(s) && Next(s, s', FastForward(id))
    ensures Inv(s') && Advances(s, s')
  {
    hide Whole, Ancestors, IsBase, Publishable;
    var t := s.tasks[id];
    assert TaskOk(s.objs, s.prs, t);
    FastForwardPlan(s.objs, t.target, t.source);
    LocalStep(s, s', id);
  }

  lemma PlanMergeStep(s: State, s': State, id: nat, c: Commit)
    requires Inv(s) && Next(s, s', PlanMerge(id, c))
    ensures Inv(s') && Advances(s, s')
  {
    hide Publishable, Whole, MergedFiles, IsMergeTree, Sidecars, FileIds, Ancestors;
    var t := s.tasks[id];
    assert TaskOk(s.objs, s.prs, t);
    var files :| MergedFiles(s.objs, t, files)
      && IsMergeTree(c.tree, files, Sidecars(s.objs, t.target, t.source))
      && s' == WithTask(s, id, Merging(t.targetRef, t.target, c, {CommitId(c), TreeId(c.tree)} + FileIds(files), t.pr));
    MergePlan(s.objs, t, files, c);
    LocalStep(s, s', id);
  }

  lemma PrStep(s: State, s': State, id: nat, step: Step)
    requires Inv(s) && Next(s, s', step)
    requires (step.StartPrMerge? || step.StartUpdate? || step.FinishUpdate?) && step.id == id
    ensures Inv(s') && Advances(s, s')
  {
    hide Whole, Ancestors;
    match step {
      case StartPrMerge(_, n) => assert PrOk(s.objs, s.refs, s.prs[n]);
      case StartUpdate(_, _, _) =>
      case FinishUpdate(_) => assert PrOk(s.objs, s.refs, s.prs[s.tasks[id].updated]);
    }
    LocalStep(s, s', id);
  }

  /** Safety of one step: the invariant is kept, objects stay, and refs only move to descendants. */
  lemma NextSafe(s: State, s': State, step: Step)
    requires Inv(s) && Next(s, s', step)
    ensures Inv(s') && Advances(s, s')
  {
    hide Inv, Advances;
    match step {
      case StartPush(id, _, _, _) => StartPushStep(s, s', id, step);
      case SkipPresent(id, found) => StoreStep(s, s', id, found);
      case StoreSome(id, batch) => StoreStep(s, s', id, batch);
      case StoreMore(batch) => StoreMoreStep(s, s', batch);
      case FinishPush(id) => PushStep(s, s', id);
      case StartRead(id, _, _, _) => QuietStep(s, s', id, step);
      case ReadSource(id) => ReadStep(s, s', id);
      case ReadTarget(id) => ReadStep(s, s', id);
      case FinishRead(id) => ReadFinished(s, s', id);
      case StartPrMerge(id, _) => PrStep(s, s', id, step);
      case FastForward(id) => FastForwardStep(s, s', id);
      case PlanMerge(id, c) => PlanMergeStep(s, s', id, c);
      case FinishMerge(id) => MergeFinished(s, s', id);
      case StartUpdate(id, _, _) => PrStep(s, s', id, step);
      case FinishUpdate(id) => PrStep(s, s', id, step);
      case Abort(id) => QuietStep(s, s', id, step);
    }
  }

  lemma StartPushStep(s: State, s': State, id: nat, step: Step)
    requires Inv(s) && Next(s, s', step) && step.StartPush? && step.id == id
    ensures Inv(s') && Advances(s, s')
  {
    PushPlan(s.objs, step.local, step.head, RefAt(s, step.branch));
    hide Whole, Publishable, Since, Ancestors;
    LocalStep(s, s', id);
  }

  lemma QuietStep(s: State, s': State, id: nat, step: Step)
    requires Inv(s) && Next(s, s', step) && (step.StartRead? || step.Abort?) && step.id == id
    ensures Inv(s') && Advances(s, s')
  {
    LocalStep(s, s', id);
  }

  // ----- Whole runs -----

  ghost predicate Behaviour(run: seq<State>, steps: seq<Step>) {
    && |run| == |steps| + 1
    && run[0] == EMPTY
    && forall i | 0 <= i < |steps| :: Next(run[i], run[i + 1], steps[i])
  }

  lemma {:induction false} BehaviourInv(run: seq<State>, steps: seq<Step>, i: nat)
    requires Behaviour(run, steps) && i < |run|
    ensures Inv(run[i])
    decreases i
  {
    hide Next;
    if i > 0 {
      BehaviourInv(run, steps, i - 1);
      NextSafe(run[i - 1], run[i], steps[i - 1]);
    }
  }

  lemma AdvancesTrans(a: State, b: State, c: State)
    requires Advances(a, b) && Advances(b, c)
    ensures Advances(a, c)
  {
    forall r | r in a.refs ensures a.refs[r] in Ancestors(c.objs, c.refs[r]) {
      AncestorsMono(b.objs, c.objs, b.refs[r]);
      AncestorsTrans(c.objs, c.refs[r], b.refs[r]);
    }
  }

  lemma {:induction false} BehaviourAdvances(run: seq<State>, steps: seq<Step>, i: nat, j: nat)
    requires Behaviour(run, steps) && i <= j < |run|
    ensures Advances(run[i], run[j])
    decreases j
  {
    hide Inv, Next, Advances;
    if i == j {
      RefsStay(run[i], run[j]);
    } else {
      BehaviourAdvances(run, steps, i, j - 1);
      BehaviourInv(run, steps, j - 1);
      NextSafe(run[j - 1], run[j], steps[j - 1]);
      AdvancesTrans(run[i], run[j - 1], run[j]);
    }
  }

  /** Over every run, at every moment, the whole closure of every ref is on the server. */
  lemma RefsAlwaysWhole(run: seq<State>, steps: seq<Step>, i: nat, r: string)
    requires Behaviour(run, steps) && i < |run| && r in run[i].refs
    ensures Reach(run[i].objs, CommitId(run[i].refs[r])) <= run[i].objs
  {
    BehaviourInv(run, steps, i);
  }

  /** Over every run a ref, once created, stays and only ever names descendants of what it named before. */
  lemma RefsOnlyAdvance(run: seq<State>, steps: seq<Step>, i: nat, j: nat, r: string)
    requires Behaviour(run, steps) && i <= j < |run| && r in run[i].refs
    ensures r in run[j].refs && run[i].refs[r] in Ancestors(run[j].objs, run[j].refs[r])
  {
    BehaviourAdvances(run, steps, i, j);
  }

  /** The recorded merge commit of a pull request is in the history of its target branch ever after. */
  lemma MergeCommitStays(run: seq<State>, steps: seq<Step>, i: nat, j: nat, n: nat)
    requires Behaviour(run, steps) && i <= j < |run| && n in run[i].prs && run[i].prs[n].mergeCommit.Some?
    ensures var pr := run[i].prs[n];
      pr.targetRef in run[j].refs && pr.mergeCommit.value in Ancestors(run[j].objs, run[j].refs[pr.targetRef])
  {
    BehaviourInv(run, steps, i);
    BehaviourAdvances(run, steps, i, j);
    PrGrows(run[i], run[j], run[i].prs[n]);
  }

  // ----- Runs that get somewhere -----

  /** The three states that an undisturbed push goes through after `s`. */
  ghost function PushRun(s: State, id: nat, local: set<ObjId>, branch: string, head: Commit): seq<State> {
    var todo := Since(local, head, RefAt(s, branch));
    var started := WithTask(s, id, Pushing(branch, RefAt(s, branch), head, todo));
    var stored := WithTask(started, id, Pushing(branch, RefAt(s, branch), head, {})).(objs := s.objs + todo);
    [started, stored, stored.(tasks := Done(stored, id), refs := s.refs[branch := head])]
  }

  /** A push that nobody disturbs moves its ref, stores just what is new, and leaves all else as it was. */
  lemma PushSucceeds(s: State, id: nat, local: set<ObjId>, branch: string, head: Commit)
    requires id !in s.tasks && Complete(local, CommitId(head))
    requires RefAt(s, branch).Some? ==> RefAt(s, branch).value in Ancestors(local, head)
    ensures var todo, run := Since(local, head, RefAt(s, branch)), PushRun(s, id, local, branch, head);
      && Next(s, run[0], StartPush(id, local, branch, head))
      && Next(run[0], run[1], StoreSome(id, todo))
      && Next(run[1], run[2], FinishPush(id))
      && run[2] == State(s.objs + todo, s.refs[branch := head], s.prs, s.tasks)
  {
    hide Since, Complete, Ancestors;
    var run := PushRun(s, id, local, branch, head);
    assert run[1].tasks - {id} == s.tasks;
    assert Since(local, head, RefAt(s, branch)) - Since(local, head, RefAt(s, branch)) == {};
  }

  /** From the empty server some run publishes any commit whose closure a client holds. */
  lemma SomeRunPublishes(local: set<ObjId>, branch: string, head: Commit) returns (run: seq<State>, steps: seq<Step>)
    requires Complete(local, CommitId(head))
    ensures Behaviour(run, steps) && run[|steps|].refs == map[branch := head]
    ensures run[|steps|].objs == Reach(local, CommitId(head))
  {
    PushSucceeds(EMPTY, 0, local, branch, head);
    hide Next, Reach, Complete;
    run := [EMPTY] + PushRun(EMPTY, 0, local, branch, head);
    steps := [StartPush(0, local, branch, head), StoreSome(0, Since(local, head, None)), FinishPush(0)];
    assert run[1..] == PushRun(EMPTY, 0, local, branch, head);
  }
}
