/** The merge and resolution handlers against the server's state machine, and runs in which both come to their end. */
module ServerRuns {
  import opened Objects
  import opened Store
  import MergeBase
  import opened TreeBuilder
  import opened Merge
  import opened FileMerge
  import opened MergeCommit
  import opened Server
  import opened Walker

  // ----- The merge handler takes the steps of the state machine -----

  datatype Handled = FastForwarded | Committed(commit: Commit) | Conflicting(conflicts: seq<MergeConflict>)

  /** Every file of a whole commit can be read. */
  lemma ReadableAt(objs: set<ObjId>, c: Commit, p: string)
    requires Whole(objs, c)
    ensures ReadIds(At(FilesAt(objs, c), p)) <= objs
  {
    WholeFiles(objs, c, p);
    if p in FilesAt(objs, c) {
      ReachClosed(objs, ManifestId(FilesAt(objs, c)[p]));
    }
  }

  lemma BaseWhole(objs: set<ObjId>, target: Commit, source: Commit, base: Commit)
    requires Whole(objs, target) && IsBase(objs, target, source, Some(base))
    ensures Whole(objs, base) && CommitId(base) in objs
  {
    MergeBase.BaseIsCommon(objs, target, source, Some(base));
    AncestorsReach(objs, target, base);
    CompletePart(objs, CommitId(target), CommitId(base));
    ReachClosed(objs, CommitId(base));
  }

  /** What a merge of whole commits has to read is there. */
  lemma WholeMergeable(objs: set<ObjId>, base: Option<Commit>, target: Commit, source: Commit)
    requires Whole(objs, target) && Whole(objs, source) && IsBase(objs, target, source, base)
    ensures Mergeable(objs, base, target, source)
  {
    if base.Some? {
      BaseWhole(objs, target, source, base.value);
    }
    ReachClosed(objs, CommitId(target));
    ReachClosed(objs, CommitId(source));
    var b, o, t := BaseFiles(objs, base), FilesAt(objs, target), FilesAt(objs, source);
    hide FilesAt, IsBase, FileRule;
    forall p ensures NeededAt(b, o, t, p) <= objs {
      hide Whole;
      ReadableAt(objs, target, p);
      ReadableAt(objs, source, p);
      if base.Some? {
        ReadableAt(objs, base.value, p);
      }
    }
  }

  /** All files of a conflict-free merge are in the store once the row merges have been written. */
  lemma FilesStored(objs: set<ObjId>, base: Option<Commit>, target: Commit, source: Commit)
    requires Whole(objs, target) && Whole(objs, source)
    ensures var files := FilesSpec(BaseFiles(objs, base), FilesAt(objs, target), FilesAt(objs, source));
      objs + MergeWrites(objs, base, target, source) == objs + FileIds(files)
  {
    var b, o, t := BaseFiles(objs, base), FilesAt(objs, target), FilesAt(objs, source);
    var files := FilesSpec(b, o, t);
    hide FilesAt, BaseFiles, MergeSpec, FileRule, Whole;
    forall p | p in files ensures ManifestId(files[p]) in objs + MergeWrites(objs, base, target, source) {
      ReadableAt(objs, target, p);
      ReadableAt(objs, source, p);
      MergedFileOrigin(b, o, t, p);
    }
    forall i | i in MergeWrites(objs, base, target, source) ensures i in FileIds(files) {
      WrittenIsFile(b, o, t, i);
    }
  }

  lemma WrittenIsFile(b: Files, o: Files, t: Files, i: ObjId)
    requires i in WrittenIds(b, o, t, b.Keys + o.Keys + t.Keys)
    ensures i in FileIds(FilesSpec(b, o, t))
  {
    hide MergeSpec;
    var p :| p in b.Keys + o.Keys + t.Keys && p in RowMergedPaths(b, o, t) && i == ManifestId(RowsMerged(b, o, t, p));
    assert p in FilesSpec(b, o, t) && FilesSpec(b, o, t)[p] == RowsMerged(b, o, t, p);
  }

  /** The state after planning to publish `c` with the given files. */
  ghost function Planned(s: State, id: nat, c: Commit, files: Files): State
    requires id in s.tasks && s.tasks[id].Planning?
  {
    var t := s.tasks[id];
    WithTask(s, id, Merging(t.targetRef, t.target, c, {CommitId(c), TreeId(c.tree)} + FileIds(files), t.pr))
  }

  ghost function FastForwarding(s: State, id: nat): State
    requires id in s.tasks && s.tasks[id].Planning?
  {
    var t := s.tasks[id];
    WithTask(s, id, Merging(t.targetRef, t.target, t.source, {}, t.pr))
  }

  /** The state after the row merges of a base have been written. */
  ghost function Written(s: State, base: Option<Commit>, target: Commit, source: Commit): State {
    s.(objs := s.objs + MergeWrites(s.objs, base, target, source))
  }

  /** The conflicts between two commits. */
  ghost function ConflictsOf(objs: set<ObjId>, base: Option<Commit>, target: Commit,
      source: Commit): set<MergeConflict> {
    var b, o, t := BaseFiles(objs, base), FilesAt(objs, target), FilesAt(objs, source);
    AllConflicts(b, o, t, b.Keys + o.Keys + t.Keys)
  }

  /**
   The handler of a branch or pull-request merge does what the state machine says: it fast-forwards, or
   it stores exactly what a planned merge has to store, or it finds conflicts and no merge can be planned;
   the row merges of the other files are stored all the same.
   */
  method HandleMerge(store: ObjectStore, ghost s: State, id: nat, target: Commit, source: Commit, now: int,
      author: string, message: string)
    returns (r: Handled, ghost base: Option<Commit>, ghost files: Files)
    requires Inv(s) && id in s.tasks && s.tasks[id].Planning? && s.tasks[id].chosen.None?
    requires s.tasks[id].target == target && s.tasks[id].source == source && store.Objs() == s.objs
    modifies store
    ensures IsBase(s.objs, target, source, base)
    ensures match r
      case FastForwarded => Next(s, FastForwarding(s, id), FastForward(id)) && store.Objs() == s.objs
      case Committed(c) =>
        && Next(s, Planned(s, id, c, files), PlanMerge(id, c))
        && store.Objs() == s.objs + Planned(s, id, c, files).tasks[id].todo
        && c.author == author && c.message == message && c.timestamp == now
      case Conflicting(conflicts) =>
        && conflicts != [] && multiset(conflicts) == multiset(ConflictsOf(s.objs, base, target, source))
        && NothingToPlan(s, id)
        && store.Objs() == Written(s, base, target, source).objs
        && Next(s, Written(s, base, target, source), StoreMore(MergeWrites(s.objs, base, target, source)))
  {
    hide *;
    ghost var t := s.tasks[id];
    assert Whole(s.objs, target) && Whole(s.objs, source) by { PlanningWhole(s, id); }
    var found := MergeBase.FindMergeBase(store.Objs(), target, source);
    base := found;
    BaseIs(s.objs, target, source, base);
    files := map[];
    if found == Some(target) {
      FastForwardNext(s, id);
      return FastForwarded, base, files;
    }
    WholeMergeable(s.objs, base, target, source);
    var merged, commit := DoMerge(store, now, found, target, source, author, message);
    files := merged.value.files;
    ConflictsAre(s.objs, base, target, source);
    NoConflicts(merged.value.conflicts, ConflictsOf(s.objs, base, target, source));
    MergedIs(s.objs, base, t, files);
    if merged.value.conflicts != [] {
      ConflictsStop(s, id, base);
      WrittenNext(s, base, target, source);
      return Conflicting(merged.value.conflicts), base, files;
    }
    var c := commit.value;
    FilesStored(s.objs, base, target, source);
    MergeNext(s, id, base, c, files);
    assert store.Objs() == s.objs + ({CommitId(c), TreeId(c.tree)} + FileIds(files));
    return Committed(c), base, files;
  }

  lemma ConflictsAre(objs: set<ObjId>, base: Option<Commit>, target: Commit, source: Commit)
    ensures var b, o, t := BaseFiles(objs, base), FilesAt(objs, target), FilesAt(objs, source);
      ConflictsOf(objs, base, target, source) == AllConflicts(b, o, t, b.Keys + o.Keys + t.Keys)
  {
  }

  lemma WrittenNext(s: State, base: Option<Commit>, target: Commit, source: Commit)
    ensures Written(s, base, target, source).objs == s.objs + MergeWrites(s.objs, base, target, source)
    ensures Next(s, Written(s, base, target, source), StoreMore(MergeWrites(s.objs, base, target, source)))
  {
    hide MergeWrites;
  }

  /** Merge base and three-way merge of two whole commits. */
  method MergeHeads(store: ObjectStore, ghost s: State, target: Commit, source: Commit, now: int)
    returns (base: Option<Commit>, merged: MergeResult)
    requires Whole(s.objs, target) && Whole(s.objs, source) && store.Objs() == s.objs
    modifies store
    ensures IsBase(s.objs, target, source, base)
    ensures merged.files == FilesSpec(BaseFiles(s.objs, base), FilesAt(s.objs, target), FilesAt(s.objs, source))
    ensures multiset(merged.conflicts) == multiset(ConflictsOf(s.objs, base, target, source))
    ensures merged.conflicts == [] <==> ConflictsOf(s.objs, base, target, source) == {}
    ensures store.Objs() == Written(s, base, target, source).objs
    ensures Next(s, Written(s, base, target, source), StoreMore(MergeWrites(s.objs, base, target, source)))
  {
    hide *;
    base := MergeBase.FindMergeBase(store.Objs(), target, source);
    BaseIs(s.objs, target, source, base);
    WholeMergeable(s.objs, base, target, source);
    var r := ThreeWayMerge(store, now, base, target, source);
    merged := r.value;
    ConflictsAre(s.objs, base, target, source);
    NoConflicts(merged.conflicts, ConflictsOf(s.objs, base, target, source));
    WritesAre(s.objs, base, target, source);
    WrittenNext(s, base, target, source);
  }

  /**
   What a preview, an opened pull request and every refresh of one compute: whether two commits merge
   without conflicts.  Row merges are stored on the way.
   */
  method ComputeMergeability(store: ObjectStore, ghost s: State, target: Commit, source: Commit, now: int)
    returns (base: Option<Commit>, mergeable: bool, conflicts: seq<MergeConflict>)
    requires Whole(s.objs, target) && Whole(s.objs, source) && store.Objs() == s.objs
    modifies store
    ensures IsBase(s.objs, target, source, base)
    ensures multiset(conflicts) == multiset(ConflictsOf(s.objs, base, target, source))
    ensures mergeable <==> ConflictsOf(s.objs, base, target, source) == {}
    ensures store.Objs() == Written(s, base, target, source).objs
    ensures Next(s, Written(s, base, target, source), StoreMore(MergeWrites(s.objs, base, target, source)))
  {
    hide *;
    var merged;
    base, merged := MergeHeads(store, s, target, source, now);
    conflicts := merged.conflicts;
    mergeable := conflicts == [];
  }

  lemma WritesAre(objs: set<ObjId>, base: Option<Commit>, target: Commit, source: Commit)
    ensures var b, o, t := BaseFiles(objs, base), FilesAt(objs, target), FilesAt(objs, source);
      MergeWrites(objs, base, target, source) == WrittenIds(b, o, t, b.Keys + o.Keys + t.Keys)
  {
  }

  /** Mergeable is what can be merged: without conflicts, and only then, a fast-forward or a merge can be planned. */
  lemma MergeableIff(s: State, id: nat, base: Option<Commit>)
    requires id in s.tasks && s.tasks[id].Planning? && s.tasks[id].chosen.None?
    requires IsBase(s.objs, s.tasks[id].target, s.tasks[id].source, base)
    ensures ConflictsOf(s.objs, base, s.tasks[id].target, s.tasks[id].source) == {} <==> !NothingToPlan(s, id)
  {
    hide *;
    var t := s.tasks[id];
    ConflictsAre(s.objs, base, t.target, t.source);
    var b, o, u := BaseFiles(s.objs, base), FilesAt(s.objs, t.target), FilesAt(s.objs, t.source);
    if base == Some(t.target) {
      FastForwardNext(s, id);
      TargetIsBase(s.objs, t.target);
      UnchangedSideYields(b, u, b.Keys + o.Keys + u.Keys);
      SomethingToPlan(s, id, FastForwarding(s, id), FastForward(id));
    } else if ConflictsOf(s.objs, base, t.target, t.source) == {} {
      var files := FilesSpec(b, o, u);
      MergedIs(s.objs, base, t, files);
      var tree := MergeTreeExists(files, Sidecars(s.objs, t.target, t.source));
      var c := Commit(tree, [t.target, t.source], "", "", 0);
      MergeNext(s, id, base, c, files);
      SomethingToPlan(s, id, Planned(s, id, c, files), PlanMerge(id, c));
    } else {
      ConflictsStop(s, id, base);
    }
  }

  lemma TargetIsBase(objs: set<ObjId>, target: Commit)
    ensures BaseFiles(objs, Some(target)) == FilesAt(objs, target)
  {
  }

  lemma SomethingToPlan(s: State, id: nat, s': State, step: Step)
    requires Next(s, s', step) && (step == FastForward(id) || (step.PlanMerge? && step.id == id))
    ensures !NothingToPlan(s, id)
  {
    hide Next;
  }

  // ----- So does the handler of a resolution -----

  datatype Answered = Resolved(commit: Commit) | NoConflict | NotChosen

  /** Look up the chosen row of every conflict; a file with several conflicts keeps the last one looked up. */
  method PickEntries(conflicts: seq<MergeConflict>, chosen: map<string, Row>)
    returns (r: Option<map<string, ManifestEntry>>)
    ensures r.None? <==> !Resolves(chosen, set c <- conflicts)
    ensures r.Some? ==> Picks(r.value, chosen, set c <- conflicts)
  {
    hide Picks, Resolves, Candidates;
    var entries: map<string, ManifestEntry> := map[];
    NothingPicked(chosen);
    for i := 0 to |conflicts|
      invariant Resolves(chosen, set c <- conflicts[..i]) && Picks(entries, chosen, set c <- conflicts[..i])
    {
      var c := conflicts[i];
      ghost var before, after := conflicts[..i], conflicts[..i + 1];
      assert after == before + [c];
      assert (set x <- after) == (set x <- before) + {c};
      RowNeeded(chosen, (set x <- conflicts), c);
      if c.path !in chosen {
        return None;
      }
      var e := FirstWith(Candidates(c), chosen[c.path]);
      if e.None? {
        return None;
      }
      PickOne(entries, chosen, (set x <- conflicts[..i]), c);
      entries := entries[c.path := e.value];
    }
    assert conflicts[..|conflicts|] == conflicts;
    r := Some(entries);
  }

  lemma NothingPicked(chosen: map<string, Row>)
    ensures Resolves(chosen, {}) && Picks(map[], chosen, {})
    ensures (set c: MergeConflict <- []) == {}
  {
  }

  lemma RowNeeded(chosen: map<string, Row>, conflicts: set<MergeConflict>, c: MergeConflict)
    requires c in conflicts
    ensures Resolves(chosen, conflicts) ==> c.path in chosen && FirstWith(Candidates(c), chosen[c.path]).Some?
  {
    hide Candidates;
  }

  lemma PickOne(entries: map<string, ManifestEntry>, chosen: map<string, Row>, done: set<MergeConflict>,
      c: MergeConflict)
    requires Resolves(chosen, done) && Picks(entries, chosen, done)
    requires c.path in chosen && FirstWith(Candidates(c), chosen[c.path]).Some?
    ensures Resolves(chosen, done + {c})
    ensures Picks(entries[c.path := FirstWith(Candidates(c), chosen[c.path]).value], chosen, done + {c})
  {
    hide Candidates, Rows;
    var more := entries[c.path := FirstWith(Candidates(c), chosen[c.path]).value];
    forall p | p in more
      ensures p in chosen &&
        exists d <- done + {c} :: d.path == p && FirstWith(Candidates(d), chosen[p]) == Some(more[p])
    {
      if p != c.path {
        var d :| d in done && d.path == p && FirstWith(Candidates(d), chosen[p]) == Some(entries[p]);
        assert d in done + {c};
      } else {
        assert c in done + {c};
      }
    }
    assert (set d <- done + {c} :: d.path) == (set d <- done :: d.path) + {c.path};
  }

  /** Write the resolved manifests and put them in their places. */
  method StorePicks(store: ObjectStore, files0: Files, entries: map<string, ManifestEntry>, now: int)
    returns (files: Files)
    modifies store
    ensures files == ResolvedFiles(files0, entries)
    ensures store.Objs() == old(store.Objs()) + PickIds(entries)
  {
    hide ResolvedFiles, PickIds;
    files := files0;
    var todo := entries.Keys;
    NoPicks(files0, entries - todo);
    while todo != {}
      invariant todo <= entries.Keys
      invariant files == ResolvedFiles(files0, entries - todo)
      invariant store.Objs() == old(store.Objs()) + PickIds(entries - todo)
    {
      var p :| p in todo;
      var m := Manifest([entries[p]]);
      store.Write(ManifestId(m), now);
      files := files[p := m];
      PickMore(files0, entries, todo, p);
      todo := todo - {p};
    }
    assert entries - {} == entries;
  }

  function PickIds(entries: map<string, ManifestEntry>): set<ObjId> {
    set p <- entries :: ManifestId(Manifest([entries[p]]))
  }

  lemma NoPicks(files: Files, entries: map<string, ManifestEntry>)
    ensures entries == map[] ==> ResolvedFiles(files, entries) == files && PickIds(entries) == {}
  {
  }

  lemma PickMore(files: Files, entries: map<string, ManifestEntry>, todo: set<string>, p: string)
    requires p in todo && todo <= entries.Keys
    ensures ResolvedFiles(files, entries - (todo - {p})) ==
      ResolvedFiles(files, entries - todo)[p := Manifest([entries[p]])]
    ensures PickIds(entries - (todo - {p})) == PickIds(entries - todo) + {ManifestId(Manifest([entries[p]]))}
  {
    assert (entries - (todo - {p})).Keys == (entries - todo).Keys + {p};
  }

  lemma SameConflicts(conflicts: seq<MergeConflict>, all: set<MergeConflict>)
    requires multiset(conflicts) == multiset(all)
    ensures (set c <- conflicts) == all
  {
    assert forall c :: c in conflicts <==> c in multiset(conflicts);
    assert forall c :: c in all <==> c in multiset(all);
  }

  /** Without conflicts, or without a row for each of them, a resolution cannot be planned. */
  lemma NothingResolved(s: State, id: nat, base: Option<Commit>)
    requires id in s.tasks && s.tasks[id].Planning? && s.tasks[id].chosen.Some?
    requires IsBase(s.objs, s.tasks[id].target, s.tasks[id].source, base)
    requires var all := ConflictsOf(s.objs, base, s.tasks[id].target, s.tasks[id].source);
      all == {} || !Resolves(s.tasks[id].chosen.value, all)
    ensures NothingToPlan(s, id)
  {
    var task := s.tasks[id];
    forall b' | IsBase(s.objs, task.target, task.source, b') ensures b' == base {
      MergeBase.ComputesUnique(s.objs, task.target, task.source, b', base);
    }
    hide BaseFiles, FilesAt, AllConflicts, FilesSpec, Sidecars, IsMergeTree, IsBase, Resolves;
    forall files ensures !MergedFiles(s.objs, task, files) {
    }
    hide MergedFiles;
  }

  lemma OnlyManifests(objs: set<ObjId>, base: Option<Commit>, target: Commit, source: Commit,
      entries: map<string, ManifestEntry>)
    ensures forall u: Tree ::
      TreeId(u) in objs <==> TreeId(u) in objs + MergeWrites(objs, base, target, source) + PickIds(entries)
  {
    WritesNoTree(objs, base, target, source);
    hide MergeWrites;
  }

  /** The picked rows give the files of the resolved merge. */
  lemma ResolutionIs(objs: set<ObjId>, base: Option<Commit>, task: Task, entries: map<string, ManifestEntry>)
    requires task.Planning? && task.chosen.Some?
    requires var all := ConflictsOf(objs, base, task.target, task.source);
      all != {} && Resolves(task.chosen.value, all) && Picks(entries, task.chosen.value, all)
    ensures var files := FilesSpec(BaseFiles(objs, base), FilesAt(objs, task.target), FilesAt(objs, task.source));
      MergedFrom(objs, base, task, ResolvedFiles(files, entries))
  {
    hide BaseFiles, FilesAt, AllConflicts, FilesSpec, Resolves, Picks, ResolvedFiles;
  }

  /** Row merges and picked rows together are the files that the merge commit names. */
  lemma ResolvedStored(objs: set<ObjId>, base: Option<Commit>, target: Commit, source: Commit,
      entries: map<string, ManifestEntry>)
    requires Whole(objs, target) && Whole(objs, source)
    ensures var files := FilesSpec(BaseFiles(objs, base), FilesAt(objs, target), FilesAt(objs, source));
      var stored := objs + MergeWrites(objs, base, target, source);
      stored + PickIds(entries) == stored + FileIds(ResolvedFiles(files, entries))
  {
    FilesStored(objs, base, target, source);
    var files := FilesSpec(BaseFiles(objs, base), FilesAt(objs, target), FilesAt(objs, source));
    hide FilesSpec, BaseFiles, FilesAt, MergeWrites, Whole;
    var all := ResolvedFiles(files, entries);
    forall p | p in entries ensures ManifestId(Manifest([entries[p]])) in FileIds(all) {
      assert p in all && all[p] == Manifest([entries[p]]);
    }
    forall p | p in all ensures ManifestId(all[p]) in FileIds(files) + PickIds(entries) {
      if p !in entries { assert p in files; }
    }
  }

  /**
   The handler of a resolution plans the merge commit of the chosen rows and stores what it needs; or it
   finds no conflict, or a conflict without a chosen row of its own, and nothing can be planned.  The row
   merges that it started from are stored in any case.
   */
  method HandleResolve(store: ObjectStore, ghost s: State, id: nat, target: Commit, source: Commit,
      chosen: map<string, Row>, now: int, author: string, message: string)
    returns (r: Answered, ghost base: Option<Commit>, ghost files: Files)
    requires Inv(s) && id in s.tasks && s.tasks[id].Planning? && s.tasks[id].chosen == Some(chosen)
    requires s.tasks[id].target == target && s.tasks[id].source == source && store.Objs() == s.objs
    modifies store
    ensures IsBase(s.objs, target, source, base)
    ensures Next(s, Written(s, base, target, source), StoreMore(MergeWrites(s.objs, base, target, source)))
    ensures var conflicts := ConflictsOf(s.objs, base, target, source);
      match r
      case Resolved(c) =>
        && conflicts != {} && Resolves(chosen, conflicts)
        && Next(s, Planned(s, id, c, files), PlanMerge(id, c))
        && store.Objs() == Written(s, base, target, source).objs + Planned(s, id, c, files).tasks[id].todo
        && c.author == author && c.message == message && c.timestamp == now
      case NoConflict =>
        conflicts == {} && NothingToPlan(s, id) && store.Objs() == Written(s, base, target, source).objs
      case NotChosen =>
        && conflicts != {} && !Resolves(chosen, conflicts)
        && NothingToPlan(s, id) && store.Objs() == Written(s, base, target, source).objs
  {
    hide *;
    ghost var t := s.tasks[id];
    assert Whole(s.objs, target) && Whole(s.objs, source) by { PlanningWhole(s, id); }
    var found, merged := MergeHeads(store, s, target, source, now);
    base, files := found, map[];
    WrittenNext(s, base, target, source);
    ghost var all := ConflictsOf(s.objs, base, target, source);
    if merged.conflicts == [] {
      NothingResolved(s, id, base);
      return NoConflict, base, files;
    }
    SameConflicts(merged.conflicts, all);
    var entries := PickEntries(merged.conflicts, chosen);
    if entries.None? {
      NothingResolved(s, id, base);
      return NotChosen, base, files;
    }
    ghost var written := store.Objs();
    var resolved := StorePicks(store, merged.files, entries.value, now);
    files := resolved;
    OnlyManifests(s.objs, base, target, source, entries.value);
    SidecarsFrame(s.objs, store.Objs(), target, source);
    var c := CommitMerge(store, now, resolved, target, source, author, message);
    ResolutionIs(s.objs, base, t, entries.value);
    MergeNext(s, id, base, c, files);
    ResolvedStored(s.objs, base, target, source, entries.value);
    assert store.Objs() == written + ({CommitId(c), TreeId(c.tree)} + FileIds(files));
    return Resolved(c), base, files;
  }

  lemma BaseIs(objs: set<ObjId>, target: Commit, source: Commit, base: Option<Commit>)
    ensures IsBase(objs, target, source, base) <==> MergeBase.Computes(objs, target, source, base)
  {
  }

  lemma PlanningWhole(s: State, id: nat)
    requires Inv(s) && id in s.tasks && s.tasks[id].Planning?
    ensures Whole(s.objs, s.tasks[id].target) && Whole(s.objs, s.tasks[id].source)
  {
    hide Whole;
    assert TaskOk(s.objs, s.prs, s.tasks[id]);
  }

  lemma FastForwardNext(s: State, id: nat)
    requires id in s.tasks && s.tasks[id].Planning? && s.tasks[id].chosen.None?
    requires IsBase(s.objs, s.tasks[id].target, s.tasks[id].source, Some(s.tasks[id].target))
    ensures Next(s, FastForwarding(s, id), FastForward(id))
  {
    hide IsBase;
  }

  lemma MergeNext(s: State, id: nat, base: Option<Commit>, c: Commit, files: Files)
    requires id in s.tasks && s.tasks[id].Planning?
    requires var t := s.tasks[id];
      && IsBase(s.objs, t.target, t.source, base) && MergedFrom(s.objs, base, t, files)
      && c.parents == [t.target, t.source] && IsMergeTree(c.tree, files, Sidecars(s.objs, t.target, t.source))
    ensures Next(s, Planned(s, id, c, files), PlanMerge(id, c))
    ensures Planned(s, id, c, files).tasks[id] ==
      Merging(s.tasks[id].targetRef, s.tasks[id].target, c, {CommitId(c), TreeId(c.tree)} + FileIds(files),
        s.tasks[id].pr)
  {
    hide IsBase, MergedFrom, IsMergeTree, Sidecars;
    assert MergedFiles(s.objs, s.tasks[id], files);
  }

  /** The request can neither be fast-forwarded nor merged. */
  ghost predicate NothingToPlan(s: State, id: nat) {
    && (forall s' :: !Next(s, s', FastForward(id)))
    && (forall s', c :: !Next(s, s', PlanMerge(id, c)))
  }

  lemma NoConflicts(conflicts: seq<MergeConflict>, all: set<MergeConflict>)
    requires multiset(conflicts) == multiset(all)
    ensures conflicts == [] <==> all == {}
  {
    assert forall c :: c in conflicts <==> c in multiset(conflicts);
    assert forall c :: c in all <==> c in multiset(all);
    if conflicts != [] {
      assert conflicts[0] in all;
    }
  }

  lemma MergedIs(objs: set<ObjId>, base: Option<Commit>, task: Task, files: Files)
    requires task.Planning? && task.chosen.None?
    ensures var b, o, t := BaseFiles(objs, base), FilesAt(objs, task.target), FilesAt(objs, task.source);
      MergedFrom(objs, base, task, files) <==>
        base != Some(task.target) && AllConflicts(b, o, t, b.Keys + o.Keys + t.Keys) == {} &&
          files == FilesSpec(b, o, t)
  {
    hide FilesAt, BaseFiles, FilesSpec, AllConflicts;
  }

  /** With conflicts nothing can be planned. */
  lemma ConflictsStop(s: State, id: nat, base: Option<Commit>)
    requires id in s.tasks && s.tasks[id].Planning? && s.tasks[id].chosen.None? && base != Some(s.tasks[id].target)
    requires IsBase(s.objs, s.tasks[id].target, s.tasks[id].source, base)
    requires var b, o, t := BaseFiles(s.objs, base), FilesAt(s.objs, s.tasks[id].target),
      FilesAt(s.objs, s.tasks[id].source);
      AllConflicts(b, o, t, b.Keys + o.Keys + t.Keys) != {}
    ensures NothingToPlan(s, id)
  {
    var task := s.tasks[id];
    forall b' | IsBase(s.objs, task.target, task.source, b') ensures b' == base {
      MergeBase.ComputesUnique(s.objs, task.target, task.source, b', base);
    }
    hide BaseFiles, FilesAt, AllConflicts, FilesSpec, Sidecars, IsMergeTree, IsBase, MergedFrom;
    forall files ensures !MergedFiles(s.objs, task, files) {
      MergedIs(s.objs, base, task, files);
    }
    hide MergedFiles;
  }

  // ----- Undisturbed requests -----

  /** Consecutive states joined by steps. */
  ghost predicate Path(run: seq<State>, steps: seq<Step>) {
    |run| == |steps| + 1 && forall i | 0 <= i < |steps| :: Next(run[i], run[i + 1], steps[i])
  }

  lemma PathOn(run: seq<State>, steps: seq<Step>, s: State, step: Step)
    requires Path(run, steps) && |run| == |steps| + 1 && Next(run[|steps|], s, step)
    ensures Path(run + [s], steps + [step])
  {
    hide Next;
  }

  lemma PathJoin(run: seq<State>, steps: seq<Step>, run': seq<State>, steps': seq<Step>)
    requires Path(run, steps) && Path(run', steps') && run[|steps|] == run'[0]
    ensures Path(run + run'[1..], steps + steps') && (run + run'[1..])[|steps + steps'|] == run'[|steps'|]
  {
    hide Next;
    var r, t := run + run'[1..], steps + steps';
    forall i | 0 <= i < |t| ensures Next(r[i], r[i + 1], t[i]) {
      if i >= |steps| {
        assert r[i] == run'[i - |steps|] && r[i + 1] == run'[i + 1 - |steps|];
      }
    }
  }

  lemma ThreeSteps(s0: State, a: Step, s1: State, b: Step, s2: State, c: Step, s3: State)
    returns (run: seq<State>, steps: seq<Step>)
    requires Next(s0, s1, a) && Next(s1, s2, b) && Next(s2, s3, c)
    ensures Path(run, steps) && |run| == |steps| + 1 && run[0] == s0 && run[|steps|] == s3 && steps == [a, b, c]
  {
    hide Next;
    run, steps := [s0, s1, s2, s3], [a, b, c];
  }

  lemma ReadNext(s: State, id: nat, sourceRef: string, targetRef: string, purpose: Purpose)
    requires id !in s.tasks && sourceRef in s.refs && targetRef in s.refs &&
      PurposeFits(s, sourceRef, targetRef, purpose)
    ensures var source, target := Some(s.refs[sourceRef]), Some(s.refs[targetRef]);
      var s1 := WithTask(s, id, Reading(sourceRef, targetRef, None, None, purpose));
      var s2 := WithTask(s1, id, Reading(sourceRef, targetRef, source, None, purpose));
      && Next(s, s1, StartRead(id, sourceRef, targetRef, purpose)) && Next(s1, s2, ReadSource(id))
      && Next(s2, WithTask(s2, id, Reading(sourceRef, targetRef, source, target, purpose)), ReadTarget(id))
  {
    hide PurposeFits;
  }

  lemma ReadEnd(s: State, id: nat, task: Task)
    requires id in s.tasks && s.tasks[id] == task && task.Reading? && task.readSource.Some? && task.readTarget.Some?
    ensures Next(s, FinishedRead(s, id, task), FinishRead(id))
  {
  }

  function ReadSteps(id: nat, sourceRef: string, targetRef: string, purpose: Purpose): seq<Step> {
    [StartRead(id, sourceRef, targetRef, purpose), ReadSource(id), ReadTarget(id), FinishRead(id)]
  }

  /** Reading two refs that nobody moves. */
  lemma ReadsRefs(s: State, id: nat, sourceRef: string, targetRef: string, purpose: Purpose)
    returns (run: seq<State>, steps: seq<Step>)
    requires id !in s.tasks && sourceRef in s.refs && targetRef in s.refs &&
      PurposeFits(s, sourceRef, targetRef, purpose)
    ensures Path(run, steps) && |run| == |steps| + 1 && run[0] == s
    ensures steps == ReadSteps(id, sourceRef, targetRef, purpose)
    ensures run[|steps|] == FinishedRead(
      WithTask(s, id, Reading(sourceRef, targetRef, Some(s.refs[sourceRef]), Some(s.refs[targetRef]), purpose)), id,
      Reading(sourceRef, targetRef, Some(s.refs[sourceRef]), Some(s.refs[targetRef]), purpose))
  {
    var source, target := s.refs[sourceRef], s.refs[targetRef];
    var s1 := WithTask(s, id, Reading(sourceRef, targetRef, None, None, purpose));
    var s2 := WithTask(s1, id, Reading(sourceRef, targetRef, Some(source), None, purpose));
    var task := Reading(sourceRef, targetRef, Some(source), Some(target), purpose);
    var s3 := WithTask(s2, id, task);
    assert s3 == WithTask(s, id, task);
    var s4 := FinishedRead(s3, id, task);
    ReadNext(s, id, sourceRef, targetRef, purpose);
    ReadEnd(s3, id, task);
    hide Next, Path;
    run, steps := ThreeSteps(s, StartRead(id, sourceRef, targetRef, purpose), s1, ReadSource(id), s2, ReadTarget(id),
      s3);
    PathOn(run, steps, s4, FinishRead(id));
    run, steps := run + [s4], steps + [FinishRead(id)];
  }

  /** The state once a planned merge is published. */
  ghost function Published(s: State, task: Task, c: Commit, todo: set<ObjId>): State
    requires task.Planning?
  {
    var s' := s.(objs := s.objs + todo, refs := s.refs[task.targetRef := c]);
    if task.pr.Some? && task.pr.value in s.prs then
      var n := task.pr.value;
      s'.(prs := s.prs[n := s.prs[n].(status := "merged", mergeCommit := Some(c), targetCommit := c)])
    else s'
  }

  /** From a plan on: store everything, then swap the ref, which nobody has moved. */
  lemma PlanSucceeds(s: State, id: nat, task: Task, c: Commit, files: Files) returns (run: seq<State>, steps: seq<Step>)
    requires id !in s.tasks && task.Planning? && RefAt(s, task.targetRef) == Some(task.target)
    requires MergedFiles(s.objs, task, files)
    requires c.parents == [task.target, task.source] &&
      IsMergeTree(c.tree, files, Sidecars(s.objs, task.target, task.source))
    ensures Path(run, steps) && |run| == |steps| + 1 && run[0] == WithTask(s, id, task)
    ensures run[|steps|] == Published(s, task, c, {CommitId(c), TreeId(c.tree)} + FileIds(files))
    ensures steps == [PlanMerge(id, c), StoreSome(id, {CommitId(c), TreeId(c.tree)} + FileIds(files)), FinishMerge(id)]
  {
    hide *;
    var todo := {CommitId(c), TreeId(c.tree)} + FileIds(files);
    var ready, merging := Merging(task.targetRef, task.target, c, todo, task.pr),
      Merging(task.targetRef, task.target, c, {}, task.pr);
    var s0 := WithTask(s, id, task);
    var s1 := WithTask(s0, id, ready);
    var s2 := WithTask(s1, id, merging).(objs := s1.objs + todo);
    TaskFacts(s, id, task, ready);
    TaskFacts(s0, id, ready, merging);
    TaskFacts(s, id, task, merging);
    PlanNext(s0, id, task, c, files);
    StoreNext(s1, id, todo);
    FinishNext(s2, id);
    FinishPublishes(s, id, task, c, todo);
    run, steps := ThreeSteps(s0, PlanMerge(id, c), s1, StoreSome(id, todo), s2, FinishMerge(id),
      FinishedMerge(s2, id, s2.tasks[id]));
  }

  lemma TaskFacts(s: State, id: nat, a: Task, b: Task)
    ensures var s' := WithTask(s, id, a);
      && s'.objs == s.objs && s'.refs == s.refs && s'.prs == s.prs && id in s'.tasks && s'.tasks[id] == a
      && WithTask(s', id, b) == WithTask(s, id, b) && WithTask(s', id, b).objs == s.objs &&
        WithTask(s', id, b).tasks == s'.tasks[id := b]
  {
    assert s.tasks[id := a][id := b] == s.tasks[id := b];
  }

  /** Storing all that a merge has left to store. */
  lemma StoreNext(s: State, id: nat, todo: set<ObjId>)
    requires id in s.tasks && s.tasks[id].Merging? && s.tasks[id].todo == todo
    ensures var t := s.tasks[id];
      Next(s, WithTask(s, id, Merging(t.targetRef, t.replaced, t.next, {}, t.pr)).(objs := s.objs + todo),
        StoreSome(id, todo))
  {
    assert todo - todo == {};
  }

  lemma FinishNext(s: State, id: nat)
    requires id in s.tasks && s.tasks[id].Merging? && s.tasks[id].todo == {}
    ensures Next(s, FinishedMerge(s, id, s.tasks[id]), FinishMerge(id))
  {
  }

  lemma FinishPublishes(s: State, id: nat, task: Task, c: Commit, todo: set<ObjId>)
    requires id !in s.tasks && task.Planning? && RefAt(s, task.targetRef) == Some(task.target)
    ensures var merging := Merging(task.targetRef, task.target, c, {}, task.pr);
      FinishedMerge(WithTask(s, id, merging).(objs := s.objs + todo), id, merging) == Published(s, task, c, todo)
  {
    assert s.tasks[id := Merging(task.targetRef, task.target, c, {}, task.pr)] - {id} == s.tasks;
  }

  lemma PlanNext(s: State, id: nat, task: Task, c: Commit, files: Files)
    requires id in s.tasks && s.tasks[id] == task && task.Planning? && MergedFiles(s.objs, task, files)
    requires c.parents == [task.target, task.source] &&
      IsMergeTree(c.tree, files, Sidecars(s.objs, task.target, task.source))
    ensures var todo := {CommitId(c), TreeId(c.tree)} + FileIds(files);
      Next(s, WithTask(s, id, Merging(task.targetRef, task.target, c, todo, task.pr)), PlanMerge(id, c))
  {
    hide MergedFiles, IsMergeTree, Sidecars;
  }

  /** The tree of a merge commit exists for all files. */
  lemma {:induction false} MergeTreeEntries(files: Files, sidecars: map<string, string>, paths: set<string>)
    returns (entries: seq<TreeEntry>)
    requires paths <= files.Keys
    ensures Sortable(entries)
    ensures forall e :: e in entries <==> e.name in paths && e == MergeEntry(files, sidecars, e.name)
    decreases paths
  {
    if paths == {} {
      entries := [];
    } else {
      var p :| p in paths;
      var rest := MergeTreeEntries(files, sidecars, paths - {p});
      assert forall e <- rest :: e.name != p;
      entries := rest + [MergeEntry(files, sidecars, p)];
    }
  }

  lemma MergeTreeExists(files: Files, sidecars: map<string, string>) returns (t: Tree)
    ensures IsMergeTree(t, files, sidecars)
  {
    var entries := MergeTreeEntries(files, sidecars, files.Keys);
    SortOrdered(entries);
    t := Tree(SortByName(entries));
  }

  // ----- Requests from start to end, when nobody disturbs them -----

  /** The pull requests after a merge for `task` has published `head`. */
  ghost function PrsMerged(s: State, task: Task, head: Commit): map<nat, PullRequest>
    requires task.Planning?
  {
    if task.pr.Some? && task.pr.value in s.prs then
      s.prs[task.pr.value :=
        s.prs[task.pr.value].(status := "merged", mergeCommit := Some(head), targetCommit := head)]
    else s.prs
  }

  /** A fast-forward moves the target to the source, and closes the pull request with that commit. */
  lemma FastForwardSucceeds(s: State, id: nat, task: Task) returns (mid: State, end: State)
    requires id !in s.tasks && task.Planning? && task.chosen.None?
    requires RefAt(s, task.targetRef) == Some(task.target)
    requires IsBase(s.objs, task.target, task.source, Some(task.target))
    ensures Next(WithTask(s, id, task), mid, FastForward(id)) && Next(mid, end, FinishMerge(id))
    ensures end.objs == s.objs && end.tasks == s.tasks && end.refs == s.refs[task.targetRef := task.source]
    ensures end.prs == PrsMerged(s, task, task.source)
  {
    hide IsBase;
    var s0 := WithTask(s, id, task);
    mid := WithTask(s0, id, Merging(task.targetRef, task.target, task.source, {}, task.pr));
    end := FinishedMerge(mid, id, mid.tasks[id]);
    assert mid.tasks - {id} == s.tasks;
  }

  /** The objects of a merge commit of the given files. */
  function CommitObjects(c: Commit, files: Files): set<ObjId> {
    {CommitId(c), TreeId(c.tree)} + FileIds(files)
  }

  /**
   What the end of an undisturbed merge of `task` looks like: the target ref names the source, if that is
   a fast-forward, or else a new commit with both heads as parents and the merged files.
   */
  ghost predicate Merged(s: State, task: Task, base: Option<Commit>, last: State, head: Commit)
    requires task.Planning?
  {
    var files := FilesSpec(BaseFiles(s.objs, base), FilesAt(s.objs, task.target), FilesAt(s.objs, task.source));
    && last.refs == s.refs[task.targetRef := head] && last.tasks == s.tasks
    && last.prs == PrsMerged(s, task, head)
    && if base == Some(task.target) then head == task.source && last.objs == s.objs
       else
         && head.parents == [task.target, task.source]
         && IsMergeTree(head.tree, files, Sidecars(s.objs, task.target, task.source))
         && last.objs == s.objs + CommitObjects(head, files)
  }

  /** Without conflicts an undisturbed request merges, in these steps. */
  lemma MergeSucceeds(s: State, id: nat, task: Task, base: Option<Commit>)
    returns (run: seq<State>, steps: seq<Step>, head: Commit)
    requires id !in s.tasks && task.Planning? && task.chosen.None?
    requires RefAt(s, task.targetRef) == Some(task.target) && IsBase(s.objs, task.target, task.source, base)
    requires ConflictsOf(s.objs, base, task.target, task.source) == {}
    ensures Path(run, steps) && run[0] == WithTask(s, id, task) && Merged(s, task, base, run[|steps|], head)
    ensures if base == Some(task.target) then steps == [FastForward(id), FinishMerge(id)]
      else |steps| == 3 && steps[0] == PlanMerge(id, head) && steps[1].StoreSome? && steps[2] == FinishMerge(id)
    ensures |run| == |steps| + 1
  {
    hide *;
    if base == Some(task.target) {
      var mid, end := FastForwardSucceeds(s, id, task);
      head := task.source;
      run, steps := TwoSteps(WithTask(s, id, task), FastForward(id), mid, FinishMerge(id), end);
      MergedFast(s, task, end);
    } else {
      var b, o, t := BaseFiles(s.objs, base), FilesAt(s.objs, task.target), FilesAt(s.objs, task.source);
      var files := FilesSpec(b, o, t);
      ConflictsAre(s.objs, base, task.target, task.source);
      MergedIs(s.objs, base, task, files);
      MergedFilesIs(s.objs, base, task, files);
      var tree := MergeTreeExists(files, Sidecars(s.objs, task.target, task.source));
      head := Commit(tree, [task.target, task.source], "", "", 0);
      run, steps := PlanSucceeds(s, id, task, head, files);
      MergedNew(s, task, base, head, files);
    }
  }

  lemma MergedFilesIs(objs: set<ObjId>, base: Option<Commit>, task: Task, files: Files)
    requires task.Planning? && IsBase(objs, task.target, task.source, base) && MergedFrom(objs, base, task, files)
    ensures MergedFiles(objs, task, files)
  {
    hide IsBase, MergedFrom;
  }

  lemma TwoSteps(s0: State, a: Step, s1: State, b: Step, s2: State) returns (run: seq<State>, steps: seq<Step>)
    requires Next(s0, s1, a) && Next(s1, s2, b)
    ensures Path(run, steps) && run == [s0, s1, s2] && steps == [a, b]
  {
    hide Next;
    run, steps := [s0, s1, s2], [a, b];
  }

  lemma MergedFast(s: State, task: Task, end: State)
    requires task.Planning?
    requires end.objs == s.objs && end.tasks == s.tasks && end.refs == s.refs[task.targetRef := task.source]
    requires end.prs == PrsMerged(s, task, task.source)
    ensures Merged(s, task, Some(task.target), end, task.source)
  {
    hide PrsMerged, FilesSpec;
  }

  lemma MergedNew(s: State, task: Task, base: Option<Commit>, head: Commit, files: Files)
    requires task.Planning? && base != Some(task.target) && head.parents == [task.target, task.source]
    requires files == FilesSpec(BaseFiles(s.objs, base), FilesAt(s.objs, task.target), FilesAt(s.objs, task.source))
    requires IsMergeTree(head.tree, files, Sidecars(s.objs, task.target, task.source))
    ensures Merged(s, task, base, Published(s, task, head, {CommitId(head), TreeId(head.tree)} + FileIds(files)), head)
  {
    hide FilesSpec, BaseFiles, FilesAt, IsMergeTree, Sidecars;
  }

  /** What the merge of a pull request plans: the commits recorded with the request. */
  ghost function PrTask(pr: PullRequest, n: nat): Task {
    Planning(pr.sourceCommit, pr.targetCommit, pr.targetRef, Some(n), None)
  }

  /**
   An open pull request whose recorded commits are up to date and do not conflict is merged: its target
   ref moves from the recorded target to the recorded source or to a commit with both as parents.
   */
  lemma RequestMerges(s: State, id: nat, n: nat, base: Option<Commit>)
    returns (run: seq<State>, steps: seq<Step>, head: Commit)
    requires id !in s.tasks && n in s.prs && s.prs[n].status != "merged" && s.prs[n].status != "closed"
    requires RefAt(s, s.prs[n].targetRef) == Some(s.prs[n].targetCommit)
    requires IsBase(s.objs, s.prs[n].targetCommit, s.prs[n].sourceCommit, base)
    requires ConflictsOf(s.objs, base, s.prs[n].targetCommit, s.prs[n].sourceCommit) == {}
    ensures Path(run, steps) && |run| == |steps| + 1 && run[0] == s
    ensures |steps| > 1 && steps[0] == StartPrMerge(id, n)
    ensures steps[1] == if base == Some(s.prs[n].targetCommit) then FastForward(id) else PlanMerge(id, head)
    ensures var pr, last := s.prs[n], run[|steps|];
      && Merged(s, PrTask(pr, n), base, last, head)
      && last.refs == s.refs[pr.targetRef := head]
      && (head == pr.sourceCommit || head.parents == [pr.targetCommit, pr.sourceCommit])
      && last.prs == s.prs[n := pr.(status := "merged", mergeCommit := Some(head), targetCommit := head)]
  {
    hide *;
    var pr := s.prs[n];
    var task := Planning(pr.sourceCommit, pr.targetCommit, pr.targetRef, Some(n), None);
    StartsPrMerge(s, id, n);
    PrsOf(s, n);
    var r, t;
    r, t, head := MergeSucceeds(s, id, task, base);
    MergedMeaning(s, task, base, r[|t|], head);
    PathLength(r, t);
    PathBefore(s, StartPrMerge(id, n), r, t);
    run, steps := [s] + r, [StartPrMerge(id, n)] + t;
  }

  lemma PrsOf(s: State, n: nat)
    requires n in s.prs
    ensures var pr := s.prs[n];
      var task := Planning(pr.sourceCommit, pr.targetCommit, pr.targetRef, Some(n), None);
      PrTask(pr, n) == task && forall head ::
        PrsMerged(s, task, head) ==
          s.prs[n := pr.(status := "merged", mergeCommit := Some(head), targetCommit := head)]
  {
  }

  lemma StartsPrMerge(s: State, id: nat, n: nat)
    requires id !in s.tasks && n in s.prs && s.prs[n].status != "merged" && s.prs[n].status != "closed"
    ensures Next(s, WithTask(s, id, PrTask(s.prs[n], n)), StartPrMerge(id, n))
  {
  }

  lemma PathBefore(s: State, step: Step, run: seq<State>, steps: seq<Step>)
    requires Path(run, steps) && Next(s, run[0], step)
    ensures Path([s] + run, [step] + steps) && ([s] + run)[|[step] + steps|] == run[|steps|]
  {
    hide Next;
  }

  /** The reads of a branch merge end in its plan. */
  lemma ReadsToPlan(s: State, id: nat, sourceRef: string, targetRef: string)
    returns (run: seq<State>, steps: seq<Step>)
    requires id !in s.tasks && sourceRef in s.refs && targetRef in s.refs
    ensures Path(run, steps) && |run| == |steps| + 1 && run[0] == s
    ensures steps == ReadSteps(id, sourceRef, targetRef, MergeBranches)
    ensures |steps| == 4 && steps[0] == StartRead(id, sourceRef, targetRef, MergeBranches)
    ensures run[|steps|] == WithTask(s, id, Planning(s.refs[sourceRef], s.refs[targetRef], targetRef, None, None))
  {
    run, steps := ReadsRefs(s, id, sourceRef, targetRef, MergeBranches);
    hide Next, Path;
  }

  lemma RefIs(s: State, name: string)
    requires name in s.refs
    ensures RefAt(s, name) == Some(s.refs[name])
  {
  }

  lemma NoPrs(s: State, task: Task)
    requires task.Planning? && task.pr.None?
    ensures forall head :: PrsMerged(s, task, head) == s.prs
  {
  }

  /** Two branches that do not conflict are merged: the source's head into the target. */
  lemma BranchesMerge(s: State, id: nat, sourceRef: string, targetRef: string, base: Option<Commit>)
    returns (run: seq<State>, steps: seq<Step>, head: Commit)
    requires id !in s.tasks && sourceRef in s.refs && targetRef in s.refs
    requires IsBase(s.objs, s.refs[targetRef], s.refs[sourceRef], base)
    requires ConflictsOf(s.objs, base, s.refs[targetRef], s.refs[sourceRef]) == {}
    ensures Path(run, steps) && |run| == |steps| + 1 && run[0] == s
    ensures |steps| > 4 && steps[..4] == ReadSteps(id, sourceRef, targetRef, MergeBranches)
    ensures var source, target, last := s.refs[sourceRef], s.refs[targetRef], run[|steps|];
      && Merged(s, Planning(source, target, targetRef, None, None), base, last, head)
      && last.refs == s.refs[targetRef := head] && last.prs == s.prs
      && (head == source || head.parents == [target, source])
  {
    var task := Planning(s.refs[sourceRef], s.refs[targetRef], targetRef, None, None);
    hide *;
    var r, t := ReadsToPlan(s, id, sourceRef, targetRef);
    RefIs(s, targetRef);
    NoPrs(s, task);
    var r', t';
    r', t', head := MergeSucceeds(s, id, task, base);
    MergedMeaning(s, task, base, r'[|t'|], head);
    PathJoin(r, t, r', t');
    PathLength(r', t');
    run, steps := r + r'[1..], t + t';
  }

  lemma PathLength(run: seq<State>, steps: seq<Step>)
    requires Path(run, steps)
    ensures |run| == |steps| + 1
  {
    hide Next;
  }

  lemma MergedMeaning(s: State, task: Task, base: Option<Commit>, last: State, head: Commit)
    requires task.Planning? && Merged(s, task, base, last, head)
    ensures last.refs == s.refs[task.targetRef := head] && last.prs == PrsMerged(s, task, head)
    ensures head == task.source || head.parents == [task.target, task.source]
  {
    hide FilesSpec, IsMergeTree, Sidecars, PrsMerged;
  }

  /**
   Resolving an open pull request whose branches conflict, with a row for each conflict: the target ref moves
   to a commit with both heads as parents and the merged files, those in conflict replaced by their rows.
   */
  lemma RequestResolves(s: State, id: nat, n: nat, chosen: map<string, Row>, base: Option<Commit>)
    returns (run: seq<State>, steps: seq<Step>, head: Commit, entries: map<string, ManifestEntry>)
    requires id !in s.tasks && n in s.prs && s.prs[n].status == "open"
    requires s.prs[n].sourceRef in s.refs && s.prs[n].targetRef in s.refs
    requires var target, source := s.refs[s.prs[n].targetRef], s.refs[s.prs[n].sourceRef];
      && IsBase(s.objs, target, source, base)
      && ConflictsOf(s.objs, base, target, source) != {}
      && Resolves(chosen, ConflictsOf(s.objs, base, target, source))
    ensures Path(run, steps) && |run| == |steps| + 1 && run[0] == s
    ensures |steps| == 7 && steps[0] == StartRead(id, s.prs[n].sourceRef, s.prs[n].targetRef, ResolvePr(n, chosen))
    ensures var pr, last := s.prs[n], run[|steps|];
      var target, source := s.refs[pr.targetRef], s.refs[pr.sourceRef];
      var files := FilesSpec(BaseFiles(s.objs, base), FilesAt(s.objs, target), FilesAt(s.objs, source));
      && last.refs == s.refs[pr.targetRef := head] && head.parents == [target, source]
      && last.prs == s.prs[n := pr.(status := "merged", mergeCommit := Some(head), targetCommit := head)]
      && Picks(entries, chosen, ConflictsOf(s.objs, base, target, source))
      && IsMergeTree(head.tree, ResolvedFiles(files, entries), Sidecars(s.objs, target, source))
  {
    hide *;
    var pr := s.prs[n];
    var target, source := s.refs[pr.targetRef], s.refs[pr.sourceRef];
    var task := Planning(source, target, pr.targetRef, Some(n), Some(chosen));
    var r, t := ReadsToResolve(s, id, n, chosen);
    entries := PicksExist(chosen, ConflictsOf(s.objs, base, target, source));
    ResolutionIs(s.objs, base, task, entries);
    var files := FilesSpec(BaseFiles(s.objs, base), FilesAt(s.objs, target), FilesAt(s.objs, source));
    MergedFilesIs(s.objs, base, task, ResolvedFiles(files, entries));
    var tree := MergeTreeExists(ResolvedFiles(files, entries), Sidecars(s.objs, target, source));
    head := Commit(tree, [target, source], "", "", 0);
    RefIs(s, pr.targetRef);
    var r', t' := PlanSucceeds(s, id, task, head, ResolvedFiles(files, entries));
    PublishedIs(s, task, n, head, {CommitId(head), TreeId(head.tree)} + FileIds(ResolvedFiles(files, entries)));
    PathJoin(r, t, r', t');
    PathLength(r', t');
    run, steps := r + r'[1..], t + t';
  }

  lemma PublishedIs(s: State, task: Task, n: nat, c: Commit, todo: set<ObjId>)
    requires task.Planning? && task.pr == Some(n) && n in s.prs
    ensures var last := Published(s, task, c, todo);
      && last.refs == s.refs[task.targetRef := c]
      && last.prs == s.prs[n := s.prs[n].(status := "merged", mergeCommit := Some(c), targetCommit := c)]
  {
  }

  lemma ReadsToResolve(s: State, id: nat, n: nat, chosen: map<string, Row>)
    returns (run: seq<State>, steps: seq<Step>)
    requires id !in s.tasks && n in s.prs && s.prs[n].status == "open"
    requires s.prs[n].sourceRef in s.refs && s.prs[n].targetRef in s.refs
    ensures Path(run, steps) && |run| == |steps| + 1 && run[0] == s && |steps| == 4
    ensures steps[0] == StartRead(id, s.prs[n].sourceRef, s.prs[n].targetRef, ResolvePr(n, chosen))
    ensures var pr := s.prs[n];
      run[|steps|] == WithTask(s, id, Planning(s.refs[pr.sourceRef], s.refs[pr.targetRef], pr.targetRef, Some(n),
        Some(chosen)))
  {
    run, steps := ReadsRefs(s, id, s.prs[n].sourceRef, s.prs[n].targetRef, ResolvePr(n, chosen));
    hide Next, Path;
  }

  /** Opening a pull request records the two refs and their heads. */
  lemma OpensRequest(s: State, id: nat, n: nat, sourceRef: string, targetRef: string)
    returns (run: seq<State>, steps: seq<Step>)
    requires id !in s.tasks && n !in s.prs && sourceRef in s.refs && targetRef in s.refs && sourceRef != targetRef
    ensures Path(run, steps) && |run| == |steps| + 1 && run[0] == s
    ensures steps == ReadSteps(id, sourceRef, targetRef, OpenPr(n))
    ensures run[|steps|] == s.(prs :=
      s.prs[n := PullRequest("open", sourceRef, targetRef, s.refs[sourceRef], s.refs[targetRef], None)])
  {
    run, steps := ReadsRefs(s, id, sourceRef, targetRef, OpenPr(n));
    hide Next, Path;
    var source, target := Some(s.refs[sourceRef]), Some(s.refs[targetRef]);
    assert s.tasks[id := Reading(sourceRef, targetRef, source, target, OpenPr(n))] - {id} == s.tasks;
  }

  /** Refreshing an open pull request records the present heads of its refs, and changes nothing else. */
  lemma RefreshesRequest(s: State, id: nat, n: nat) returns (run: seq<State>, steps: seq<Step>)
    requires id !in s.tasks && n in s.prs && s.prs[n].status == "open"
    requires s.prs[n].sourceRef in s.refs && s.prs[n].targetRef in s.refs
    ensures Path(run, steps) && |run| == |steps| + 1 && run[0] == s
    ensures steps == ReadSteps(id, s.prs[n].sourceRef, s.prs[n].targetRef, RefreshPr(n))
    ensures var pr := s.prs[n];
      run[|steps|] == s.(prs := s.prs[n :=
        pr.(sourceCommit := s.refs[pr.sourceRef], targetCommit := s.refs[pr.targetRef])])
  {
    var pr := s.prs[n];
    run, steps := ReadsRefs(s, id, pr.sourceRef, pr.targetRef, RefreshPr(n));
    hide Next, Path;
    var source, target := Some(s.refs[pr.sourceRef]), Some(s.refs[pr.targetRef]);
    assert s.tasks[id := Reading(pr.sourceRef, pr.targetRef, source, target, RefreshPr(n))] - {id} == s.tasks;
  }

  /** A status change in two steps sets the status of that request and nothing else. */
  lemma UpdatesStatus(s: State, id: nat, n: nat, status: string) returns (mid: State, end: State)
    requires id !in s.tasks && n in s.prs && s.prs[n].status != "merged"
    ensures Next(s, mid, StartUpdate(id, n, status)) && Next(mid, end, FinishUpdate(id))
    ensures end == s.(prs := s.prs[n := s.prs[n].(status := status)])
  {
    mid := WithTask(s, id, Updating(n, status));
    end := s.(prs := s.prs[n := s.prs[n].(status := status)]);
    assert mid.tasks - {id} == s.tasks;
  }

  /** A request whose ref has moved in the meantime ends without changing anything. */
  lemma StaleRequestFails(s: State, s': State, id: nat)
    requires id in s.tasks && (Next(s, s', FinishMerge(id)) || Next(s, s', FinishPush(id)))
    requires var t := s.tasks[id];
      if t.Pushing? then RefAt(s, t.branch) != t.expected else RefAt(s, t.targetRef) != Some(t.replaced)
    ensures s' == s.(tasks := s.tasks - {id})
  {
  }

  /** A merged request loses that status only to a change that was let through before the merge. */
  lemma MergedStatusLost(s: State, s': State, step: Step, n: nat)
    requires n in s.prs && s.prs[n].status == "merged" && Next(s, s', step)
    ensures n in s'.prs
    ensures s'.prs[n].status != "merged" <==>
      step.FinishUpdate? && s.tasks[step.id].updated == n && s.tasks[step.id].status != "merged"
  {
    hide IsBase, MergedFiles, IsMergeTree, Sidecars, Complete, Ancestors, Since;
  }

  // ----- Runs from the empty server that finish a merge and a resolution -----

  /** Two commits on top of one root. */
  ghost predicate Forked(local: set<ObjId>, root: Commit, a: Commit, b: Commit) {
    && root.parents == [] && a.parents == [root] && b.parents == [root] && a != b
    && Complete(local, CommitId(a)) && Complete(local, CommitId(b))
    && local == Reach(local, CommitId(a)) + Reach(local, CommitId(b))
  }

  lemma ForkAncestors(local: set<ObjId>, root: Commit, a: Commit)
    requires root.parents == [] && a.parents == [root] && Complete(local, CommitId(a))
    ensures CommitId(a) in local && Ancestors(local, root) == {root} && Ancestors(local, a) == {a, root}
  {
    ReachClosed(local, CommitId(a));
    assert forall p <- a.parents :: p == root;
    assert root in a.parents;
  }

  /** The root is where the two histories meet. */
  lemma ForkBase(local: set<ObjId>, root: Commit, a: Commit, b: Commit)
    requires Forked(local, root, a, b)
    ensures IsBase(local, a, b, Some(root)) && root != a
  {
    ForkAncestors(local, root, a);
    ForkAncestors(local, root, b);
    assert root in a.parents && root < a && root in b.parents && root < b;
    hide Reach, Complete, Ancestors;
    assert MergeBase.Common(local, a, b, root);
    assert MergeBase.Gate(local, a, b, root);
    var r := MergeBase.Answer(local, a, b);
    MergeBase.BaseIsGate(local, a, b, root, r);
  }

  /** Both branches are pushed to the empty server. */
  lemma PushBoth(local: set<ObjId>, root: Commit, a: Commit, b: Commit) returns (run: seq<State>, steps: seq<Step>)
    requires Forked(local, root, a, b)
    ensures Path(run, steps) && |run| == |steps| + 1 && run[0] == EMPTY
    ensures run[|steps|] == State(local, map["target" := a, "source" := b], map[], map[])
  {
    hide Reach, Complete;
    PushSucceeds(EMPTY, 0, local, "target", a);
    var r := PushRun(EMPTY, 0, local, "target", a);
    var t := [StartPush(0, local, "target", a), StoreSome(0, Since(local, a, None)), FinishPush(0)];
    PushSucceeds(r[2], 0, local, "source", b);
    var r' := PushRun(r[2], 0, local, "source", b);
    var t' := [StartPush(0, local, "source", b), StoreSome(0, Since(local, b, None)), FinishPush(0)];
    hide Next, PushRun;
    PathJoin([EMPTY] + r, t, [r[2]] + r', t');
    run, steps := [EMPTY] + r + ([r[2]] + r')[1..], t + t';
  }

  ghost predicate IsRun(run: seq<State>, steps: seq<Step>, last: State) {
    Path(run, steps) && run[0] == EMPTY && run[|steps|] == last
  }

  lemma RunOn(run: seq<State>, steps: seq<Step>, mid: State, run': seq<State>, steps': seq<Step>)
    returns (run2: seq<State>, steps2: seq<Step>)
    requires IsRun(run, steps, mid) && Path(run', steps') && |run'| == |steps'| + 1 && run'[0] == mid
    ensures IsRun(run2, steps2, run'[|steps'|])
  {
    hide Next;
    PathJoin(run, steps, run', steps');
    run2, steps2 := run + run'[1..], steps + steps';
  }

  lemma RunBehaves(run: seq<State>, steps: seq<Step>, last: State)
    requires IsRun(run, steps, last)
    ensures Behaviour(run, steps)
  {
    hide Next;
  }

  /**
   From the empty server some run merges: when `a` keeps its root's files, any `b` on the same root is
   merged into it, and the merge commit has the files of `b`.
   */
  lemma SomeRunMerges(local: set<ObjId>, root: Commit, a: Commit, b: Commit)
    returns (run: seq<State>, steps: seq<Step>, c: Commit)
    requires Forked(local, root, a, b) && a.tree == root.tree
    ensures Behaviour(run, steps) && run[|steps|].refs == map["target" := c, "source" := b] &&
      run[|steps|].tasks == map[]
    ensures c.parents == [a, b] && IsMergeTree(c.tree, FilesAt(local, b), Sidecars(local, a, b))
  {
    hide Reach, Complete;
    var r0, t0 := PushBoth(local, root, a, b);
    var mid := State(local, map["target" := a, "source" := b], map[], map[]);
    var files := FilesAt(local, b);
    var tree := MergeTreeExists(files, Sidecars(local, a, b));
    c := Commit(tree, [a, b], "", "", 0);
    var task := Planning(b, a, "target", None, None);
    ForkBase(local, root, a, b);
    hide Ancestors, FilesAt, Forked, IsBase, IsMergeTree, Sidecars;
    UnchangedTarget(local, root, a, b);
    assert MergedFiles(local, task, files);
    hide MergedFiles;
    var r1, t1 := ReadsRefs(mid, 0, "source", "target", MergeBranches);
    var r2, t2 := PlanSucceeds(mid, 0, task, c, files);
    hide Next;
    var r3, t3 := RunOn(r0, t0, mid, r1, t1);
    run, steps := RunOn(r3, t3, r1[|t1|], r2, t2);
    RunBehaves(run, steps, r2[|t2|]);
  }

  lemma UnchangedTarget(local: set<ObjId>, root: Commit, a: Commit, b: Commit)
    requires a.tree == root.tree && root != a
    ensures MergedFrom(local, Some(root), Planning(b, a, "target", None, None), FilesAt(local, b))
  {
    var o, t := FilesAt(local, a), FilesAt(local, b);
    assert FilesAt(local, root) == o;
    hide FilesAt, FilesSpec, AllConflicts;
    UnchangedSideYields(o, t, o.Keys + o.Keys + t.Keys);
  }

  /**
   From the empty server some run opens a pull request between two conflicting branches and resolves it
   with any choice of one row per conflict.
   */
  lemma SomeRunResolves(local: set<ObjId>, root: Commit, a: Commit, b: Commit, chosen: map<string, Row>)
    returns (run: seq<State>, steps: seq<Step>, c: Commit, entries: map<string, ManifestEntry>)
    requires Forked(local, root, a, b)
    requires var p, o, t := FilesAt(local, root), FilesAt(local, a), FilesAt(local, b);
      var conflicts := AllConflicts(p, o, t, p.Keys + o.Keys + t.Keys);
      conflicts != {} && Resolves(chosen, conflicts)
    ensures Behaviour(run, steps) && run[|steps|].refs == map["target" := c, "source" := b] &&
      run[|steps|].tasks == map[]
    ensures 0 in run[|steps|].prs && run[|steps|].prs[0].status == "merged" &&
      run[|steps|].prs[0].mergeCommit == Some(c)
    ensures var p, o, t := FilesAt(local, root), FilesAt(local, a), FilesAt(local, b);
      && Picks(entries, chosen, AllConflicts(p, o, t, p.Keys + o.Keys + t.Keys))
      && c.parents == [a, b]
      && IsMergeTree(c.tree, ResolvedFiles(FilesSpec(p, o, t), entries), Sidecars(local, a, b))
  {
    hide Reach, Complete, Forked, FilesAt, AllConflicts, FilesSpec, ResolvedFiles, Resolves, Picks, IsBase,
      IsMergeTree, Sidecars, MergedFiles, MergedFrom, Next, Path, Behaviour, IsRun;
    var mid := State(local, map["target" := a, "source" := b], map[], map[]);
    var r0, t0 := PushBoth(local, root, a, b);
    IsRunWhen(r0, t0, mid);
    ForkBase(local, root, a, b);
    var p, o, t := FilesAt(local, root), FilesAt(local, a), FilesAt(local, b);
    entries := PicksExist(chosen, AllConflicts(p, o, t, p.Keys + o.Keys + t.Keys));
    var files := ResolvedFiles(FilesSpec(p, o, t), entries);
    var tree := MergeTreeExists(files, Sidecars(local, a, b));
    c := Commit(tree, [a, b], "", "", 0);
    var task := Planning(b, a, "target", Some(0), Some(chosen));
    ResolvedIs(local, root, task, entries);
    var r1, t1 := OpensRequest(mid, 0, 0, "source", "target");
    var withPr := mid.(prs := mid.prs[0 := PullRequest("open", "source", "target", b, a, None)]);
    var r2, t2 := ReadsRefs(withPr, 0, "source", "target", ResolvePr(0, chosen));
    assert r2[|t2|] == WithTask(withPr, 0, task);
    var r3, t3 := PlanSucceeds(withPr, 0, task, c, files);
    var r4, t4 := RunOn(r0, t0, mid, r1, t1);
    var r5, t5 := RunOn(r4, t4, withPr, r2, t2);
    run, steps := RunOn(r5, t5, r2[|t2|], r3, t3);
    RunBehaves(run, steps, r3[|t3|]);
    RunEnds(run, steps, r3[|t3|]);
  }

  lemma IsRunWhen(run: seq<State>, steps: seq<Step>, last: State)
    requires Path(run, steps) && |run| == |steps| + 1 && run[0] == EMPTY && run[|steps|] == last
    ensures IsRun(run, steps, last)
  {
  }

  lemma RunEnds(run: seq<State>, steps: seq<Step>, last: State)
    requires IsRun(run, steps, last)
    ensures |run| == |steps| + 1 && run[|steps|] == last
  {
    hide Next;
  }

  /** Where every conflict has a row, entries can be picked. */
  lemma PicksExist(chosen: map<string, Row>, conflicts: set<MergeConflict>)
    returns (entries: map<string, ManifestEntry>)
    requires Resolves(chosen, conflicts)
    ensures Picks(entries, chosen, conflicts)
  {
    hide Candidates, Rows;
    var paths := set c <- conflicts :: c.path;
    forall p | p in paths
      ensures p in chosen && FirstWith(Candidates(ConflictAt(conflicts, p)), chosen[p]).Some?
    {
      var c := ConflictAt(conflicts, p);
    }
    entries := map p | p in paths :: FirstWith(Candidates(ConflictAt(conflicts, p)), chosen[p]).value;
  }

  lemma ResolvedIs(objs: set<ObjId>, base: Commit, task: Task, entries: map<string, ManifestEntry>)
    requires task.Planning? && task.chosen.Some? && IsBase(objs, task.target, task.source, Some(base))
    requires var p, o, t := FilesAt(objs, base), FilesAt(objs, task.target), FilesAt(objs, task.source);
      var conflicts := AllConflicts(p, o, t, p.Keys + o.Keys + t.Keys);
      conflicts != {} && Resolves(task.chosen.value, conflicts) && Picks(entries, task.chosen.value, conflicts)
    ensures var p, o, t := FilesAt(objs, base), FilesAt(objs, task.target), FilesAt(objs, task.source);
      MergedFiles(objs, task, ResolvedFiles(FilesSpec(p, o, t), entries))
  {
    ResolutionIs(objs, Some(base), task, entries);
    hide FilesAt, AllConflicts, FilesSpec, ResolvedFiles, Resolves, IsBase, Picks, MergedFrom;
  }
}
