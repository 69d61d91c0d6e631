/** Three-way merge of two commits, file by file, falling back to the row merge. */
module FileMerge {
  import opened Objects
  import opened Store
  import opened Paths
  import opened TreeWalker
  import opened Merge
  import opened MergeLaws

  type Files = map<string, Manifest>

  function FilesAt(objs: set<ObjId>, c: Commit): Files {
    ManifestsOf(Flatten(objs, c.tree, ""))
  }

  function At(f: Files, p: string): Option<Manifest> {
    if p in f then Some(f[p]) else None
  }

  datatype FileVerdict = KeepFile(m: Option<Manifest>) | ConflictFile(kind: ConflictKind) | MergeRows

  /** The classic three-way rule for what base, ours and theirs hold at one path, absence included. */
  function FileRule(b: Option<Manifest>, o: Option<Manifest>, t: Option<Manifest>): FileVerdict {
    if o == t then KeepFile(o)
    else if o == b then KeepFile(t)
    else if t == b then KeepFile(o)
    else if b.None? then ConflictFile(BothAdded)
    else if o.None? || t.None? then ConflictFile(ModifyDelete)
    else MergeRows
  }

  function RowsMerged(b: Files, o: Files, t: Files, p: string): Manifest
    requires p in b && p in o && p in t
  {
    Manifest(MergeSpec(b[p].entries, o[p].entries, t[p].entries))
  }

  /** What the merge leaves at path `p`; also where rows conflict, with the undisputed rows. */
  function MergedAt(b: Files, o: Files, t: Files, p: string): Option<Manifest> {
    match FileRule(At(b, p), At(o, p), At(t, p))
    case KeepFile(m) => m
    case ConflictFile(_) => None
    case MergeRows => Some(RowsMerged(b, o, t, p))
  }

  function FilesSpec(b: Files, o: Files, t: Files): Files {
    map p | p in b.Keys + o.Keys + t.Keys && MergedAt(b, o, t, p).Some? :: MergedAt(b, o, t, p).value
  }

  function EntriesOf(m: Option<Manifest>): Option<seq<ManifestEntry>> {
    if m.Some? then Some(m.value.entries) else None
  }

  function ConflictsAt(b: Files, o: Files, t: Files, p: string): set<MergeConflict> {
    match FileRule(At(b, p), At(o, p), At(t, p))
    case ConflictFile(kind) => {MergeConflict(p, kind, EntriesOf(At(b, p)), EntriesOf(At(o, p)), EntriesOf(At(t, p)))}
    case MergeRows => ConflictSpec(b[p].entries, o[p].entries, t[p].entries, p)
    case _ => {}
  }

  function AllConflicts(b: Files, o: Files, t: Files, paths: set<string>): set<MergeConflict> {
    set p, c | p in paths && c in ConflictsAt(b, o, t, p) :: c
  }

  /** The manifest objects that have to be read for path `p`. */
  function NeededAt(b: Files, o: Files, t: Files, p: string): set<ObjId> {
    match FileRule(At(b, p), At(o, p), At(t, p))
    case ConflictFile(_) => ReadIds(At(b, p)) + ReadIds(At(o, p)) + ReadIds(At(t, p))
    case MergeRows => ReadIds(At(b, p)) + ReadIds(At(o, p)) + ReadIds(At(t, p))
    case _ => {}
  }

  function ReadIds(m: Option<Manifest>): set<ObjId> {
    if m.Some? then {ManifestId(m.value)} else {}
  }

  function RowMergedPaths(b: Files, o: Files, t: Files): set<string> {
    set p <- b.Keys | FileRule(At(b, p), At(o, p), At(t, p)).MergeRows?
  }

  datatype MergeResult = MergeResult(files: Files, conflicts: seq<MergeConflict>)

  // ----- The algorithm -----

  /** The chain of tests for one path. */
  method Decide(base: Option<Manifest>, ours: Option<Manifest>, theirs: Option<Manifest>) returns (v: FileVerdict)
    ensures v == FileRule(base, ours, theirs)
  {
    if base.Some? {
      if ours == base && theirs == base {
        return KeepFile(base);
      } else if ours == base && theirs.Some? {
        return KeepFile(theirs);
      } else if theirs == base && ours.Some? {
        return KeepFile(ours);
      } else if ours.None? && theirs == base {
        return KeepFile(None);
      } else if theirs.None? && ours == base {
        return KeepFile(None);
      } else if ours.None? && theirs.None? {
        return KeepFile(None);
      } else if ours.None? && theirs != base {
        return ConflictFile(ModifyDelete);
      } else if theirs.None? && ours != base {
        return ConflictFile(ModifyDelete);
      } else if ours == theirs {
        return KeepFile(ours);
      } else {
        return MergeRows;
      }
    } else {
      if ours.Some? && theirs.None? {
        return KeepFile(ours);
      } else if ours.None? && theirs.Some? {
        return KeepFile(theirs);
      } else if ours == theirs {
        return KeepFile(ours);
      } else {
        return ConflictFile(BothAdded);
      }
    }
  }

  /** What the specification says of a path, by verdict. */
  lemma AtPath(b: Files, o: Files, t: Files, p: string)
    ensures var v := FileRule(At(b, p), At(o, p), At(t, p));
      var read := ReadIds(At(b, p)) + ReadIds(At(o, p)) + ReadIds(At(t, p));
      match v
      case KeepFile(m) =>
        NeededAt(b, o, t, p) == {} && MergedAt(b, o, t, p) == m && ConflictsAt(b, o, t, p) == {} &&
          WrittenIds(b, o, t, {p}) == {}
      case ConflictFile(kind) =>
        && NeededAt(b, o, t, p) == read && MergedAt(b, o, t, p) == None && WrittenIds(b, o, t, {p}) == {}
        && ConflictsAt(b, o, t, p) ==
          {MergeConflict(p, kind, EntriesOf(At(b, p)), EntriesOf(At(o, p)), EntriesOf(At(t, p)))}
      case MergeRows =>
        && p in b && p in o && p in t
        && NeededAt(b, o, t, p) == read && MergedAt(b, o, t, p) == Some(RowsMerged(b, o, t, p))
        && ConflictsAt(b, o, t, p) == ConflictSpec(b[p].entries, o[p].entries, t[p].entries, p)
        && WrittenIds(b, o, t, {p}) == {ManifestId(RowsMerged(b, o, t, p))}
  {
    hide MergeSpec, ConflictSpec;
  }

  /** The manifest, if there is one, cannot be read. */
  predicate Unreadable(objs: set<ObjId>, m: Option<Manifest>) {
    m.Some? && ManifestId(m.value) !in objs
  }

  /** One iteration of the loop over all paths; not `ok` when a manifest object it must read is missing. */
  method MergePath(store: ObjectStore, now: int, b: Files, o: Files, t: Files, p: string)
    returns (ok: bool, merged: Option<Manifest>, conflicts: seq<MergeConflict>)
    modifies store
    ensures ok <==> NeededAt(b, o, t, p) <= old(store.Objs())
    ensures ok ==> multiset(conflicts) == multiset(ConflictsAt(b, o, t, p)) && merged == MergedAt(b, o, t, p)
    ensures store.Objs() == old(store.Objs()) + if ok then WrittenIds(b, o, t, {p}) else {}
  {
    AtPath(b, o, t, p);
    hide FileRule, MergeSpec, ConflictSpec, EntriesOf, NeededAt, ConflictsAt, MergedAt, WrittenIds, At;
    var base, ours, theirs := At(b, p), At(o, p), At(t, p);
    var verdict := Decide(base, ours, theirs);
    ok, merged, conflicts := true, None, [];
    if verdict.KeepFile? {
      merged := verdict.m;
      return;
    }
    var objs := store.Objs();
    if Unreadable(objs, base) || Unreadable(objs, ours) || Unreadable(objs, theirs) {
      ok := false;
      return;
    }
    if verdict.ConflictFile? {
      conflicts := [MergeConflict(p, verdict.kind, EntriesOf(base), EntriesOf(ours), EntriesOf(theirs))];
      return;
    }
    var m;
    m, conflicts := WriteMerged(store, now, b[p], o[p], t[p], p);
    merged := Some(m);
  }

  /** Both sides changed the file: merge its rows and store the outcome. */
  method WriteMerged(store: ObjectStore, now: int, b: Manifest, o: Manifest, t: Manifest, p: string)
    returns (merged: Manifest, conflicts: seq<MergeConflict>)
    modifies store
    ensures merged == Manifest(MergeSpec(b.entries, o.entries, t.entries))
    ensures multiset(conflicts) == multiset(ConflictSpec(b.entries, o.entries, t.entries, p))
    ensures store.Objs() == old(store.Objs()) + {ManifestId(merged)}
  {
    hide MergeSpec, ConflictSpec;
    var entries;
    entries, conflicts := MergeManifests(b.entries, o.entries, t.entries, p);
    merged := Manifest(entries);
    store.Write(ManifestId(merged), now);
  }

  lemma LeastPath(paths: set<string>) returns (p: string)
    requires paths != {}
    ensures p in paths && forall q <- paths :: q == p || Less(p, q)
  {
    hide Less;
    var first :| first in paths;
    var rest := paths - {first};
    p := first;
    assert forall r | r in paths :: r == first || r in rest;
    if rest != {} {
      var q := LeastPath(rest);
      LessTotal(first, q);
      p := if Less(q, first) then q else first;
      forall r | r in paths ensures r == p || Less(p, r) {
        if r != first && r != q && p == first {
          LessTrans(first, q, r);
        }
      }
    }
  }

  method NextPath(paths: set<string>) returns (p: string)
    requires paths != {}
    ensures p in paths && forall q <- paths :: q == p || Less(p, q)
  {
    ghost var least := LeastPath(paths);
    p :| p in paths && forall q <- paths :: q == p || Less(p, q);
  }

  /** Manifests the row merges write. */
  function WrittenIds(b: Files, o: Files, t: Files, paths: set<string>): set<ObjId> {
    set p | p in paths && p in RowMergedPaths(b, o, t) :: ManifestId(RowsMerged(b, o, t, p))
  }

  lemma WrittenGrows(b: Files, o: Files, t: Files, done: set<string>, p: string)
    ensures WrittenIds(b, o, t, done + {p}) == WrittenIds(b, o, t, done) + WrittenIds(b, o, t, {p})
  {
  }

  /** Conflicts at different paths are different. */
  lemma ConflictsGrow(b: Files, o: Files, t: Files, done: set<string>, p: string)
    requires p !in done
    ensures AllConflicts(b, o, t, done) !! ConflictsAt(b, o, t, p)
    ensures AllConflicts(b, o, t, done + {p}) == AllConflicts(b, o, t, done) + ConflictsAt(b, o, t, p)
    ensures forall c <- ConflictsAt(b, o, t, p) :: c.path == p
  {
    forall q, c | c in ConflictsAt(b, o, t, q) ensures c.path == q {}
  }

  ghost predicate SortedByPath(conflicts: seq<MergeConflict>) {
    forall i, j | 0 <= i < j < |conflicts| ::
      conflicts[i].path == conflicts[j].path || Less(conflicts[i].path, conflicts[j].path)
  }

  lemma AppendSorted(conflicts: seq<MergeConflict>, more: seq<MergeConflict>, done: set<string>, p: string)
    requires SortedByPath(conflicts)
    requires forall c <- conflicts :: c.path in done
    requires forall q <- done :: Less(q, p)
    requires forall c <- more :: c.path == p
    ensures SortedByPath(conflicts + more)
    ensures forall c <- conflicts + more :: c.path in done + {p}
  {
    var all := conflicts + more;
    forall i, j | 0 <= i < j < |all| ensures all[i].path == all[j].path || Less(all[i].path, all[j].path) {
      if j >= |conflicts| {
        assert all[j] == more[j - |conflicts|] && all[j] in more;
        if i < |conflicts| {
          assert all[i] == conflicts[i] && all[i] in conflicts;
        } else {
          assert all[i] == more[i - |conflicts|] && all[i] in more;
        }
      }
    }
  }

  function FilesOn(b: Files, o: Files, t: Files, paths: set<string>): Files {
    map p | p in paths && MergedAt(b, o, t, p).Some? :: MergedAt(b, o, t, p).value
  }

  ghost predicate MergedSoFar(b: Files, o: Files, t: Files, done: set<string>, r: MergeResult) {
    && r.files == FilesOn(b, o, t, done)
    && multiset(r.conflicts) == multiset(AllConflicts(b, o, t, done))
    && SortedByPath(r.conflicts)
    && forall c <- r.conflicts :: c.path in done
  }

  lemma MergeStep(b: Files, o: Files, t: Files, done: set<string>, r: MergeResult, p: string, files: Files,
      more: seq<MergeConflict>)
    requires MergedSoFar(b, o, t, done, r) && p !in done
    requires forall q <- done :: Less(q, p)
    requires multiset(more) == multiset(ConflictsAt(b, o, t, p))
    requires files == if MergedAt(b, o, t, p).Some? then r.files[p := MergedAt(b, o, t, p).value] else r.files
    ensures MergedSoFar(b, o, t, done + {p}, MergeResult(files, r.conflicts + more))
  {
    hide MergedAt, ConflictsAt, SortedByPath, AllConflicts, FilesOn;
    assert FilesOn(b, o, t, done + {p}) == files by { FilesGrow(b, o, t, done, p); }
    ConflictsGrow(b, o, t, done, p);
    assert forall c <- more :: c in multiset(more);
    AppendSorted(r.conflicts, more, done, p);
  }

  lemma FilesGrow(b: Files, o: Files, t: Files, done: set<string>, p: string)
    ensures FilesOn(b, o, t, done + {p}) ==
            if MergedAt(b, o, t, p).Some? then FilesOn(b, o, t, done)[p := MergedAt(b, o, t, p).value]
              else FilesOn(b, o, t, done)
  {
    hide MergedAt;
  }

  ghost predicate AllNeeded(objs: set<ObjId>, b: Files, o: Files, t: Files) {
    forall p | p in b.Keys + o.Keys + t.Keys :: NeededAt(b, o, t, p) <= objs
  }

  /** The loop over all paths in sorted order. */
  method MergeFiles(store: ObjectStore, now: int, b: Files, o: Files, t: Files) returns (r: Option<MergeResult>)
    modifies store
    ensures AllNeeded(old(store.Objs()), b, o, t) ==> r.Some?
    ensures r.Some? ==> AllNeeded(store.Objs(), b, o, t)
    ensures r.Some? ==> MergedSoFar(b, o, t, b.Keys + o.Keys + t.Keys, r.value)
    ensures r.Some? ==> store.Objs() == old(store.Objs()) + WrittenIds(b, o, t, b.Keys + o.Keys + t.Keys)
  {
    ghost var all, done := b.Keys + o.Keys + t.Keys, {};
    hide MergedSoFar, ConflictsAt, NeededAt, MergedAt, RowMergedPaths, WrittenIds, AllNeeded;
    var res := MergeResult(map[], []);
    var todo := b.Keys + o.Keys + t.Keys;
    NothingMerged(b, o, t);
    while todo != {}
      invariant todo !! done && todo + done == all
      invariant forall q, p | q in done && p in todo :: Less(q, p)
      invariant MergedSoFar(b, o, t, done, res)
      invariant store.Objs() == old(store.Objs()) + WrittenIds(b, o, t, done)
      invariant forall p <- done :: NeededAt(b, o, t, p) <= store.Objs()
      decreases todo
    {
      var p := NextPath(todo);
      todo := todo - {p};
      ghost var objs := store.Objs();
      var ok, merged, more := MergePath(store, now, b, o, t, p);
      if !ok {
        NotAllNeeded(old(store.Objs()), objs, b, o, t, p);
        return None;
      }
      WrittenGrows(b, o, t, done, p);
      var files := if merged.Some? then res.files[p := merged.value] else res.files;
      MergeStep(b, o, t, done, res, p, files, more);
      res := MergeResult(files, res.conflicts + more);
      done := done + {p};
    }
    assert done == all;
    NeededAll(store.Objs(), b, o, t);
    r := Some(res);
  }

  lemma NothingMerged(b: Files, o: Files, t: Files)
    ensures MergedSoFar(b, o, t, {}, MergeResult(map[], []))
    ensures WrittenIds(b, o, t, {}) == {}
  {
    assert AllConflicts(b, o, t, {}) == {};
  }

  lemma NeededAll(objs: set<ObjId>, b: Files, o: Files, t: Files)
    requires forall p <- b.Keys + o.Keys + t.Keys :: NeededAt(b, o, t, p) <= objs
    ensures AllNeeded(objs, b, o, t)
  {
  }

  lemma NotAllNeeded(objs: set<ObjId>, grown: set<ObjId>, b: Files, o: Files, t: Files, p: string)
    requires p in b.Keys + o.Keys + t.Keys && objs <= grown && !(NeededAt(b, o, t, p) <= grown)
    ensures !AllNeeded(objs, b, o, t)
  {
  }

  function BaseFiles(objs: set<ObjId>, base: Option<Commit>): Files {
    if base.Some? then FilesAt(objs, base.value) else map[]
  }

  method LoadTreeManifests(objs: set<ObjId>, c: Commit) returns (r: Option<Files>)
    ensures r == if CommitId(c) in objs then Some(FilesAt(objs, c)) else None
  {
    if CommitId(c) !in objs {
      return None;
    }
    var flat := FlattenTree(objs, c.tree, "");
    r := Some(ManifestsOf(flat));
  }

  /** Everything that the merge of two commits has to read is there. */
  ghost predicate Mergeable(objs: set<ObjId>, base: Option<Commit>, ours: Commit, theirs: Commit) {
    var b, o, t := BaseFiles(objs, base), FilesAt(objs, ours), FilesAt(objs, theirs);
    && (base.Some? ==> CommitId(base.value) in objs) && CommitId(ours) in objs && CommitId(theirs) in objs
    && AllNeeded(objs, b, o, t)
  }

  method ThreeWayMerge(store: ObjectStore, now: int, base: Option<Commit>, ours: Commit, theirs: Commit)
    returns (r: Option<MergeResult>)
    modifies store
    ensures Mergeable(old(store.Objs()), base, ours, theirs) ==> r.Some?
    ensures r.Some? ==>
      var objs := old(store.Objs());
      var b, o, t := BaseFiles(objs, base), FilesAt(objs, ours), FilesAt(objs, theirs);
      && r.value.files == FilesSpec(b, o, t)
      && multiset(r.value.conflicts) == multiset(AllConflicts(b, o, t, b.Keys + o.Keys + t.Keys))
      && SortedByPath(r.value.conflicts)
      && store.Objs() == objs + WrittenIds(b, o, t, b.Keys + o.Keys + t.Keys)
  {
    var objs := store.Objs();
    var b: Option<Files> := Some(map[]);
    if base.Some? {
      b := LoadTreeManifests(objs, base.value);
    }
    var o := LoadTreeManifests(objs, ours);
    var t := LoadTreeManifests(objs, theirs);
    if b.None? || o.None? || t.None? {
      return None;
    }
    hide AllNeeded, AllConflicts, FilesAt, RowMergedPaths;
    r := MergeFiles(store, now, b.value, o.value, t.value);
    assert FilesOn(b.value, o.value, t.value, b.value.Keys + o.value.Keys + t.value.Keys) ==
      FilesSpec(b.value, o.value, t.value);
  }

  // ----- Laws -----

  /** Whichever side is unchanged yields to the other, and equal sides agree; no conflict arises. */
  lemma UnchangedSideYields(b: Files, x: Files, paths: set<string>)
    ensures FilesSpec(b, x, b) == x && FilesSpec(b, b, x) == x && FilesSpec(b, x, x) == x
    ensures AllConflicts(b, x, b, paths) == {} && AllConflicts(b, b, x, paths) == {} &&
      AllConflicts(b, x, x, paths) == {}
  {
    forall p
      ensures FileRule(At(b, p), At(x, p), At(b, p)) == KeepFile(At(x, p))
      ensures FileRule(At(b, p), At(b, p), At(x, p)) == KeepFile(At(x, p))
      ensures FileRule(At(b, p), At(x, p), At(x, p)) == KeepFile(At(x, p))
    {
    }
  }

  /**
   The fate of every file, from its three versions alone: equal sides agree, an unchanged side yields, two
   changes of a file that all three have are merged row by row, and any other two changes are in conflict.
   */
  lemma FileFate(b: Files, o: Files, t: Files, p: string, c: MergeConflict)
    ensures var base, ours, theirs := At(b, p), At(o, p), At(t, p);
      var result, conflict := At(FilesSpec(b, o, t), p), c in AllConflicts(b, o, t, b.Keys + o.Keys + t.Keys);
      c.path == p ==>
        if ours == theirs || theirs == base then result == ours && !conflict
        else if ours == base then result == theirs && !conflict
        else if p in b && p in o && p in t then
          result == Some(Manifest(MergeSpec(b[p].entries, o[p].entries, t[p].entries))) &&
          (conflict <==> c in ConflictSpec(b[p].entries, o[p].entries, t[p].entries, p))
        else
          result == None &&
          (conflict <==> c == MergeConflict(p, if p in b then ModifyDelete else BothAdded,
                                            if p in b then Some(b[p].entries) else None,
                                            if p in o then Some(o[p].entries) else None,
                                            if p in t then Some(t[p].entries) else None))
  {
    hide MergeSpec, ConflictSpec;
    forall q | c in ConflictsAt(b, o, t, q) ensures c.path == q {
      ConflictsHere(b, o, t, q, c);
    }
    if c.path == p {
      assert c in AllConflicts(b, o, t, b.Keys + o.Keys + t.Keys) <==>
        p in b.Keys + o.Keys + t.Keys && c in ConflictsAt(b, o, t, p);
    }
  }

  /**
   What the merge of a file reads and stores: only where both sides changed it differently are its versions
   read, and only where all three have it is the result stored.
   */
  lemma FileReads(b: Files, o: Files, t: Files, paths: set<string>, p: string, i: ObjId)
    ensures i in NeededAt(b, o, t, p) <==>
      At(o, p) != At(t, p) && At(o, p) != At(b, p) && At(t, p) != At(b, p) &&
      ((p in b && i == ManifestId(b[p])) || (p in o && i == ManifestId(o[p])) || (p in t && i == ManifestId(t[p])))
    ensures i in WrittenIds(b, o, t, paths) <==>
      exists q <- paths :: q in b && q in o && q in t && o[q] != t[q] && o[q] != b[q] && t[q] != b[q] &&
        i == ManifestId(Manifest(MergeSpec(b[q].entries, o[q].entries, t[q].entries)))
  {
    hide MergeSpec;
    if q :| q in paths && q in RowMergedPaths(b, o, t) && i == ManifestId(RowsMerged(b, o, t, q)) {
      assert FileRule(At(b, q), At(o, q), At(t, q)).MergeRows?;
    }
    if q :| q in paths && q in b && q in o && q in t && o[q] != t[q] && o[q] != b[q] && t[q] != b[q]
              && i == ManifestId(Manifest(MergeSpec(b[q].entries, o[q].entries, t[q].entries))) {
      assert q in RowMergedPaths(b, o, t) && i == ManifestId(RowsMerged(b, o, t, q));
    }
  }

  lemma ConflictsHere(b: Files, o: Files, t: Files, p: string, c: MergeConflict)
    requires c in ConflictsAt(b, o, t, p)
    ensures c.path == p
  {
    hide TablesOf, MergeSpec;
  }

  /** Every row of a merged file is a row of ours' or theirs' version of that file. */
  lemma MergedRowsProvenance(b: Files, o: Files, t: Files, p: string, e: ManifestEntry)
    requires p in FilesSpec(b, o, t) && e in FilesSpec(b, o, t)[p].entries
    ensures (p in o && e in o[p].entries) || (p in t && e in t[p].entries)
  {
    if FileRule(At(b, p), At(o, p), At(t, p)).MergeRows? {
      MergeProvenance(b[p].entries, o[p].entries, t[p].entries);
    }
  }

  /** A merged file is one of the two versions unless its rows were merged. */
  lemma MergedFileOrigin(b: Files, o: Files, t: Files, p: string)
    requires p in FilesSpec(b, o, t)
    ensures At(o, p) == Some(FilesSpec(b, o, t)[p]) || At(t, p) == Some(FilesSpec(b, o, t)[p])
            || (p in RowMergedPaths(b, o, t) && FilesSpec(b, o, t)[p] == RowsMerged(b, o, t, p))
  {
  }

  /** Swapping the sides mirrors every conflict, of files and of rows, whatever the manifests. */
  lemma SwapMirrorsAll(b: Files, o: Files, t: Files, paths: set<string>, c: MergeConflict)
    ensures c in AllConflicts(b, o, t, paths) <==> Mirror(c) in AllConflicts(b, t, o, paths)
  {
    hide ConflictsAt;
    forall p ensures c in ConflictsAt(b, o, t, p) <==> Mirror(c) in ConflictsAt(b, t, o, p) {
      SwapMirrorsAt(b, o, t, p, c);
    }
  }

  lemma SwapMirrorsAt(b: Files, o: Files, t: Files, p: string, c: MergeConflict)
    ensures c in ConflictsAt(b, o, t, p) <==> Mirror(c) in ConflictsAt(b, t, o, p)
  {
    hide ConflictSpec;
    assert FileRule(At(b, p), At(t, p), At(o, p)) == FileRule(At(b, p), At(o, p), At(t, p));
    if p in b && p in o && p in t {
      SwapMirrorsConflicts(b[p].entries, o[p].entries, t[p].entries, p, c);
    }
    assert Mirror(Mirror(c)) == c;
  }
}
