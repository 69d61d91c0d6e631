/** Garbage collection: mark what the refs and the staged index reach, sweep what is old and unmarked. */
module Gc {
  import opened Objects
  import opened Store
  import opened Walker

  datatype Kind = CommitKind | TreeKind | ManifestKind | RowKind | SidecarKind | BlobKind

  const KINDS := [CommitKind, TreeKind, ManifestKind, RowKind, SidecarKind, BlobKind]

  function KindOf(o: ObjId): Kind {
    match o
    case CommitId(_) => CommitKind
    case TreeId(_) => TreeKind
    case ManifestId(_) => ManifestKind
    case RowId(_) => RowKind
    case SidecarId(_) => SidecarKind
    case BlobId(_) => BlobKind
  }

  function OfKind(k: Kind, s: set<ObjId>): set<ObjId> {
    set o <- s | KindOf(o) == k
  }

  // ----- Mark -----

  /** What a staged entry keeps alive: a manifest and, when it can be read, its rows; a blob. */
  function Staged(objs: set<ObjId>, t: Target): set<ObjId> {
    match t
    case ManifestTarget(m) => Reach(objs, ManifestId(m))
    case BlobTarget(b) => {BlobId(b)}
    case TreeTarget(_) => {}
  }

  function IndexLive(objs: set<ObjId>, index: map<string, Target>): set<ObjId> {
    set p, x | p in index && x in Staged(objs, index[p]) :: x
  }

  function Heads(refs: seq<Commit>): set<ObjId> {
    set c <- refs :: CommitId(c)
  }

  function Live(objs: set<ObjId>, refs: seq<Commit>, index: map<string, Target>): set<ObjId> {
    ReachAll(objs, Heads(refs)) + IndexLive(objs, index)
  }

  method MarkManifest(objs: set<ObjId>, m: Manifest, live0: set<ObjId>) returns (live: set<ObjId>)
    ensures live == live0 + Reach(objs, ManifestId(m))
  {
    live := live0 + {ManifestId(m)};
    if ManifestId(m) in objs {
      for i := 0 to |m.entries|
        invariant live == live0 + {ManifestId(m)} + set e <- m.entries[..i] :: RowId(e.row)
      {
        assert m.entries[..i + 1] == m.entries[..i] + [m.entries[i]];
        live := live + {RowId(m.entries[i].row)};
      }
      assert m.entries[..|m.entries|] == m.entries;
    }
  }

  method MarkIndex(objs: set<ObjId>, index: map<string, Target>, live0: set<ObjId>) returns (live: set<ObjId>)
    ensures live == live0 + IndexLive(objs, index)
  {
    live := live0;
    var todo := index.Keys;
    while todo != {}
      invariant todo <= index.Keys
      invariant live == live0 + IndexLive(objs, index - todo)
      decreases todo
    {
      var p :| p in todo;
      IndexGrows(objs, index, todo, p);
      todo := todo - {p};
      match index[p] {
        case ManifestTarget(m) => live := MarkManifest(objs, m, live);
        case BlobTarget(b) => live := live + {BlobId(b)};
        case TreeTarget(_) =>
      }
    }
    assert index - {} == index;
  }

  lemma IndexGrows(objs: set<ObjId>, index: map<string, Target>, todo: set<string>, p: string)
    requires p in todo && todo <= index.Keys
    ensures IndexLive(objs, index - (todo - {p})) == IndexLive(objs, index - todo) + Staged(objs, index[p])
  {
    var less := index - (todo - {p});
    forall q, x | q in less && x in Staged(objs, less[q])
      ensures x in IndexLive(objs, index - todo) + Staged(objs, index[p])
    {
      assert q == p || (q in index - todo && x in Staged(objs, (index - todo)[q]));
    }
    forall q, x | q in index - todo && x in Staged(objs, index[q]) ensures x in IndexLive(objs, less) {
      assert q in less && x in Staged(objs, less[q]);
    }
    assert p in less && less[p] == index[p];
  }

  method CollectLiveSet(objs: set<ObjId>, refs: seq<Commit>, index: map<string, Target>) returns (live: set<ObjId>)
    ensures live == Live(objs, refs, index)
  {
    hide Reach;
    live := {};
    for i := 0 to |refs|
      invariant live == ReachAll(objs, Heads(refs[..i]))
    {
      assert refs[..i + 1] == refs[..i] + [refs[i]];
      assert Heads(refs[..i + 1]) == Heads(refs[..i]) + {CommitId(refs[i])};
      var walked := WalkCommitObjects(objs, refs[i]);
      live := live + walked;
    }
    assert refs[..|refs|] == refs;
    live := MarkIndex(objs, index, live);
  }

  // ----- Sweep -----

  function Doomed(files: map<ObjId, int>, live: set<ObjId>, cutoff: int): set<ObjId> {
    set o <- files | o !in live && files[o] < cutoff
  }

  function Spared(files: map<ObjId, int>, live: set<ObjId>, cutoff: int): set<ObjId> {
    set o <- files | o !in live && files[o] >= cutoff
  }

  function Stale(tmp: map<string, int>, cutoff: int): set<string> {
    set f <- tmp | tmp[f] < cutoff
  }

  datatype GcResult = GcResult(liveCounts: map<Kind, nat>, deletedCounts: map<Kind, nat>, skippedCounts: map<Kind, nat>,
                               totalScanned: nat, totalDeleted: nat, tmpDeleted: nat)

  function Counts(s: set<ObjId>): map<Kind, nat> {
    map k <- KINDS :: |OfKind(k, s)|
  }

  /** The report of a sweep, by counting sets. */
  function SweepReport(files: map<ObjId, int>, tmp: map<string, int>, live: set<ObjId>, cutoff: int): GcResult {
    GcResult(Counts(live), Counts(Doomed(files, live, cutoff)), Counts(Spared(files, live, cutoff)),
             |files|, |Doomed(files, live, cutoff)|, |Stale(tmp, cutoff)|)
  }

  lemma CountOne<T>(done: set<T>, o: T, s: set<T>)
    requires o !in done
    ensures |(done + {o}) * s| == |done * s| + if o in s then 1 else 0
  {
    assert (done + {o}) * s == done * s + if o in s then {o} else {};
  }

  /** The files after a sweep that would delete `gone`. */
  function Swept<T>(files: map<T, int>, gone: set<T>, dryRun: bool): map<T, int> {
    if dryRun then files else files - gone
  }

  lemma SweepOne<T>(files: map<T, int>, done: set<T>, o: T, s: set<T>, dryRun: bool)
    requires o !in done
    ensures Swept(files, (done + {o}) * s, dryRun) ==
      if o in s && !dryRun then Swept(files, done * s, dryRun) - {o} else Swept(files, done * s, dryRun)
    ensures o in files ==> o in Swept(files, done * s, dryRun) && Swept(files, done * s, dryRun)[o] == files[o]
  {
    assert (done + {o}) * s == done * s + if o in s then {o} else {};
  }

  lemma DoomedOrSpared(files: map<ObjId, int>, live: set<ObjId>, cutoff: int, o: ObjId)
    ensures o in Doomed(files, live, cutoff) <==> o in files && o !in live && files[o] < cutoff
    ensures o in Spared(files, live, cutoff) <==> o in files && o !in live && files[o] >= cutoff
  {
  }

  method SweepKind(store: ObjectStore, kind: Kind, live: set<ObjId>, cutoff: int, dryRun: bool)
    returns (scanned: nat, deleted: nat, skipped: nat)
    modifies store`files
    ensures var files := old(store.files);
      && store.files == Swept(files, OfKind(kind, Doomed(files, live, cutoff)), dryRun)
      && scanned == |OfKind(kind, files.Keys)|
      && deleted == |OfKind(kind, Doomed(files, live, cutoff))|
      && skipped == |OfKind(kind, Spared(files, live, cutoff))|
  {
    hide Doomed, Spared, Swept, OfKind;
    ghost var files := store.files;
    ghost var doomed, spared := Doomed(files, live, cutoff), Spared(files, live, cutoff);
    var todo := OfKind(kind, store.files.Keys);
    KindFiles(kind, files, live, cutoff);
    ghost var all := todo;
    ghost var done: set<ObjId> := {};
    scanned, deleted, skipped := 0, 0, 0;
    SweptNone(files, dryRun);
    assert done * doomed == {} && done * spared == {};
    while todo != {}
      invariant todo !! done && todo + done == all
      invariant store.files == Swept(files, done * doomed, dryRun)
      invariant scanned == |done| && deleted == |done * doomed| && skipped == |done * spared|
      decreases todo
    {
      var o :| o in todo;
      CountOne(done, o, doomed);
      CountOne(done, o, spared);
      SweepOne(files, done, o, doomed, dryRun);
      DoomedOrSpared(files, live, cutoff, o);
      todo := todo - {o};
      done := done + {o};
      scanned := scanned + 1;
      if o in live {
        continue;
      }
      var mtime := store.files[o];
      if mtime < cutoff {
        deleted := deleted + 1;
        if !dryRun {
          store.files := store.files - {o};
        }
      } else {
        skipped := skipped + 1;
      }
    }
    assert done == all;
  }

  lemma SweptNone<T>(files: map<T, int>, dryRun: bool)
    ensures Swept(files, {}, dryRun) == files
  {
  }

  lemma KindFiles(kind: Kind, files: map<ObjId, int>, live: set<ObjId>, cutoff: int)
    ensures OfKind(kind, files.Keys) <= files.Keys
    ensures OfKind(kind, files.Keys) * Doomed(files, live, cutoff) == OfKind(kind, Doomed(files, live, cutoff))
    ensures OfKind(kind, files.Keys) * Spared(files, live, cutoff) == OfKind(kind, Spared(files, live, cutoff))
  {
  }

  lemma StaleFiles(tmp: map<string, int>, cutoff: int)
    ensures tmp.Keys * Stale(tmp, cutoff) == Stale(tmp, cutoff)
    ensures forall f <- tmp :: f in Stale(tmp, cutoff) <==> tmp[f] < cutoff
  {
  }

  method SweepTmp(store: ObjectStore, cutoff: int, dryRun: bool) returns (deleted: nat)
    modifies store`tmp
    ensures store.tmp == Swept(old(store.tmp), Stale(old(store.tmp), cutoff), dryRun)
    ensures deleted == |Stale(old(store.tmp), cutoff)|
  {
    hide Stale, Swept;
    ghost var tmp := store.tmp;
    ghost var stale := Stale(tmp, cutoff);
    StaleFiles(tmp, cutoff);
    var todo := store.tmp.Keys;
    ghost var done: set<string> := {};
    deleted := 0;
    SweptNone(tmp, dryRun);
    assert done * stale == {};
    while todo != {}
      invariant todo !! done && todo + done == tmp.Keys
      invariant store.tmp == Swept(tmp, done * stale, dryRun)
      invariant deleted == |done * stale|
      decreases todo
    {
      var f :| f in todo;
      CountOne(done, f, stale);
      SweepOne(tmp, done, f, stale, dryRun);
      todo := todo - {f};
      done := done + {f};
      if store.tmp[f] < cutoff {
        deleted := deleted + 1;
        if !dryRun {
          store.tmp := store.tmp - {f};
        }
      }
    }
    assert done == tmp.Keys;
  }

  function OfKinds(ks: seq<Kind>, s: set<ObjId>): set<ObjId> {
    set o <- s | KindOf(o) in ks
  }

  /** Counting one more kind. */
  lemma CountKind(ks: seq<Kind>, k: Kind, s: set<ObjId>)
    requires k !in ks
    ensures OfKinds(ks + [k], s) == OfKinds(ks, s) + OfKind(k, s)
    ensures |OfKinds(ks + [k], s)| == |OfKinds(ks, s)| + |OfKind(k, s)|
  {
    assert OfKinds(ks + [k], s) == OfKinds(ks, s) + OfKind(k, s);
  }

  lemma AllKinds(s: set<ObjId>)
    ensures OfKinds(KINDS, s) == s
  {
  }

  /** Having swept other kinds does not affect what is there to sweep of a kind. */
  lemma KindLeft(files: map<ObjId, int>, live: set<ObjId>, cutoff: int, ks: seq<Kind>, k: Kind, dryRun: bool)
    requires k !in ks
    ensures var left := Swept(files, OfKinds(ks, Doomed(files, live, cutoff)), dryRun);
      && OfKind(k, left.Keys) == OfKind(k, files.Keys)
      && OfKind(k, Doomed(left, live, cutoff)) == OfKind(k, Doomed(files, live, cutoff))
      && OfKind(k, Spared(left, live, cutoff)) == OfKind(k, Spared(files, live, cutoff))
      && Swept(left, OfKind(k, Doomed(files, live, cutoff)), dryRun) ==
        Swept(files, OfKinds(ks + [k], Doomed(files, live, cutoff)), dryRun)
  {
  }

  function CountsOf(ks: seq<Kind>, s: set<ObjId>): map<Kind, nat> {
    map k <- ks :: |OfKind(k, s)|
  }

  lemma MoreCounts(ks: seq<Kind>, k: Kind, s: set<ObjId>)
    ensures CountsOf(ks + [k], s) == CountsOf(ks, s)[k := |OfKind(k, s)|]
  {
  }

  lemma DistinctKinds(i: nat)
    requires i < |KINDS|
    ensures KINDS[i] !in KINDS[..i] && KINDS[..i + 1] == KINDS[..i] + [KINDS[i]]
  {
  }

  /** The sweep has dealt with the kinds `ks`. */
  ghost predicate Sweeping(files: map<ObjId, int>, live: set<ObjId>, cutoff: int, dryRun: bool, ks: seq<Kind>,
      now: map<ObjId, int>, r: GcResult) {
    var doomed, spared := Doomed(files, live, cutoff), Spared(files, live, cutoff);
    && now == Swept(files, OfKinds(ks, doomed), dryRun)
    && r == GcResult(CountsOf(ks, live), CountsOf(ks, doomed), CountsOf(ks, spared), |OfKinds(ks, files.Keys)|,
      |OfKinds(ks, doomed)|, 0)
  }

  lemma SweepingStarts(files: map<ObjId, int>, live: set<ObjId>, cutoff: int, dryRun: bool)
    ensures Sweeping(files, live, cutoff, dryRun, KINDS[..0], files, GcResult(map[], map[], map[], 0, 0, 0))
  {
    hide Doomed, Spared, Swept;
    NoKinds(live);
    NoKinds(files.Keys);
    NoKinds(Doomed(files, live, cutoff));
    NoKinds(Spared(files, live, cutoff));
    SweptNone(files, dryRun);
  }

  lemma SweepingStep(files: map<ObjId, int>, live: set<ObjId>, cutoff: int, dryRun: bool, i: nat,
      now: map<ObjId, int>, r: GcResult)
    requires i < |KINDS| && Sweeping(files, live, cutoff, dryRun, KINDS[..i], now, r)
    ensures var k := KINDS[i];
      var doomed, spared := OfKind(k, Doomed(now, live, cutoff)), OfKind(k, Spared(now, live, cutoff));
      Sweeping(files, live, cutoff, dryRun, KINDS[..i + 1], Swept(now, doomed, dryRun),
        GcResult(r.liveCounts[k := |OfKind(k, live)|], r.deletedCounts[k := |doomed|], r.skippedCounts[k := |spared|],
                 r.totalScanned + |OfKind(k, now.Keys)|, r.totalDeleted + |doomed|, 0))
  {
    hide OfKind, OfKinds, Doomed, Spared, CountsOf, Swept;
    var k := KINDS[i];
    DistinctKinds(i);
    KindLeft(files, live, cutoff, KINDS[..i], k, dryRun);
    CountKind(KINDS[..i], k, files.Keys);
    CountKind(KINDS[..i], k, Doomed(files, live, cutoff));
    MoreCounts(KINDS[..i], k, live);
    MoreCounts(KINDS[..i], k, Doomed(files, live, cutoff));
    MoreCounts(KINDS[..i], k, Spared(files, live, cutoff));
  }

  lemma SweepingEnds(files: map<ObjId, int>, tmp: map<string, int>, live: set<ObjId>, cutoff: int, dryRun: bool,
      now: map<ObjId, int>, r: GcResult)
    requires Sweeping(files, live, cutoff, dryRun, KINDS[..|KINDS|], now, r)
    ensures now == Swept(files, Doomed(files, live, cutoff), dryRun)
    ensures r.(tmpDeleted := |Stale(tmp, cutoff)|) == SweepReport(files, tmp, live, cutoff)
  {
    hide OfKinds, Doomed, Spared, CountsOf, Swept;
    assert KINDS[..|KINDS|] == KINDS;
    AllKinds(files.Keys);
    AllKinds(Doomed(files, live, cutoff));
    EveryKind(live);
    EveryKind(Doomed(files, live, cutoff));
    EveryKind(Spared(files, live, cutoff));
  }

  method Sweep(store: ObjectStore, live: set<ObjId>, now: int, graceSeconds: int, dryRun: bool)
    returns (result: GcResult)
    modifies store
    ensures result == SweepReport(old(store.files), old(store.tmp), live, now - graceSeconds)
    ensures store.files == Swept(old(store.files), Doomed(old(store.files), live, now - graceSeconds), dryRun)
    ensures store.tmp == Swept(old(store.tmp), Stale(old(store.tmp), now - graceSeconds), dryRun)
  {
    hide Sweeping, OfKind, Doomed, Spared, Swept, SweepReport;
    var cutoff := now - graceSeconds;
    result := GcResult(map[], map[], map[], 0, 0, 0);
    SweepingStarts(store.files, live, cutoff, dryRun);
    for i := 0 to |KINDS|
      invariant store.tmp == old(store.tmp)
      invariant Sweeping(old(store.files), live, cutoff, dryRun, KINDS[..i], store.files, result)
      invariant result.tmpDeleted == 0
    {
      var k := KINDS[i];
      SweepingStep(old(store.files), live, cutoff, dryRun, i, store.files, result);
      var scanned, deleted, skipped := SweepKind(store, k, live, cutoff, dryRun);
      result := GcResult(result.liveCounts[k := |OfKind(k, live)|], result.deletedCounts[k := deleted],
        result.skippedCounts[k := skipped],
                         result.totalScanned + scanned, result.totalDeleted + deleted, 0);
    }
    SweepingEnds(old(store.files), old(store.tmp), live, cutoff, dryRun, store.files, result);
    var tmpDeleted := SweepTmp(store, cutoff, dryRun);
    result := result.(tmpDeleted := tmpDeleted);
  }

  lemma NoKinds(s: set<ObjId>)
    ensures OfKinds(KINDS[..0], s) == {} && CountsOf(KINDS[..0], s) == map[]
  {
  }

  lemma EveryKind(s: set<ObjId>)
    ensures CountsOf(KINDS, s) == Counts(s)
  {
  }

  function AfterGc(files: map<ObjId, int>, refs: seq<Commit>, index: map<string, Target>,
      cutoff: int): map<ObjId, int> {
    files - Doomed(files, Live(files.Keys, refs, index), cutoff)
  }

  method Gc(store: ObjectStore, refs: seq<Commit>, index: map<string, Target>, now: int, graceSeconds: int,
      dryRun: bool)
    returns (result: GcResult)
    modifies store
    ensures var files := old(store.files);
      && result == SweepReport(files, old(store.tmp), Live(files.Keys, refs, index), now - graceSeconds)
      && store.files == (if dryRun then files else AfterGc(files, refs, index, now - graceSeconds))
      && store.tmp == Swept(old(store.tmp), Stale(old(store.tmp), now - graceSeconds), dryRun)
  {
    var live := CollectLiveSet(store.Objs(), refs, index);
    result := Sweep(store, live, now, graceSeconds, dryRun);
  }

  // ----- Laws -----

  /** Precisely the unreachable objects older than the cutoff go. */
  lemma GcDeletesExactly(files: map<ObjId, int>, refs: seq<Commit>, index: map<string, Target>, cutoff: int, o: ObjId)
    requires o in files
    ensures var reachable := (exists c <- refs :: o in Reach(files.Keys, CommitId(c))) ||
      (exists p <- index :: o in Staged(files.Keys, index[p]));
      o in AfterGc(files, refs, index, cutoff) <==> reachable || files[o] >= cutoff
  {
    hide Reach;
  }

  /** Sweeping objects outside a closed set does not change what is reachable from it. */
  lemma ReachSurvives(before: set<ObjId>, after: set<ObjId>, o: ObjId)
    requires after <= before && before * Reach(before, o) <= after
    ensures Reach(after, o) == Reach(before, o)
    ensures Complete(before, o) ==> Complete(after, o)
  {
    assert before * Reach(before, o) == after * Reach(before, o);
    ReachFrame(before, after, o);
  }

  lemma RefSurvives(files: map<ObjId, int>, refs: seq<Commit>, index: map<string, Target>, cutoff: int, c: Commit)
    requires c in refs
    ensures var kept := AfterGc(files, refs, index, cutoff);
      && files.Keys * Reach(files.Keys, CommitId(c)) <= kept.Keys
      && Reach(kept.Keys, CommitId(c)) == Reach(files.Keys, CommitId(c))
      && (Complete(files.Keys, CommitId(c)) ==> Complete(kept.Keys, CommitId(c)))
  {
    hide Reach, Complete;
    assert CommitId(c) in Heads(refs);
    ReachSurvives(files.Keys, AfterGc(files, refs, index, cutoff).Keys, CommitId(c));
  }

  lemma StagedSurvives(files: map<ObjId, int>, refs: seq<Commit>, index: map<string, Target>, cutoff: int, p: string)
    requires p in index
    ensures var kept := AfterGc(files, refs, index, cutoff);
      && files.Keys * Staged(files.Keys, index[p]) <= kept.Keys
      && Staged(kept.Keys, index[p]) == Staged(files.Keys, index[p])
  {
    hide Reach;
    assert Staged(files.Keys, index[p]) <= IndexLive(files.Keys, index);
    if index[p].ManifestTarget? {
      assert files.Keys * Staged(files.Keys, index[p]) <= AfterGc(files, refs, index, cutoff).Keys;
      ReachSurvives(files.Keys, AfterGc(files, refs, index, cutoff).Keys, ManifestId(index[p].manifest));
    }
  }

  /** A staged blob survives, and so does a staged manifest with all of its rows that are present. */
  lemma StagedFileSurvives(files: map<ObjId, int>, refs: seq<Commit>, index: map<string, Target>, cutoff: int,
      p: string, o: ObjId)
    requires p in index && o in files
    requires match index[p]
      case ManifestTarget(m) =>
        o == ManifestId(m) || (ManifestId(m) in files && o.RowId? && exists e <- m.entries :: e.row == o.row)
      case BlobTarget(b) => o == BlobId(b)
      case TreeTarget(_) => false
    ensures o in AfterGc(files, refs, index, cutoff) && AfterGc(files, refs, index, cutoff)[o] == files[o]
  {
    assert o in Staged(files.Keys, index[p]);
    GcDeletesExactly(files, refs, index, cutoff, o);
  }

  /** What a collection leaves keeps its time, and a temporary file goes exactly when it is older than the cutoff. */
  lemma KeptAsItWas(files: map<ObjId, int>, tmp: map<string, int>, refs: seq<Commit>, index: map<string, Target>,
      cutoff: int)
    ensures forall o <- AfterGc(files, refs, index, cutoff) ::
      o in files && AfterGc(files, refs, index, cutoff)[o] == files[o]
    ensures forall f :: f in Swept(tmp, Stale(tmp, cutoff), false) <==> f in tmp && tmp[f] >= cutoff
    ensures Swept(tmp, Stale(tmp, cutoff), true) == tmp
  {
    hide Live;
  }

  /** The report, kind by kind and in total. */
  lemma ReportMeaning(files: map<ObjId, int>, tmp: map<string, int>, live: set<ObjId>, cutoff: int, k: Kind)
    ensures var r := SweepReport(files, tmp, live, cutoff);
      && k in r.liveCounts && k in r.deletedCounts && k in r.skippedCounts
      && r.liveCounts[k] == |set o <- live | KindOf(o) == k|
      && r.deletedCounts[k] == |set o <- files | KindOf(o) == k && o !in live && files[o] < cutoff|
      && r.skippedCounts[k] == |set o <- files | KindOf(o) == k && o !in live && files[o] >= cutoff|
      && r.totalScanned == |files| && r.totalDeleted == |set o <- files | o !in live && files[o] < cutoff|
      && r.tmpDeleted == |set f <- tmp | tmp[f] < cutoff|
  {
    var doomed, spared := Doomed(files, live, cutoff), Spared(files, live, cutoff);
    CountsAt(live);
    CountsAt(doomed);
    CountsAt(spared);
    hide Counts;
    assert OfKind(k, doomed) == set o <- files | KindOf(o) == k && o !in live && files[o] < cutoff;
    assert OfKind(k, spared) == set o <- files | KindOf(o) == k && o !in live && files[o] >= cutoff;
    assert OfKind(k, live) == set o <- live | KindOf(o) == k;
  }

  /** The marked set is the same after the sweep. */
  lemma LiveStable(files: map<ObjId, int>, refs: seq<Commit>, index: map<string, Target>, cutoff: int)
    ensures Live(AfterGc(files, refs, index, cutoff).Keys, refs, index) == Live(files.Keys, refs, index)
  {
    hide Reach, AfterGc, Staged;
    var kept := AfterGc(files, refs, index, cutoff);
    forall c | c in refs ensures Reach(kept.Keys, CommitId(c)) == Reach(files.Keys, CommitId(c)) {
      RefSurvives(files, refs, index, cutoff, c);
    }
    forall p | p in index ensures Staged(kept.Keys, index[p]) == Staged(files.Keys, index[p]) {
      StagedSurvives(files, refs, index, cutoff, p);
    }
    assert ReachAll(kept.Keys, Heads(refs)) == ReachAll(files.Keys, Heads(refs));
    assert IndexLive(kept.Keys, index) == IndexLive(files.Keys, index);
  }

  /** A second collection at the same cutoff deletes nothing. */
  lemma GcIdempotent(files: map<ObjId, int>, tmp: map<string, int>, refs: seq<Commit>, index: map<string, Target>,
      cutoff: int)
    ensures var kept := AfterGc(files, refs, index, cutoff);
      var again := SweepReport(kept, tmp - Stale(tmp, cutoff), Live(kept.Keys, refs, index), cutoff);
      && AfterGc(kept, refs, index, cutoff) == kept
      && again.totalDeleted == 0 && again.tmpDeleted == 0
      && again.liveCounts == Counts(Live(files.Keys, refs, index))
  {
    hide Live, Counts;
    LiveStable(files, refs, index, cutoff);
    var kept := AfterGc(files, refs, index, cutoff);
    assert Doomed(kept, Live(kept.Keys, refs, index), cutoff) == {};
    assert Stale(tmp - Stale(tmp, cutoff), cutoff) == {};
  }

  function Sum(m: map<Kind, nat>): nat
    requires m.Keys == set k <- KINDS
  {
    assert KINDS[0] == CommitKind && KINDS[1] == TreeKind && KINDS[2] == ManifestKind && KINDS[3] == RowKind &&
      KINDS[4] == SidecarKind && KINDS[5] == BlobKind;
    m[CommitKind] + m[TreeKind] + m[ManifestKind] + m[RowKind] + m[SidecarKind] + m[BlobKind]
  }

  lemma CountsAt(s: set<ObjId>)
    ensures Counts(s).Keys == set k <- KINDS
    ensures forall k: Kind :: k in Counts(s) && Counts(s)[k] == |OfKind(k, s)|
  {
    hide OfKind;
    forall k: Kind ensures k in KINDS {
      var i := match k
        case CommitKind => 0
        case TreeKind => 1
        case ManifestKind => 2
        case RowKind => 3
        case SidecarKind => 4
        case BlobKind => 5;
      assert KINDS[i] == k;
    }
  }

  lemma SumCounts(s: set<ObjId>)
    ensures Sum(Counts(s)) == |s|
  {
    hide OfKind, OfKinds, Counts;
    assert KINDS[..0] == [];
    NoKinds(s);
    var c := [] + [CommitKind];
    var t := c + [TreeKind];
    var m := t + [ManifestKind];
    var r := m + [RowKind];
    var d := r + [SidecarKind];
    assert d + [BlobKind] == KINDS;
    CountKind([], CommitKind, s);
    CountKind(c, TreeKind, s);
    CountKind(t, ManifestKind, s);
    CountKind(m, RowKind, s);
    CountKind(r, SidecarKind, s);
    CountKind(d, BlobKind, s);
    AllKinds(s);
    CountsAt(s);
  }

  /** Everything scanned is live, deleted or skipped, in total and summed over the kinds. */
  lemma SweepBalances(files: map<ObjId, int>, tmp: map<string, int>, live: set<ObjId>, cutoff: int)
    ensures var r := SweepReport(files, tmp, live, cutoff);
      && r.totalScanned == |files.Keys * live| + r.totalDeleted + Sum(r.skippedCounts)
      && r.totalDeleted == Sum(r.deletedCounts)
  {
    hide Counts;
    var doomed, spared := Doomed(files, live, cutoff), Spared(files, live, cutoff);
    SumCounts(doomed);
    SumCounts(spared);
    assert files.Keys == files.Keys * live + doomed + spared;
  }

  /**
   An object written while a collection's clock is past survives it exactly when it is marked, or was
   not in the store before: rewriting an old object leaves its modification time alone.
   */
  lemma FreshWriteSurvives(files: map<ObjId, int>, live: set<ObjId>, o: ObjId, now: int, cutoff: int)
    requires now >= cutoff
    ensures var written := Written(files, o, now);
      o in written - Doomed(written, live, cutoff) <==> o in live || o !in files || files[o] >= cutoff
  {
  }
}
