/**
 Row-level three-way merge of one file.

 `MergeManifests` is the indexed algorithm with its dictionaries and hash sets.  `MergeSpec` says
 what those tables compute on every input.  MergeLaws.dfy states the small per-key rule that the
 algorithm implements when each manifest names every key once, and the laws that follow from it.
 */
module Merge {
  import opened Objects

  datatype ConflictKind = BothModified | ModifyDelete | BothAdded

  datatype MergeConflict = MergeConflict(
    path: string,
    kind: ConflictKind,
    base: Option<seq<ManifestEntry>>,
    ours: Option<seq<ManifestEntry>>,
    theirs: Option<seq<ManifestEntry>>)

  type FpIndex = map<string, ManifestEntry>

  /** The dictionaries and hash sets that the merge builds before it walks our entries. */
  datatype Tables = Tables(
    baseRows: set<Row>,
    oursRows: set<Row>,
    theirsRows: set<Row>,
    oursRefreshed: FpIndex,
    theirsRefreshed: FpIndex,
    deleted: set<Row>)

  function Rows(m: seq<ManifestEntry>): set<Row> {
    set e <- m :: e.row
  }

  ghost predicate DistinctRows(s: seq<ManifestEntry>) {
    forall i, j | 0 <= i < j < |s| :: s[i].row != s[j].row
  }

  // ----- What the tables hold, for arbitrary manifests -----

  /** A dictionary filled in order: the last entry with a fingerprint wins. */
  function ByFp(m: seq<ManifestEntry>): (d: FpIndex)
    ensures forall q <- d :: d[q] in m && d[q].fp == Some(q) && q != ""
  {
    if m == [] then map[] else
      var d := ByFp(m[..|m| - 1]);
      var e := m[|m| - 1];
      if Truthy(e.fp) then d[e.fp.value := e] else d
  }

  /** The fingerprints whose base row is gone from a side that has another row for them. */
  function Refreshed(base: FpIndex, side: FpIndex, sideRows: set<Row>): FpIndex {
    map q | q in base && base[q].row !in sideRows && q in side :: side[q]
  }

  /** Both sides refreshed the row, differently. */
  predicate Disputed(ours: FpIndex, theirs: FpIndex, q: string) {
    q in ours && q in theirs && ours[q].row != theirs[q].row
  }

  function DisputedRows(ours: FpIndex, theirs: FpIndex, side: FpIndex): set<Row> {
    set q | q in side && Disputed(ours, theirs, q) :: side[q].row
  }

  /** The refreshes that are not in dispute, with the winning entry. */
  function Resolved(ours: FpIndex, theirs: FpIndex): FpIndex {
    map q | q in ours.Keys + theirs.Keys && !Disputed(ours, theirs, q) :: if q in ours then ours[q] else theirs[q]
  }

  function DisputeAt(path: string, base: FpIndex, ours: FpIndex, theirs: FpIndex, q: string): MergeConflict
    requires q in base && q in ours && q in theirs
  {
    MergeConflict(path, BothModified, Some([base[q]]), Some([ours[q]]), Some([theirs[q]]))
  }

  function Disputes(path: string, base: FpIndex, ours: FpIndex, theirs: FpIndex, qs: set<string>): set<MergeConflict> {
    set q | q in qs && q in base && Disputed(ours, theirs, q) :: DisputeAt(path, base, ours, theirs, q)
  }

  predicate Survives(rows: set<Row>, refreshed: FpIndex, e: ManifestEntry) {
    e.row in rows || (Truthy(e.fp) && e.fp.value in refreshed)
  }

  function DeletedRows(base: seq<ManifestEntry>, oursRows: set<Row>, theirsRows: set<Row>, ours: FpIndex,
      theirs: FpIndex): set<Row> {
    set e <- base | !Survives(oursRows, ours, e) || !Survives(theirsRows, theirs, e) :: e.row
  }

  function TablesOf(base: seq<ManifestEntry>, ours: seq<ManifestEntry>, theirs: seq<ManifestEntry>): Tables {
    var oR := Refreshed(ByFp(base), ByFp(ours), Rows(ours));
    var tR := Refreshed(ByFp(base), ByFp(theirs), Rows(theirs));
    Tables(Rows(base), Rows(ours), Rows(theirs), oR, tR, DeletedRows(base, Rows(ours), Rows(theirs), oR, tR))
  }

  /** What our entry `e` turns into: nothing or one entry. */
  function Slot(x: Tables, e: ManifestEntry): (s: seq<ManifestEntry>)
    ensures |s| <= 1
  {
    if e.row in DisputedRows(x.oursRefreshed, x.theirsRefreshed, x.oursRefreshed) then []
    else if Truthy(e.fp) && e.fp.value in Resolved(x.oursRefreshed, x.theirsRefreshed) then
      [Resolved(x.oursRefreshed, x.theirsRefreshed)[e.fp.value]]
    else if e.row in x.baseRows && e.row !in x.theirsRows && !(Truthy(e.fp) && e.fp.value in x.theirsRefreshed) then []
    else if e.row in x.deleted then []
    else [e]
  }

  function Slots(x: Tables, s: seq<ManifestEntry>): seq<ManifestEntry> {
    if s == [] then [] else Slots(x, s[..|s| - 1]) + Slot(x, s[|s| - 1])
  }

  /** `e` is a row that only theirs brought in. */
  predicate TheirsNew(x: Tables, e: ManifestEntry) {
    && e.row !in x.baseRows
    && e.row !in x.oursRows + DisputedRows(x.oursRefreshed, x.theirsRefreshed, x.oursRefreshed)
    && e.row !in DisputedRows(x.oursRefreshed, x.theirsRefreshed, x.theirsRefreshed)
    && e.row !in set q <- x.theirsRefreshed :: x.theirsRefreshed[q].row
  }

  function Additions(x: Tables, s: seq<ManifestEntry>): seq<ManifestEntry> {
    if s == [] then [] else
      var e := s[|s| - 1];
      Additions(x, s[..|s| - 1]) + if TheirsNew(x, e) then [e] else []
  }

  /** Keep the first entry for each row. */
  function Dedup(s: seq<ManifestEntry>): (d: seq<ManifestEntry>)
    ensures forall i, j | 0 <= i < j < |d| :: d[i].row != d[j].row
    ensures forall e <- d :: e in s
  {
    if s == [] then [] else
      var d, e := Dedup(s[..|s| - 1]), s[|s| - 1];
      if e.row in Rows(d) then d else d + [e]
  }

  function MergeSpec(base: seq<ManifestEntry>, ours: seq<ManifestEntry>,
      theirs: seq<ManifestEntry>): seq<ManifestEntry> {
    var x := TablesOf(base, ours, theirs);
    Dedup(Slots(x, ours) + Additions(x, theirs))
  }

  /** The conflicts, as a set: the code visits the disputed fingerprints in no particular order. */
  function ConflictSpec(base: seq<ManifestEntry>, ours: seq<ManifestEntry>, theirs: seq<ManifestEntry>,
      path: string): set<MergeConflict> {
    var x := TablesOf(base, ours, theirs);
    Disputes(path, ByFp(base), x.oursRefreshed, x.theirsRefreshed, x.oursRefreshed.Keys)
  }

  // ----- The algorithm, phase by phase -----

  method IndexByFp(m: seq<ManifestEntry>) returns (d: FpIndex)
    ensures d == ByFp(m)
  {
    d := map[];
    for i := 0 to |m|
      invariant d == ByFp(m[..i])
    {
      assert m[..i + 1][..i] == m[..i];
      if Truthy(m[i].fp) {
        d := d[m[i].fp.value := m[i]];
      }
    }
    assert m[..|m|] == m;
  }

  method DetectRefreshes(base: FpIndex, ours: FpIndex, theirs: FpIndex, oursRows: set<Row>, theirsRows: set<Row>)
    returns (oursRefreshed: FpIndex, theirsRefreshed: FpIndex)
    ensures oursRefreshed == Refreshed(base, ours, oursRows)
    ensures theirsRefreshed == Refreshed(base, theirs, theirsRows)
  {
    oursRefreshed, theirsRefreshed := map[], map[];
    var todo := base.Keys;
    while todo != {}
      invariant todo <= base.Keys
      invariant oursRefreshed == map q | q in Refreshed(base, ours, oursRows) && q !in todo :: ours[q]
      invariant theirsRefreshed == map q | q in Refreshed(base, theirs, theirsRows) && q !in todo :: theirs[q]
    {
      var q :| q in todo;
      todo := todo - {q};
      if base[q].row !in oursRows && q in ours {
        oursRefreshed := oursRefreshed[q := ours[q]];
      }
      if base[q].row !in theirsRows && q in theirs {
        theirsRefreshed := theirsRefreshed[q := theirs[q]];
      }
    }
  }

  /** What the resolution of refreshes accumulates. */
  datatype Resolution = Resolution(
    conflicts: seq<MergeConflict>,
    disputedOurs: set<Row>,
    disputedTheirs: set<Row>,
    resolved: FpIndex)

  function Part(m: FpIndex, qs: set<string>): FpIndex {
    map q | q in m && q in qs :: m[q]
  }

  /** Where the resolution stands once the fingerprints `done` have been visited. */
  ghost predicate Visited(path: string, base: FpIndex, ours: FpIndex, theirs: FpIndex, done: set<string>,
      r: Resolution) {
    && multiset(r.conflicts) == multiset(Disputes(path, base, ours, theirs, done))
    && r.disputedOurs == DisputedRows(ours, theirs, Part(ours, done))
    && r.disputedTheirs == DisputedRows(ours, theirs, Part(theirs, done))
    && r.resolved == Part(Resolved(ours, theirs), done)
  }

  method VisitDisputed(path: string, base: FpIndex, ours: FpIndex, theirs: FpIndex, q: string, r: Resolution,
      ghost done: set<string>)
    returns (r': Resolution)
    requires forall q <- base :: base[q].fp == Some(q)
    requires q in base && q !in done && Disputed(ours, theirs, q)
    requires Visited(path, base, ours, theirs, done, r)
    ensures Visited(path, base, ours, theirs, done + {q}, r')
  {
    DisputesGrow(path, base, ours, theirs, done, q);
    DisputedRowsGrow(ours, theirs, done, q);
    hide Disputes, DisputeAt, DisputedRows, Part, Resolved;
    r' := Resolution(r.conflicts + [DisputeAt(path, base, ours, theirs, q)],
                     r.disputedOurs + {ours[q].row}, r.disputedTheirs + {theirs[q].row}, r.resolved);
  }

  lemma DisputedRowsGrow(ours: FpIndex, theirs: FpIndex, done: set<string>, q: string)
    requires Disputed(ours, theirs, q)
    ensures DisputedRows(ours, theirs, Part(ours, done + {q})) ==
      DisputedRows(ours, theirs, Part(ours, done)) + {ours[q].row}
    ensures DisputedRows(ours, theirs, Part(theirs, done + {q})) ==
      DisputedRows(ours, theirs, Part(theirs, done)) + {theirs[q].row}
    ensures Part(Resolved(ours, theirs), done + {q}) == Part(Resolved(ours, theirs), done)
  {
    PartGrows(ours, done, q);
    PartGrows(theirs, done, q);
  }

  lemma PartGrows(d: FpIndex, done: set<string>, q: string)
    requires q in d
    ensures Part(d, done + {q}) == Part(d, done)[q := d[q]]
  {
  }

  /** Different fingerprints give different conflicts. */
  lemma DisputesGrow(path: string, base: FpIndex, ours: FpIndex, theirs: FpIndex, done: set<string>, q: string)
    requires forall q <- base :: base[q].fp == Some(q)
    requires q in base && q !in done && Disputed(ours, theirs, q)
    ensures var c := DisputeAt(path, base, ours, theirs, q);
            && c !in Disputes(path, base, ours, theirs, done)
            && Disputes(path, base, ours, theirs, done + {q}) == Disputes(path, base, ours, theirs, done) + {c}
  {
    forall p | p in done && p in base && Disputed(ours, theirs, p)
      ensures DisputeAt(path, base, ours, theirs, p) != DisputeAt(path, base, ours, theirs, q)
    {
      assert [base[p]][0] != [base[q]][0];
    }
  }

  method VisitAgreed(path: string, base: FpIndex, ours: FpIndex, theirs: FpIndex, q: string, r: Resolution,
      ghost done: set<string>)
    returns (r': Resolution)
    requires q in Resolved(ours, theirs)
    requires Visited(path, base, ours, theirs, done, r)
    ensures Visited(path, base, ours, theirs, done + {q}, r')
  {
    assert Disputes(path, base, ours, theirs, done + {q}) == Disputes(path, base, ours, theirs, done);
    r' := r.(resolved := r.resolved[q := if q in ours then ours[q] else theirs[q]]);
  }

  method ResolveRefreshes(path: string, base: FpIndex, ours: FpIndex, theirs: FpIndex) returns (r: Resolution)
    requires ours.Keys + theirs.Keys <= base.Keys
    requires forall q <- base :: base[q].fp == Some(q)
    ensures multiset(r.conflicts) == multiset(Disputes(path, base, ours, theirs, ours.Keys))
    ensures r.disputedOurs == DisputedRows(ours, theirs, ours)
    ensures r.disputedTheirs == DisputedRows(ours, theirs, theirs)
    ensures r.resolved == Resolved(ours, theirs)
  {
    hide Visited, Disputes, DisputedRows;
    r := Resolution([], {}, {}, map[]);
    var todo := ours.Keys + theirs.Keys;
    ghost var done := {};
    NoneVisited(path, base, ours, theirs, r);
    while todo != {}
      invariant todo + done == ours.Keys + theirs.Keys && todo !! done
      invariant Visited(path, base, ours, theirs, done, r)
      decreases todo
    {
      var q :| q in todo;
      todo := todo - {q};
      if q in ours && q in theirs && ours[q].row != theirs[q].row {
        r := VisitDisputed(path, base, ours, theirs, q, r, done);
      } else {
        r := VisitAgreed(path, base, ours, theirs, q, r, done);
      }
      done := done + {q};
    }
    AllVisited(path, base, ours, theirs, r);
  }

  lemma NoneVisited(path: string, base: FpIndex, ours: FpIndex, theirs: FpIndex, r: Resolution)
    requires r == Resolution([], {}, {}, map[])
    ensures Visited(path, base, ours, theirs, {}, r)
  {
    assert Disputes(path, base, ours, theirs, {}) == {};
  }

  lemma AllVisited(path: string, base: FpIndex, ours: FpIndex, theirs: FpIndex, r: Resolution)
    requires Visited(path, base, ours, theirs, ours.Keys + theirs.Keys, r)
    ensures multiset(r.conflicts) == multiset(Disputes(path, base, ours, theirs, ours.Keys))
    ensures r.disputedOurs == DisputedRows(ours, theirs, ours)
    ensures r.disputedTheirs == DisputedRows(ours, theirs, theirs)
    ensures r.resolved == Resolved(ours, theirs)
  {
    var all := ours.Keys + theirs.Keys;
    assert Disputes(path, base, ours, theirs, all) == Disputes(path, base, ours, theirs, ours.Keys);
    assert Part(ours, all) == ours && Part(theirs, all) == theirs;
    assert Part(Resolved(ours, theirs), all) == Resolved(ours, theirs);
  }

  method DeletedBaseRows(base: seq<ManifestEntry>, oursRows: set<Row>, theirsRows: set<Row>, ours: FpIndex,
      theirs: FpIndex)
    returns (deleted: set<Row>)
    ensures deleted == DeletedRows(base, oursRows, theirsRows, ours, theirs)
  {
    deleted := {};
    for i := 0 to |base|
      invariant deleted == DeletedRows(base[..i], oursRows, theirsRows, ours, theirs)
    {
      var e := base[i];
      assert base[..i + 1] == base[..i] + [e];
      var inOurs := e.row in oursRows || (Truthy(e.fp) && e.fp.value in ours);
      var inTheirs := e.row in theirsRows || (Truthy(e.fp) && e.fp.value in theirs);
      if !inOurs || !inTheirs {
        deleted := deleted + {e.row};
      }
    }
    assert base[..|base|] == base;
  }

  method CollectTheirsNew(x: Tables, theirs: seq<ManifestEntry>, disputedOurs: set<Row>, disputedTheirs: set<Row>)
    returns (news: seq<ManifestEntry>)
    requires disputedOurs == DisputedRows(x.oursRefreshed, x.theirsRefreshed, x.oursRefreshed)
    requires disputedTheirs == DisputedRows(x.oursRefreshed, x.theirsRefreshed, x.theirsRefreshed)
    ensures news == Additions(x, theirs)
  {
    news := [];
    var oursAll := x.oursRows + disputedOurs;
    var theirsRefreshedRows := set q <- x.theirsRefreshed :: x.theirsRefreshed[q].row;
    for i := 0 to |theirs|
      invariant news == Additions(x, theirs[..i])
    {
      var e := theirs[i];
      assert theirs[..i + 1][..i] == theirs[..i];
      if e.row !in x.baseRows && e.row !in oursAll && e.row !in disputedTheirs && e.row !in theirsRefreshedRows {
        news := news + [e];
      }
    }
    assert theirs[..|theirs|] == theirs;
  }

  /** The guarded append that both output loops share; `s` is the sequence being deduplicated. */
  method AppendUnseen(merged: seq<ManifestEntry>, seen: set<Row>, e: ManifestEntry, ghost s: seq<ManifestEntry>)
    returns (merged': seq<ManifestEntry>, seen': set<Row>)
    requires merged == Dedup(s) && seen == Rows(merged)
    ensures merged' == Dedup(s + [e]) && seen' == Rows(merged')
  {
    merged', seen' := merged, seen;
    assert (s + [e])[..|s|] == s;
    if e.row !in seen {
      merged' := merged + [e];
      seen' := seen + {e.row};
    }
  }

  /** Our entries as the skeleton, each slot kept, replaced or dropped. */
  method FillSkeleton(x: Tables, ours: seq<ManifestEntry>, disputedOurs: set<Row>, resolved: FpIndex)
    returns (merged: seq<ManifestEntry>, seen: set<Row>)
    requires disputedOurs == DisputedRows(x.oursRefreshed, x.theirsRefreshed, x.oursRefreshed)
    requires resolved == Resolved(x.oursRefreshed, x.theirsRefreshed)
    ensures merged == Dedup(Slots(x, ours)) && seen == Rows(merged)
  {
    merged, seen := [], {};
    for i := 0 to |ours|
      invariant merged == Dedup(Slots(x, ours[..i]))
      invariant seen == Rows(merged)
    {
      var e := ours[i];
      assert ours[..i + 1][..i] == ours[..i];
      ghost var before := Slots(x, ours[..i]);
      assert Slots(x, ours[..i + 1]) == before + Slot(x, e);
      assert before + [] == before;
      if e.row in disputedOurs {
        continue;
      }
      if Truthy(e.fp) && e.fp.value in resolved {
        merged, seen := AppendUnseen(merged, seen, resolved[e.fp.value], before);
        continue;
      }
      if e.row in x.baseRows && e.row !in x.theirsRows {
        if !(Truthy(e.fp) && e.fp.value in x.theirsRefreshed) {
          continue;
        }
      }
      if e.row in x.deleted {
        continue;
      }
      merged, seen := AppendUnseen(merged, seen, e, before);
    }
    assert ours[..|ours|] == ours;
  }

  method MergeManifests(base: seq<ManifestEntry>, ours: seq<ManifestEntry>, theirs: seq<ManifestEntry>, path: string)
    returns (merged: seq<ManifestEntry>, conflicts: seq<MergeConflict>)
    ensures merged == MergeSpec(base, ours, theirs)
    ensures multiset(conflicts) == multiset(ConflictSpec(base, ours, theirs, path))
  {
    hide Dedup, Slots, Slot, Additions, Disputes, DisputedRows, Resolved, DeletedRows;
    var oursRows, theirsRows := Rows(ours), Rows(theirs);
    var baseByFp := IndexByFp(base);
    var oursByFp := IndexByFp(ours);
    var theirsByFp := IndexByFp(theirs);
    var oursRefreshed, theirsRefreshed := DetectRefreshes(baseByFp, oursByFp, theirsByFp, oursRows, theirsRows);
    var r := ResolveRefreshes(path, baseByFp, oursRefreshed, theirsRefreshed);
    conflicts := r.conflicts;
    var deleted := DeletedBaseRows(base, oursRows, theirsRows, oursRefreshed, theirsRefreshed);
    var x := Tables(Rows(base), oursRows, theirsRows, oursRefreshed, theirsRefreshed, deleted);
    var news := CollectTheirsNew(x, theirs, r.disputedOurs, r.disputedTheirs);
    var seen;
    merged, seen := FillSkeleton(x, ours, r.disputedOurs, r.resolved);

    ghost var slots := Slots(x, ours);
    assert slots + news[..0] == slots;
    for i := 0 to |news|
      invariant merged == Dedup(slots + news[..i])
      invariant seen == Rows(merged)
    {
      var e := news[i];
      assert slots + news[..i + 1] == (slots + news[..i]) + [e];
      merged, seen := AppendUnseen(merged, seen, e, slots + news[..i]);
    }
    assert news[..|news|] == news;
  }
}
