/**
 The per-key rule behind the row merge, and what follows from it.

 A row is identified across versions by its key: its fingerprint when it has one, itself otherwise.
 On manifests that name each key once, the indexed algorithm of Merge.dfy is this rule.
 */
module MergeLaws {
  import opened Objects
  import opened Merge

  datatype Key = FpKey(fp: string) | RowKey(row: Row)

  function KeyOf(e: ManifestEntry): Key {
    if Truthy(e.fp) then FpKey(e.fp.value) else RowKey(e.row)
  }

  /** Entries carry the fingerprint of their row, and no key occurs twice. */
  ghost predicate Keyed(m: seq<ManifestEntry>) {
    Honest(m) && forall i, j | 0 <= i < j < |m| :: KeyOf(m[i]) != KeyOf(m[j])
  }

  /** The entry of `m` with key `k`. */
  function Find(m: seq<ManifestEntry>, k: Key): (r: Option<ManifestEntry>)
    ensures r.Some? ==> r.value in m && KeyOf(r.value) == k
    ensures r.None? ==> forall e <- m :: KeyOf(e) != k
  {
    if m == [] then None
    else if KeyOf(m[|m| - 1]) == k then Some(m[|m| - 1])
    else Find(m[..|m| - 1], k)
  }

  datatype Verdict = Keep(entries: seq<ManifestEntry>) | Clash

  predicate Kept(v: Verdict, e: ManifestEntry) {
    v.Keep? && e in v.entries
  }

  function AsSeq(e: Option<ManifestEntry>): seq<ManifestEntry> {
    if e.Some? then [e.value] else []
  }

  /** Three-way merge of one key, from what base, ours and theirs hold under it. */
  function Rule(base: Option<ManifestEntry>, ours: Option<ManifestEntry>, theirs: Option<ManifestEntry>): Verdict {
    if base.None? then
      // New rows all stay; the same row added twice is added once.
      Keep(if ours == theirs then AsSeq(ours) else AsSeq(ours) + AsSeq(theirs))
    else if ours == base then Keep(AsSeq(theirs))   // the unchanged side yields
    else if theirs == base then Keep(AsSeq(ours))
    else if ours == theirs then Keep(AsSeq(ours))   // same change on both sides
    else if ours.Some? && theirs.Some? then Clash   // refreshed differently
    else Keep(AsSeq(ours))                          // refresh against delete: ours decides
  }

  function RuleAt(base: seq<ManifestEntry>, ours: seq<ManifestEntry>, theirs: seq<ManifestEntry>, k: Key): Verdict {
    Rule(Find(base, k), Find(ours, k), Find(theirs, k))
  }

  /** What becomes of our entry: the first entry its key keeps, in the same place. */
  function RuleSlot(base: seq<ManifestEntry>, ours: seq<ManifestEntry>, theirs: seq<ManifestEntry>,
      e: ManifestEntry): seq<ManifestEntry> {
    var v := RuleAt(base, ours, theirs, KeyOf(e));
    if v.Keep? && v.entries != [] then [v.entries[0]] else []
  }

  /** Rows under a key that base does not have, unless ours has the same row. */
  predicate RuleNew(base: seq<ManifestEntry>, ours: seq<ManifestEntry>, e: ManifestEntry) {
    Find(base, KeyOf(e)).None? && Find(ours, KeyOf(e)) != Some(e)
  }

  function RuleSlots(base: seq<ManifestEntry>, ours: seq<ManifestEntry>, theirs: seq<ManifestEntry>,
      s: seq<ManifestEntry>): seq<ManifestEntry> {
    if s == [] then [] else
      RuleSlots(base, ours, theirs, s[..|s| - 1]) + RuleSlot(base, ours, theirs, s[|s| - 1])
  }

  function RuleAdditions(base: seq<ManifestEntry>, ours: seq<ManifestEntry>,
      s: seq<ManifestEntry>): seq<ManifestEntry> {
    if s == [] then [] else
      RuleAdditions(base, ours, s[..|s| - 1]) + if RuleNew(base, ours, s[|s| - 1]) then [s[|s| - 1]] else []
  }

  /** Our order with slots replaced in place, then what only theirs added, in their order. */
  function RuleMerge(base: seq<ManifestEntry>, ours: seq<ManifestEntry>,
      theirs: seq<ManifestEntry>): seq<ManifestEntry> {
    RuleSlots(base, ours, theirs, ours) + RuleAdditions(base, ours, theirs)
  }

  // ----- Lookups -----

  lemma FindUnique(m: seq<ManifestEntry>, e: ManifestEntry)
    requires Keyed(m)
    ensures e in m <==> Find(m, KeyOf(e)) == Some(e)
  {
  }

  lemma ByFpIsFind(m: seq<ManifestEntry>, q: string)
    requires q != ""
    ensures q in ByFp(m) <==> Find(m, FpKey(q)).Some?
    ensures q in ByFp(m) ==> Some(ByFp(m)[q]) == Find(m, FpKey(q))
  {
  }

  /** The index has the last entry of every true fingerprint. */
  lemma {:induction false} ByFpMeaning(m: seq<ManifestEntry>, q: string)
    ensures q in ByFp(m) <==> q != "" && exists e <- m :: e.fp == Some(q)
    ensures q in ByFp(m) ==>
      exists i | 0 <= i < |m| ::
        m[i] == ByFp(m)[q] && m[i].fp == Some(q) && forall j | i < j < |m| :: m[j].fp != Some(q)
  {
    if m != [] {
      var init, last := m[..|m| - 1], m[|m| - 1];
      ByFpMeaning(init, q);
      assert m == init + [last];
      if q in ByFp(m) {
        if last.fp == Some(q) {
          assert m[|m| - 1] == ByFp(m)[q];
        } else {
          var i :| 0 <= i < |init| && init[i] == ByFp(init)[q] && forall j | i < j < |init| :: init[j].fp != Some(q);
          assert m[i] == ByFp(m)[q] && forall j | i < j < |m| :: j == |m| - 1 || m[j] == init[j];
        }
      }
    }
  }

  /** An honest row is an entry. */
  lemma RowsAreEntries(m: seq<ManifestEntry>, e: ManifestEntry)
    requires Honest(m) && e.fp == e.row.fingerprint
    ensures e.row in Rows(m) <==> e in m
  {
    if e.row in Rows(m) {
      var f :| f in m && f.row == e.row;
      assert f == e;
    }
  }

  ghost predicate AllKeyed(base: seq<ManifestEntry>, ours: seq<ManifestEntry>, theirs: seq<ManifestEntry>) {
    Keyed(base) && Keyed(ours) && Keyed(theirs)
  }

  /** The three tables of refreshes, read through `Find`. */
  lemma RefreshedMeaning(base: seq<ManifestEntry>, side: seq<ManifestEntry>, q: string)
    requires Keyed(base) && Keyed(side)
    ensures var r := Refreshed(ByFp(base), ByFp(side), Rows(side));
      && (q in r <==> q != "" && Find(base, FpKey(q)).Some? && Find(side, FpKey(q)).Some?
                      && Find(side, FpKey(q)) != Find(base, FpKey(q)))
      && (q in r ==> Some(r[q]) == Find(side, FpKey(q)))
  {
    if q != "" {
      ByFpIsFind(base, q);
      ByFpIsFind(side, q);
      var b := Find(base, FpKey(q));
      if b.Some? {
        RowsAreEntries(side, b.value);
        FindUnique(side, b.value);
      }
    }
  }

  // ----- The algorithm is the rule -----

  lemma {:induction false} SlotIsRule(base: seq<ManifestEntry>, ours: seq<ManifestEntry>,
      theirs: seq<ManifestEntry>, e: ManifestEntry)
    requires AllKeyed(base, ours, theirs) && e in ours
    ensures Slot(TablesOf(base, ours, theirs), e) == RuleSlot(base, ours, theirs, e)
  {
    var x := TablesOf(base, ours, theirs);
    var k := KeyOf(e);
    FindUnique(ours, e);
    RowsAreEntries(base, e); FindUnique(base, e);
    RowsAreEntries(theirs, e); FindUnique(theirs, e);
    DisputedRowsMeaning(base, ours, theirs, ours, e);
    DeletedMeaning(base, ours, theirs, e);
    if k.FpKey? {
      RefreshedMeaning(base, ours, k.fp);
      RefreshedMeaning(base, theirs, k.fp);
    }
  }

  /** A key without a fingerprint names one row only, so it cannot clash. */
  lemma OnlyFpKeysClash(base: seq<ManifestEntry>, ours: seq<ManifestEntry>, theirs: seq<ManifestEntry>, k: Key)
    requires AllKeyed(base, ours, theirs) && RuleAt(base, ours, theirs, k).Clash?
    ensures k.FpKey? && k.fp != ""
  {
    var b, o := Find(base, k).value, Find(ours, k).value;
    assert b.fp == b.row.fingerprint && o.fp == o.row.fingerprint;
  }

  lemma DisputedIsClash(base: seq<ManifestEntry>, ours: seq<ManifestEntry>, theirs: seq<ManifestEntry>, q: string)
    requires AllKeyed(base, ours, theirs)
    ensures var x := TablesOf(base, ours, theirs);
      Disputed(x.oursRefreshed, x.theirsRefreshed, q) <==> RuleAt(base, ours, theirs, FpKey(q)).Clash?
  {
    hide Find, Refreshed, ByFp;
    RefreshedMeaning(base, ours, q);
    RefreshedMeaning(base, theirs, q);
    if RuleAt(base, ours, theirs, FpKey(q)).Clash? {
      OnlyFpKeysClash(base, ours, theirs, FpKey(q));
      assert Find(ours, FpKey(q)).value.fp == Find(ours, FpKey(q)).value.row.fingerprint;
      assert Find(theirs, FpKey(q)).value.fp == Find(theirs, FpKey(q)).value.row.fingerprint;
    }
  }

  lemma DisputedRowsMeaning(base: seq<ManifestEntry>, ours: seq<ManifestEntry>, theirs: seq<ManifestEntry>,
      side: seq<ManifestEntry>, e: ManifestEntry)
    requires AllKeyed(base, ours, theirs) && e.fp == e.row.fingerprint && (side == ours || side == theirs)
    ensures var x := TablesOf(base, ours, theirs);
      e.row in DisputedRows(x.oursRefreshed, x.theirsRefreshed, Refreshed(ByFp(base), ByFp(side), Rows(side))) <==>
      e in side && RuleAt(base, ours, theirs, KeyOf(e)).Clash?
  {
    var x := TablesOf(base, ours, theirs);
    var r := Refreshed(ByFp(base), ByFp(side), Rows(side));
    FindUnique(side, e);
    forall q | q in r && r[q].row == e.row
      ensures r[q] == e && KeyOf(e) == FpKey(q)
    {
      RefreshedMeaning(base, side, q);
    }
    if KeyOf(e).FpKey? {
      DisputedIsClash(base, ours, theirs, KeyOf(e).fp);
      RefreshedMeaning(base, side, KeyOf(e).fp);
    } else if RuleAt(base, ours, theirs, KeyOf(e)).Clash? {
      OnlyFpKeysClash(base, ours, theirs, KeyOf(e));
    }
  }

  lemma DeletedMeaning(base: seq<ManifestEntry>, ours: seq<ManifestEntry>, theirs: seq<ManifestEntry>, e: ManifestEntry)
    requires AllKeyed(base, ours, theirs) && e.fp == e.row.fingerprint
    ensures e.row in TablesOf(base, ours, theirs).deleted <==>
            e in base && (Find(ours, KeyOf(e)).None? || Find(theirs, KeyOf(e)).None?)
  {
    var x := TablesOf(base, ours, theirs);
    assert forall f | f in base && f.row == e.row :: f == e;
    if e in base {
      SurvivesMeaning(base, ours, e);
      SurvivesMeaning(base, theirs, e);
    }
  }

  lemma SurvivesMeaning(base: seq<ManifestEntry>, side: seq<ManifestEntry>, e: ManifestEntry)
    requires Keyed(base) && Keyed(side) && e in base
    ensures Survives(Rows(side), Refreshed(ByFp(base), ByFp(side), Rows(side)), e) <==> Find(side, KeyOf(e)).Some?
  {
    FindUnique(base, e);
    FindUnique(side, e);
    RowsAreEntries(side, e);
    if Truthy(e.fp) {
      RefreshedMeaning(base, side, e.fp.value);
    }
  }

  lemma {:induction false} NewIsRule(base: seq<ManifestEntry>, ours: seq<ManifestEntry>, theirs: seq<ManifestEntry>,
      e: ManifestEntry)
    requires AllKeyed(base, ours, theirs) && e in theirs
    ensures TheirsNew(TablesOf(base, ours, theirs), e) <==> RuleNew(base, ours, e)
  {
    var x := TablesOf(base, ours, theirs);
    FindUnique(theirs, e);
    RowsAreEntries(base, e); FindUnique(base, e);
    RowsAreEntries(ours, e); FindUnique(ours, e);
    DisputedRowsMeaning(base, ours, theirs, ours, e);
    DisputedRowsMeaning(base, ours, theirs, theirs, e);
    forall q | q in x.theirsRefreshed
      ensures x.theirsRefreshed[q].row == e.row ==> x.theirsRefreshed[q] == e && KeyOf(e) == FpKey(q)
    {
      RefreshedMeaning(base, theirs, q);
    }
    if KeyOf(e).FpKey? {
      RefreshedMeaning(base, theirs, KeyOf(e).fp);
    } else if Find(base, KeyOf(e)).Some? {
      assert Find(base, KeyOf(e)).value == e;
    }
  }

  lemma {:induction false} SlotsAreRule(base: seq<ManifestEntry>, ours: seq<ManifestEntry>,
      theirs: seq<ManifestEntry>, n: nat)
    requires AllKeyed(base, ours, theirs) && n <= |ours|
    ensures Slots(TablesOf(base, ours, theirs), ours[..n]) == RuleSlots(base, ours, theirs, ours[..n])
  {
    if n > 0 {
      SlotsAreRule(base, ours, theirs, n - 1);
      SlotIsRule(base, ours, theirs, ours[n - 1]);
      assert ours[..n][..n - 1] == ours[..n - 1];
    }
  }

  lemma {:induction false} AdditionsAreRule(base: seq<ManifestEntry>, ours: seq<ManifestEntry>,
      theirs: seq<ManifestEntry>, n: nat)
    requires AllKeyed(base, ours, theirs) && n <= |theirs|
    ensures Additions(TablesOf(base, ours, theirs), theirs[..n]) == RuleAdditions(base, ours, theirs[..n])
  {
    if n > 0 {
      AdditionsAreRule(base, ours, theirs, n - 1);
      NewIsRule(base, ours, theirs, theirs[n - 1]);
      assert theirs[..n][..n - 1] == theirs[..n - 1];
    }
  }

  lemma {:induction false} DedupDistinct(s: seq<ManifestEntry>)
    requires DistinctRows(s)
    ensures Dedup(s) == s
  {
    if s != [] {
      DedupDistinct(s[..|s| - 1]);
      assert s == s[..|s| - 1] + [s[|s| - 1]];
    }
  }

  /** The entry a key keeps carries that key and is one of ours or theirs. */
  lemma RuleKeepsKey(base: seq<ManifestEntry>, ours: seq<ManifestEntry>, theirs: seq<ManifestEntry>, k: Key)
    requires AllKeyed(base, ours, theirs)
    ensures var v := RuleAt(base, ours, theirs, k);
      v.Keep? ==> forall f <- v.entries :: KeyOf(f) == k && f.fp == f.row.fingerprint && (f in ours || f in theirs)
  {
  }

  /** Our slot holds at most one entry, under the key it had. */
  lemma SlotKeepsKey(base: seq<ManifestEntry>, ours: seq<ManifestEntry>, theirs: seq<ManifestEntry>, e: ManifestEntry)
    requires AllKeyed(base, ours, theirs)
    ensures |RuleSlot(base, ours, theirs, e)| <= 1
    ensures forall f <- RuleSlot(base, ours, theirs, e) :: f.fp == f.row.fingerprint && KeyOf(f) == KeyOf(e)
  {
    RuleKeepsKey(base, ours, theirs, KeyOf(e));
  }

  lemma {:induction false} SlotsDistinct(base: seq<ManifestEntry>, ours: seq<ManifestEntry>,
      theirs: seq<ManifestEntry>, n: nat)
    requires AllKeyed(base, ours, theirs) && n <= |ours|
    ensures DistinctRows(RuleSlots(base, ours, theirs, ours[..n]))
    ensures forall f <- RuleSlots(base, ours, theirs, ours[..n]) ::
      f.fp == f.row.fingerprint && exists i | 0 <= i < n ::
        KeyOf(f) == KeyOf(ours[i]) && f in RuleSlot(base, ours, theirs, ours[i])
  {
    hide RuleSlot;
    if n > 0 {
      SlotsDistinct(base, ours, theirs, n - 1);
      assert ours[..n][..n - 1] == ours[..n - 1] && ours[..n][n - 1] == ours[n - 1];
      SlotKeepsKey(base, ours, theirs, ours[n - 1]);
    }
  }

  lemma {:induction false} AdditionsDistinct(base: seq<ManifestEntry>, ours: seq<ManifestEntry>,
      theirs: seq<ManifestEntry>, n: nat)
    requires AllKeyed(base, ours, theirs) && n <= |theirs|
    ensures DistinctRows(RuleAdditions(base, ours, theirs[..n]))
    ensures forall f :: f in RuleAdditions(base, ours, theirs[..n]) <==> f in theirs[..n] && RuleNew(base, ours, f)
  {
    if n > 0 {
      AdditionsDistinct(base, ours, theirs, n - 1);
      assert theirs[..n] == theirs[..n - 1] + [theirs[n - 1]];
      forall f | f in theirs[..n - 1] ensures f.row != theirs[n - 1].row {
        assert f.fp == f.row.fingerprint;
      }
    }
  }

  lemma RuleMergeDistinct(base: seq<ManifestEntry>, ours: seq<ManifestEntry>, theirs: seq<ManifestEntry>)
    requires AllKeyed(base, ours, theirs)
    ensures DistinctRows(RuleMerge(base, ours, theirs))
  {
    assert ours[..|ours|] == ours && theirs[..|theirs|] == theirs;
    SlotsDistinct(base, ours, theirs, |ours|);
    AdditionsDistinct(base, ours, theirs, |theirs|);
    var a, b := RuleSlots(base, ours, theirs, ours), RuleAdditions(base, ours, theirs);
    hide RuleSlots, RuleAdditions, Find;
    forall f, g | f in a && g in b ensures f.row != g.row {
      if f.row == g.row {
        var i :| 0 <= i < |ours| && KeyOf(f) == KeyOf(ours[i]) && f in RuleSlot(base, ours, theirs, ours[i]);
        AdditionIsNew(base, ours, theirs, f, g, ours[i]);
      }
    }
  }

  /** An addition does not repeat what a slot of ours holds. */
  lemma AdditionIsNew(base: seq<ManifestEntry>, ours: seq<ManifestEntry>, theirs: seq<ManifestEntry>,
      f: ManifestEntry, g: ManifestEntry, o: ManifestEntry)
    requires AllKeyed(base, ours, theirs) && o in ours && KeyOf(f) == KeyOf(o) && f in RuleSlot(base, ours, theirs, o)
    requires g in theirs && RuleNew(base, ours, g) && f.fp == f.row.fingerprint
    ensures f.row != g.row
  {
    FindUnique(ours, o);
    assert g.fp == g.row.fingerprint;
  }

  /** Main result: on keyed manifests the indexed algorithm is the per-key rule, order included. */
  lemma MergeIsRule(base: seq<ManifestEntry>, ours: seq<ManifestEntry>, theirs: seq<ManifestEntry>)
    requires AllKeyed(base, ours, theirs)
    ensures MergeSpec(base, ours, theirs) == RuleMerge(base, ours, theirs)
  {
    assert ours[..|ours|] == ours && theirs[..|theirs|] == theirs;
    SlotsAreRule(base, ours, theirs, |ours|);
    AdditionsAreRule(base, ours, theirs, |theirs|);
    RuleMergeDistinct(base, ours, theirs);
    DedupDistinct(RuleMerge(base, ours, theirs));
  }

  /** Our part of the merge holds `e` when our entry for that key turns into `e`. */
  lemma SlotMembers(base: seq<ManifestEntry>, ours: seq<ManifestEntry>, theirs: seq<ManifestEntry>, e: ManifestEntry)
    requires AllKeyed(base, ours, theirs)
    ensures var o := Find(ours, KeyOf(e));
            e in RuleSlots(base, ours, theirs, ours) <==> o.Some? && e in RuleSlot(base, ours, theirs, o.value)
  {
    assert ours[..|ours|] == ours;
    SlotsDistinct(base, ours, theirs, |ours|);
    var o := Find(ours, KeyOf(e));
    if o.Some? {
      SlotInSlots(base, ours, theirs, ours, o.value);
    }
    if e in RuleSlots(base, ours, theirs, ours) {
      var i :| 0 <= i < |ours| && KeyOf(e) == KeyOf(ours[i]) && e in RuleSlot(base, ours, theirs, ours[i]);
      FindUnique(ours, ours[i]);
    }
  }

  /** What a key keeps is its slot in ours, if it has one, and its addition from theirs. */
  lemma RuleSplits(b: Option<ManifestEntry>, o: Option<ManifestEntry>, t: Option<ManifestEntry>, e: ManifestEntry)
    ensures var v := Rule(b, o, t);
      Kept(v, e) <==>
      || (o.Some? && v.Keep? && v.entries != [] && e == v.entries[0])
      || (b.None? && t == Some(e) && o != Some(e))
  {
  }

  /** Which rows the merge holds: under each key exactly what the rule keeps. */
  lemma MergeMembers(base: seq<ManifestEntry>, ours: seq<ManifestEntry>, theirs: seq<ManifestEntry>, e: ManifestEntry)
    requires AllKeyed(base, ours, theirs)
    ensures var v := RuleAt(base, ours, theirs, KeyOf(e));
            e in MergeSpec(base, ours, theirs) <==> Kept(v, e)
  {
    var k := KeyOf(e);
    MergeIsRule(base, ours, theirs);
    SlotMembers(base, ours, theirs, e);
    assert theirs[..|theirs|] == theirs;
    AdditionsDistinct(base, ours, theirs, |theirs|);
    FindUnique(theirs, e);
    RuleSplits(Find(base, k), Find(ours, k), Find(theirs, k), e);
    hide Rule, Find, RuleSlots, RuleAdditions;
    assert e in MergeSpec(base, ours, theirs) <==>
        e in RuleSlots(base, ours, theirs, ours) || e in RuleAdditions(base, ours, theirs);
  }

  lemma {:induction false} SlotInSlots(base: seq<ManifestEntry>, ours: seq<ManifestEntry>,
      theirs: seq<ManifestEntry>, s: seq<ManifestEntry>, o: ManifestEntry)
    requires o in s
    ensures forall f <- RuleSlot(base, ours, theirs, o) :: f in RuleSlots(base, ours, theirs, s)
  {
    if o != s[|s| - 1] {
      SlotInSlots(base, ours, theirs, s[..|s| - 1], o);
    }
  }

  function ClashConflict(base: seq<ManifestEntry>, ours: seq<ManifestEntry>, theirs: seq<ManifestEntry>,
      path: string, k: Key): MergeConflict
    requires RuleAt(base, ours, theirs, k).Clash?
  {
    MergeConflict(path, BothModified, Some([Find(base, k).value]), Some([Find(ours, k).value]),
      Some([Find(theirs, k).value]))
  }

  /** The conflicts are exactly the keys that the rule finds clashing. */
  lemma ConflictsAreClashes(base: seq<ManifestEntry>, ours: seq<ManifestEntry>, theirs: seq<ManifestEntry>,
      path: string, c: MergeConflict)
    requires AllKeyed(base, ours, theirs)
    ensures c in ConflictSpec(base, ours, theirs, path) <==>
      exists k | RuleAt(base, ours, theirs, k).Clash? :: c == ClashConflict(base, ours, theirs, path, k)
  {
    var x := TablesOf(base, ours, theirs);
    if c in ConflictSpec(base, ours, theirs, path) {
      var q :| q in x.oursRefreshed && Disputed(x.oursRefreshed, x.theirsRefreshed, q)
            && c == DisputeAt(path, ByFp(base), x.oursRefreshed, x.theirsRefreshed, q);
      DisputedIsClash(base, ours, theirs, q);
      DisputeIsClashConflict(base, ours, theirs, path, FpKey(q));
    }
    forall k | RuleAt(base, ours, theirs, k).Clash?
      ensures ClashConflict(base, ours, theirs, path, k) in ConflictSpec(base, ours, theirs, path)
    {
      DisputeIsClashConflict(base, ours, theirs, path, k);
      DisputedIsClash(base, ours, theirs, k.fp);
    }
  }

  lemma DisputeIsClashConflict(base: seq<ManifestEntry>, ours: seq<ManifestEntry>, theirs: seq<ManifestEntry>,
      path: string, k: Key)
    requires AllKeyed(base, ours, theirs) && RuleAt(base, ours, theirs, k).Clash?
    ensures var x := TablesOf(base, ours, theirs);
      && k.FpKey? && k.fp in ByFp(base) && k.fp in x.oursRefreshed && k.fp in x.theirsRefreshed
      && ClashConflict(base, ours, theirs, path, k) ==
        DisputeAt(path, ByFp(base), x.oursRefreshed, x.theirsRefreshed, k.fp)
  {
    OnlyFpKeysClash(base, ours, theirs, k);
    RefreshedMeaning(base, ours, k.fp);
    RefreshedMeaning(base, theirs, k.fp);
    ByFpIsFind(base, k.fp);
  }

  // ----- Laws -----

  /** Theirs unchanged: the merge is ours, in our order, without conflicts. */
  lemma MergeTheirsUnchanged(base: seq<ManifestEntry>, ours: seq<ManifestEntry>, path: string)
    requires Keyed(base) && Keyed(ours)
    ensures MergeSpec(base, ours, base) == ours
    ensures ConflictSpec(base, ours, base, path) == {}
  {
    MergeIsRule(base, ours, base);
    assert ours[..|ours|] == ours;
    SlotsUnchanged(base, ours, base, |ours|);
    forall e | e in base ensures !RuleNew(base, ours, e) { FindUnique(base, e); }
    NoAdditions(base, ours, base);
    forall c ensures c !in ConflictSpec(base, ours, base, path) {
      ConflictsAreClashes(base, ours, base, path, c);
    }
  }

  /** Both sides made the same change: the merge is that version, in its order, and nothing is in conflict. */
  lemma MergeSameChange(base: seq<ManifestEntry>, ours: seq<ManifestEntry>, path: string)
    requires Keyed(base) && Keyed(ours)
    ensures MergeSpec(base, ours, ours) == ours
    ensures ConflictSpec(base, ours, ours, path) == {}
  {
    assert ConflictSpec(base, ours, ours, path) == {};
    MergeIsRule(base, ours, ours);
    assert ours[..|ours|] == ours;
    SlotsUnchanged(base, ours, ours, |ours|);
    forall e | e in ours ensures !RuleNew(base, ours, e) { FindUnique(ours, e); }
    NoAdditions(base, ours, ours);
  }

  lemma {:induction false} SlotsUnchanged(base: seq<ManifestEntry>, ours: seq<ManifestEntry>,
      theirs: seq<ManifestEntry>, n: nat)
    requires AllKeyed(base, ours, theirs) && n <= |ours| && (theirs == base || theirs == ours)
    ensures RuleSlots(base, ours, theirs, ours[..n]) == ours[..n]
  {
    hide RuleSlot, AllKeyed;
    if n > 0 {
      SlotsUnchanged(base, ours, theirs, n - 1);
      SlotUnchanged(base, ours, theirs, ours[n - 1]);
      assert ours[..n] == ours[..n - 1] + [ours[n - 1]];
      assert ours[..n][..n - 1] == ours[..n - 1];
    }
  }

  lemma SlotUnchanged(base: seq<ManifestEntry>, ours: seq<ManifestEntry>, theirs: seq<ManifestEntry>, e: ManifestEntry)
    requires AllKeyed(base, ours, theirs) && e in ours && (theirs == base || theirs == ours)
    ensures RuleSlot(base, ours, theirs, e) == [e]
  {
    FindUnique(ours, e);
  }

  lemma {:induction false} NoAdditions(base: seq<ManifestEntry>, ours: seq<ManifestEntry>, s: seq<ManifestEntry>)
    requires forall e <- s :: !RuleNew(base, ours, e)
    ensures RuleAdditions(base, ours, s) == []
  {
    if s != [] {
      NoAdditions(base, ours, s[..|s| - 1]);
    }
  }

  /** The manifest has an entry under the key of `e`. */
  ghost predicate HasKey(m: seq<ManifestEntry>, e: ManifestEntry) {
    exists x <- m :: KeyOf(x) == KeyOf(e)
  }

  /**
   The rule spelled out for one entry: it is in the merge when both sides have it; when one side has it and
   base has nothing under its key; and when that side refreshed to it and the other side kept the base
   row, or, if the side is ours, deleted it.
   */
  lemma MergedEntry(base: seq<ManifestEntry>, ours: seq<ManifestEntry>, theirs: seq<ManifestEntry>, e: ManifestEntry)
    requires AllKeyed(base, ours, theirs)
    ensures e in MergeSpec(base, ours, theirs) <==>
      || (e in ours && e in theirs)
      || ((e in ours || e in theirs) && !HasKey(base, e))
      || (e in ours && e !in base && (forall y <- theirs | KeyOf(y) == KeyOf(e) :: y in base))
      || (e in theirs && e !in base && HasKey(ours, e) && (forall y <- ours | KeyOf(y) == KeyOf(e) :: y in base))
  {
    MergeMembers(base, ours, theirs, e);
    KeyHeld(base, e);
    KeyHeld(ours, e);
    KeyHeld(theirs, e);
    hide MergeSpec, AllKeyed, Find, HasKey, KeyOf;
  }

  /** What a manifest has under the key of `e`, by lookup. */
  lemma KeyHeld(m: seq<ManifestEntry>, e: ManifestEntry)
    requires Keyed(m)
    ensures var x := Find(m, KeyOf(e));
      && (HasKey(m, e) <==> x.Some?) && (e in m <==> x == Some(e))
      && (x.Some? ==> x.value in m && KeyOf(x.value) == KeyOf(e))
      && forall y | y in m && KeyOf(y) == KeyOf(e) :: x == Some(y)
  {
    FindUnique(m, e);
    forall y | y in m && KeyOf(y) == KeyOf(e) ensures Find(m, KeyOf(e)) == Some(y) {
      FindUnique(m, y);
    }
  }

  /** The conflicts spelled out: both sides replaced a base row, by different rows under its key. */
  lemma ConflictEntries(base: seq<ManifestEntry>, ours: seq<ManifestEntry>, theirs: seq<ManifestEntry>, path: string,
      c: MergeConflict)
    requires AllKeyed(base, ours, theirs)
    ensures c in ConflictSpec(base, ours, theirs, path) <==>
      exists x, y, z :: TwoChanges(base, ours, theirs, x, y, z) &&
        c == MergeConflict(path, BothModified, Some([x]), Some([y]), Some([z]))
  {
    ConflictsAreClashes(base, ours, theirs, path, c);
    hide ConflictSpec, Find, Keyed, AllKeyed;
    forall x, y, z | TwoChanges(base, ours, theirs, x, y, z) &&
        c == MergeConflict(path, BothModified, Some([x]), Some([y]), Some([z]))
      ensures RuleAt(base, ours, theirs, KeyOf(x)).Clash? && c == ClashConflict(base, ours, theirs, path, KeyOf(x))
    {
      ThreeFound(base, ours, theirs, x, y, z);
    }
    if k :| RuleAt(base, ours, theirs, k).Clash? && c == ClashConflict(base, ours, theirs, path, k) {
      ClashChanges(base, ours, theirs, k);
    }
  }

  /** Under one key the sides hold two different rows, and base holds a third. */
  ghost predicate TwoChanges(base: seq<ManifestEntry>, ours: seq<ManifestEntry>, theirs: seq<ManifestEntry>,
      x: ManifestEntry, y: ManifestEntry, z: ManifestEntry) {
    && x in base && y in ours && z in theirs && KeyOf(x) == KeyOf(y) == KeyOf(z)
    && x != y && x != z && y != z
  }

  lemma ClashChanges(base: seq<ManifestEntry>, ours: seq<ManifestEntry>, theirs: seq<ManifestEntry>, k: Key)
    requires RuleAt(base, ours, theirs, k).Clash?
    ensures Find(base, k).Some? && Find(ours, k).Some? && Find(theirs, k).Some?
    ensures TwoChanges(base, ours, theirs, Find(base, k).value, Find(ours, k).value, Find(theirs, k).value)
  {
  }

  lemma ThreeFound(base: seq<ManifestEntry>, ours: seq<ManifestEntry>, theirs: seq<ManifestEntry>,
      x: ManifestEntry, y: ManifestEntry, z: ManifestEntry)
    requires AllKeyed(base, ours, theirs) && x in base && y in ours && z in theirs
    requires KeyOf(x) == KeyOf(y) == KeyOf(z)
    ensures Find(base, KeyOf(x)) == Some(x) && Find(ours, KeyOf(x)) == Some(y) && Find(theirs, KeyOf(x)) == Some(z)
  {
    KeyHeld(base, x);
    KeyHeld(ours, x);
    KeyHeld(theirs, x);
  }

  /** The order spelled out: rows appended on both sides end up behind each other, ours first. */
  lemma MergeAppends(base: seq<ManifestEntry>, a: seq<ManifestEntry>, b: seq<ManifestEntry>)
    requires Keyed(base + a + b)
    ensures MergeSpec(base, base + a, base + b) == base + a + b
  {
    hide *;
    AppendKeyed(base, a, b);
    MergeIsRule(base, base + a, base + b);
    RuleMergeIs(base, base + a, base + b);
    assert (base + a)[..|base + a|] == base + a;
    AppendSlots(base, a, b, |base + a|);
    AppendAdditions(base, a, b);
  }

  lemma AppendAdditions(base: seq<ManifestEntry>, a: seq<ManifestEntry>, b: seq<ManifestEntry>)
    requires AllKeyed(base, base + a, base + b)
    requires forall e <- b :: !HasKey(base + a, e)
    ensures RuleAdditions(base, base + a, base + b) == b
  {
    hide *;
    forall i | 0 <= i < |base + b| ensures RuleNew(base, base + a, (base + b)[i]) <==> i >= |base| {
      AppendNew(base, a, b, i);
    }
    forall e | e in base ensures !RuleNew(base, base + a, e) {
      var i :| 0 <= i < |base| && base[i] == e;
      assert (base + b)[i] == e;
    }
    forall e | e in b ensures RuleNew(base, base + a, e) {
      var i :| 0 <= i < |b| && b[i] == e;
      assert (base + b)[|base| + i] == e;
    }
    AdditionsAppend(base, base + a, base, b);
  }

  lemma KeyedPart(all: seq<ManifestEntry>, part: seq<ManifestEntry>, i: nat)
    requires Keyed(all) && i + |part| <= |all| && all[i..i + |part|] == part
    ensures Keyed(part)
  {
    assert forall j | 0 <= j < |part| :: part[j] == all[i + j];
  }

  /** Two separate stretches of a keyed manifest share no key. */
  lemma KeysApart(all: seq<ManifestEntry>, s: seq<ManifestEntry>, i: nat, t: seq<ManifestEntry>, j: nat)
    requires Keyed(all) && i + |s| <= |all| && j + |t| <= |all| && (i + |s| <= j || j + |t| <= i)
    requires all[i..i + |s|] == s && all[j..j + |t|] == t
    ensures forall e <- s :: !HasKey(t, e)
  {
    hide KeyOf;
    forall e, x | e in s && x in t ensures KeyOf(x) != KeyOf(e) {
      var m :| 0 <= m < |s| && s[m] == e;
      var n :| 0 <= n < |t| && t[n] == x;
      assert all[i + m] == e && all[j + n] == x;
    }
  }

  lemma NoKeyInEither(s: seq<ManifestEntry>, t: seq<ManifestEntry>, e: ManifestEntry)
    requires !HasKey(s, e) && !HasKey(t, e)
    ensures !HasKey(s + t, e)
  {
    hide KeyOf;
  }

  lemma KeyedJoin(s: seq<ManifestEntry>, t: seq<ManifestEntry>)
    requires Keyed(s) && Keyed(t) && forall e <- t :: !HasKey(s, e)
    ensures Keyed(s + t)
  {
    hide KeyOf;
    var all := s + t;
    forall i, j | 0 <= i < j < |all| ensures KeyOf(all[i]) != KeyOf(all[j]) {
      if i < |s| <= j {
        assert all[j] == t[j - |s|] && all[j] in t && all[i] in s;
      }
    }
  }

  lemma AppendKeyed(base: seq<ManifestEntry>, a: seq<ManifestEntry>, b: seq<ManifestEntry>)
    requires Keyed(base + a + b)
    ensures AllKeyed(base, base + a, base + b)
    ensures forall e <- b :: !HasKey(base + a, e)
    ensures forall e <- a :: !HasKey(base + b, e)
  {
    var all := base + a + b;
    hide Keyed, HasKey;
    assert all[..|base|] == base && all[..|base + a|] == base + a;
    assert all[|base|..|base| + |a|] == a && all[|base + a|..] == b;
    KeyedPart(all, base, 0);
    KeyedPart(all, base + a, 0);
    KeyedPart(all, b, |base + a|);
    KeysApart(all, b, |base + a|, base + a, 0);
    KeysApart(all, b, |base + a|, base, 0);
    KeysApart(all, a, |base|, base, 0);
    KeysApart(all, a, |base|, b, |base + a|);
    KeyedJoin(base, b);
    forall e | e in a ensures !HasKey(base + b, e) {
      NoKeyInEither(base, b, e);
    }
  }

  lemma {:induction false} AppendSlots(base: seq<ManifestEntry>, a: seq<ManifestEntry>, b: seq<ManifestEntry>, n: nat)
    requires AllKeyed(base, base + a, base + b) && n <= |base + a|
    requires forall e <- a :: !HasKey(base + b, e)
    ensures RuleSlots(base, base + a, base + b, (base + a)[..n]) == (base + a)[..n]
  {
    hide RuleSlot, AllKeyed, HasKey;
    if n > 0 {
      var ours := base + a;
      AppendSlots(base, a, b, n - 1);
      AppendSlot(base, a, b, ours[n - 1]);
      assert ours[..n] == ours[..n - 1] + [ours[n - 1]] && ours[..n][..n - 1] == ours[..n - 1];
    }
  }

  lemma AppendSlot(base: seq<ManifestEntry>, a: seq<ManifestEntry>, b: seq<ManifestEntry>, e: ManifestEntry)
    requires AllKeyed(base, base + a, base + b) && e in base + a
    requires forall x <- a :: !HasKey(base + b, x)
    ensures RuleSlot(base, base + a, base + b, e) == [e]
  {
    KeyHeld(base, e);
    KeyHeld(base + a, e);
    KeyHeld(base + b, e);
    assert e in base || e in a;
    assert e in base ==> e in base + b;
    hide Find, KeyOf;
    if e !in base {
      NoKeyInPart(base, b, e);
    }
  }

  lemma NoKeyInPart(base: seq<ManifestEntry>, b: seq<ManifestEntry>, e: ManifestEntry)
    requires !HasKey(base + b, e)
    ensures !HasKey(base, e)
  {
    forall x | x in base ensures KeyOf(x) != KeyOf(e) {
      assert x in base + b;
    }
  }

  lemma {:induction false} AdditionsAppend(base: seq<ManifestEntry>, ours: seq<ManifestEntry>,
      s: seq<ManifestEntry>, b: seq<ManifestEntry>)
    requires forall e <- s :: !RuleNew(base, ours, e)
    requires forall e <- b :: RuleNew(base, ours, e)
    ensures RuleAdditions(base, ours, s + b) == b
    decreases |b|
  {
    hide RuleNew;
    if b == [] {
      assert s + b == s;
      NoAdditions(base, ours, s);
    } else {
      var init := b[..|b| - 1];
      AdditionsAppend(base, ours, s, init);
      assert (s + b)[..|s + b| - 1] == s + init && (s + b)[|s + b| - 1] == b[|b| - 1];
    }
  }

  lemma AppendNew(base: seq<ManifestEntry>, a: seq<ManifestEntry>, b: seq<ManifestEntry>, i: nat)
    requires AllKeyed(base, base + a, base + b) && i < |base + b|
    requires forall e <- b :: !HasKey(base + a, e)
    ensures RuleNew(base, base + a, (base + b)[i]) <==> i >= |base|
  {
    var e := (base + b)[i];
    KeyHeld(base, e);
    KeyHeld(base + a, e);
    hide Find, KeyOf, AllKeyed;
    if i < |base| {
      assert e == base[i] && e in base;
    } else {
      assert e == b[i - |base|] && e in b;
      NoKeyInPart(base, a, e);
    }
  }

  /** A row that only theirs refreshed is replaced in its place. */
  lemma MergeRefreshesInPlace(base: seq<ManifestEntry>, i: nat, f: ManifestEntry)
    requires i < |base| && Keyed(base) && f.fp == f.row.fingerprint && KeyOf(f) == KeyOf(base[i])
    ensures MergeSpec(base, base, base[i := f]) == base[i := f]
  {
    hide *;
    var theirs := base[i := f];
    RefreshKeys(base, i, f);
    MergeIsRule(base, base, theirs);
    RuleMergeIs(base, base, theirs);
    RefreshSlots(base, theirs, |base|);
    forall e | e in theirs ensures !RuleNew(base, base, e) {
      var j :| 0 <= j < |theirs| && theirs[j] == e;
      RefreshNotNew(base, theirs, j);
    }
    NoAdditions(base, base, theirs);
    assert base[..|base|] == base && theirs[..|base|] == theirs;
  }

  lemma RuleMergeIs(base: seq<ManifestEntry>, ours: seq<ManifestEntry>, theirs: seq<ManifestEntry>)
    ensures RuleMerge(base, ours, theirs) == RuleSlots(base, ours, theirs, ours) + RuleAdditions(base, ours, theirs)
  {
  }

  lemma RefreshKeys(base: seq<ManifestEntry>, i: nat, f: ManifestEntry)
    requires i < |base| && Keyed(base) && f.fp == f.row.fingerprint && KeyOf(f) == KeyOf(base[i])
    ensures Keyed(base[i := f]) && AllKeyed(base, base, base[i := f])
    ensures forall j | 0 <= j < |base| :: KeyOf(base[i := f][j]) == KeyOf(base[j])
  {
    hide KeyOf;
    SameKeys(base, base[i := f]);
  }

  lemma SameKeys(base: seq<ManifestEntry>, theirs: seq<ManifestEntry>)
    requires Keyed(base) && Honest(theirs) && |theirs| == |base|
    requires forall j | 0 <= j < |base| :: KeyOf(theirs[j]) == KeyOf(base[j])
    ensures Keyed(theirs)
  {
    hide KeyOf;
  }

  lemma RefreshNotNew(base: seq<ManifestEntry>, theirs: seq<ManifestEntry>, j: nat)
    requires Keyed(base) && j < |base| == |theirs| && KeyOf(theirs[j]) == KeyOf(base[j])
    ensures !RuleNew(base, base, theirs[j])
  {
    KeyHeld(base, base[j]);
  }

  lemma RefreshSlot(base: seq<ManifestEntry>, theirs: seq<ManifestEntry>, j: nat)
    requires Keyed(base) && Keyed(theirs) && j < |base| == |theirs| && KeyOf(theirs[j]) == KeyOf(base[j])
    ensures RuleSlot(base, base, theirs, base[j]) == [theirs[j]]
  {
    KeyHeld(base, base[j]);
    KeyHeld(theirs, theirs[j]);
    hide Find, KeyOf, Keyed, HasKey;
  }

  lemma {:induction false} RefreshSlots(base: seq<ManifestEntry>, theirs: seq<ManifestEntry>, n: nat)
    requires Keyed(base) && Keyed(theirs) && |theirs| == |base| && n <= |base|
    requires forall j | 0 <= j < |base| :: KeyOf(theirs[j]) == KeyOf(base[j])
    ensures RuleSlots(base, base, theirs, base[..n]) == theirs[..n]
  {
    hide RuleSlot, KeyOf, Keyed;
    if n > 0 {
      RefreshSlots(base, theirs, n - 1);
      RefreshSlot(base, theirs, n - 1);
      assert base[..n][..n - 1] == base[..n - 1] && theirs[..n] == theirs[..n - 1] + [theirs[n - 1]];
    }
  }

  function Mirror(c: MergeConflict): MergeConflict {
    c.(ours := c.theirs, theirs := c.ours)
  }

  lemma MirrorClash(base: seq<ManifestEntry>, ours: seq<ManifestEntry>, theirs: seq<ManifestEntry>, path: string,
      c: MergeConflict)
    requires c in ConflictSpec(base, ours, theirs, path)
    ensures Mirror(c) in ConflictSpec(base, theirs, ours, path)
  {
    var b, x, y := ByFp(base), TablesOf(base, ours, theirs), TablesOf(base, theirs, ours);
    var q :| q in x.oursRefreshed.Keys && q in b && Disputed(x.oursRefreshed, x.theirsRefreshed, q) &&
      c == DisputeAt(path, b, x.oursRefreshed, x.theirsRefreshed, q);
    assert y.oursRefreshed == x.theirsRefreshed && y.theirsRefreshed == x.oursRefreshed;
    assert Disputed(y.oursRefreshed, y.theirsRefreshed, q);
    assert Mirror(c) == DisputeAt(path, b, y.oursRefreshed, y.theirsRefreshed, q);
  }

  /** Swapping the two sides mirrors the conflicts, whatever the manifests. */
  lemma SwapMirrorsConflicts(base: seq<ManifestEntry>, ours: seq<ManifestEntry>, theirs: seq<ManifestEntry>,
      path: string, c: MergeConflict)
    ensures c in ConflictSpec(base, ours, theirs, path) <==> Mirror(c) in ConflictSpec(base, theirs, ours, path)
  {
    hide ConflictSpec;
    if c in ConflictSpec(base, ours, theirs, path) {
      MirrorClash(base, ours, theirs, path, c);
    }
    if Mirror(c) in ConflictSpec(base, theirs, ours, path) {
      MirrorClash(base, theirs, ours, path, Mirror(c));
      assert Mirror(Mirror(c)) == c;
    }
  }

  /** One side refreshed the base row, the other deleted it. */
  predicate RefreshVersusDelete(b: Option<ManifestEntry>, o: Option<ManifestEntry>, t: Option<ManifestEntry>) {
    b.Some? && ((o.None? && t.Some? && t != b) || (t.None? && o.Some? && o != b))
  }

  lemma RuleSwap(b: Option<ManifestEntry>, o: Option<ManifestEntry>, t: Option<ManifestEntry>, e: ManifestEntry)
    ensures !RefreshVersusDelete(b, o, t) ==> (Kept(Rule(b, o, t), e) <==> Kept(Rule(b, t, o), e))
    ensures RefreshVersusDelete(b, o, t) && (o == Some(e) || t == Some(e)) ==>
              (Kept(Rule(b, o, t), e) <==> o == Some(e)) && (Kept(Rule(b, t, o), e) <==> t == Some(e))
  {
  }

  ghost predicate SomeRefreshVersusDelete(base: seq<ManifestEntry>, ours: seq<ManifestEntry>,
      theirs: seq<ManifestEntry>) {
    exists k :: RefreshVersusDelete(Find(base, k), Find(ours, k), Find(theirs, k))
  }

  /** Swapping the sides keeps the merged rows exactly when no key is refreshed on one side and deleted on the other. */
  lemma SwapKeepsRows(base: seq<ManifestEntry>, ours: seq<ManifestEntry>, theirs: seq<ManifestEntry>)
    requires AllKeyed(base, ours, theirs)
    ensures Rows(MergeSpec(base, ours, theirs)) == Rows(MergeSpec(base, theirs, ours))
            <==> !SomeRefreshVersusDelete(base, ours, theirs)
  {
    var m, m' := MergeSpec(base, ours, theirs), MergeSpec(base, theirs, ours);
    MergedHonest(base, ours, theirs);
    MergedHonest(base, theirs, ours);
    if k :| RefreshVersusDelete(Find(base, k), Find(ours, k), Find(theirs, k)) {
      SwapLosesRow(base, ours, theirs, k);
    } else {
      forall e
        ensures e in m <==> e in m'
      {
        MergeMembers(base, ours, theirs, e);
        MergeMembers(base, theirs, ours, e);
        RuleSwap(Find(base, KeyOf(e)), Find(ours, KeyOf(e)), Find(theirs, KeyOf(e)), e);
        hide MergeSpec, Rule, Find;
      }
      hide MergeSpec, Find;
      assert Rows(m) == Rows(m');
    }
  }

  lemma SwapLosesRow(base: seq<ManifestEntry>, ours: seq<ManifestEntry>, theirs: seq<ManifestEntry>, k: Key)
    requires AllKeyed(base, ours, theirs)
    requires RefreshVersusDelete(Find(base, k), Find(ours, k), Find(theirs, k))
    ensures Rows(MergeSpec(base, ours, theirs)) != Rows(MergeSpec(base, theirs, ours))
  {
    var e := if Find(ours, k).Some? then Find(ours, k).value else Find(theirs, k).value;
    MergeMembers(base, ours, theirs, e);
    MergeMembers(base, theirs, ours, e);
    RuleSwap(Find(base, k), Find(ours, k), Find(theirs, k), e);
    MergedHonest(base, ours, theirs);
    MergedHonest(base, theirs, ours);
    RowsAreEntries(MergeSpec(base, ours, theirs), e);
    RowsAreEntries(MergeSpec(base, theirs, ours), e);
    hide MergeSpec, Rule;
  }

  lemma MergedHonest(base: seq<ManifestEntry>, ours: seq<ManifestEntry>, theirs: seq<ManifestEntry>)
    requires AllKeyed(base, ours, theirs)
    ensures Honest(MergeSpec(base, ours, theirs))
  {
    forall e | e in MergeSpec(base, ours, theirs) ensures e.fp == e.row.fingerprint {
      MergeMembers(base, ours, theirs, e);
      RuleKeepsKey(base, ours, theirs, KeyOf(e));
    }
  }

  // ----- Arbitrary manifests: repeated fingerprints and repeated rows allowed -----

  lemma RefreshedFrom(base: FpIndex, side: seq<ManifestEntry>)
    ensures forall q <- Refreshed(base, ByFp(side), Rows(side)) :: Refreshed(base, ByFp(side), Rows(side))[q] in side
  {
  }

  lemma {:induction false} SlotsProvenance(base: seq<ManifestEntry>, ours: seq<ManifestEntry>,
      theirs: seq<ManifestEntry>, s: seq<ManifestEntry>)
    requires forall e <- s :: e in ours
    ensures forall f :: f in Slots(TablesOf(base, ours, theirs), s) <==>
                        exists e <- s :: f in Slot(TablesOf(base, ours, theirs), e)
    ensures forall f <- Slots(TablesOf(base, ours, theirs), s) :: f in ours || f in theirs
  {
    if s != [] {
      SlotsProvenance(base, ours, theirs, s[..|s| - 1]);
      assert s == s[..|s| - 1] + [s[|s| - 1]];
      RefreshedFrom(ByFp(base), ours);
      RefreshedFrom(ByFp(base), theirs);
    }
  }

  lemma {:induction false} AdditionsProvenance(x: Tables, s: seq<ManifestEntry>)
    ensures forall f :: f in Additions(x, s) <==> f in s && TheirsNew(x, f)
  {
    if s != [] {
      AdditionsProvenance(x, s[..|s| - 1]);
      assert s == s[..|s| - 1] + [s[|s| - 1]];
    }
  }

  lemma {:induction false} DedupRows(s: seq<ManifestEntry>)
    ensures Rows(Dedup(s)) == Rows(s)
  {
    if s != [] {
      var d, e := Dedup(s[..|s| - 1]), s[|s| - 1];
      DedupRows(s[..|s| - 1]);
      assert s == s[..|s| - 1] + [e];
      assert Rows(s) == Rows(s[..|s| - 1]) + {e.row};
      assert Rows(d + [e]) == Rows(d) + {e.row};
    }
  }

  /** No merge invents a row or repeats one. */
  lemma MergeProvenance(base: seq<ManifestEntry>, ours: seq<ManifestEntry>, theirs: seq<ManifestEntry>)
    ensures forall e <- MergeSpec(base, ours, theirs) :: e in ours || e in theirs
    ensures DistinctRows(MergeSpec(base, ours, theirs))
  {
    SlotsProvenance(base, ours, theirs, ours);
    AdditionsProvenance(TablesOf(base, ours, theirs), theirs);
  }

  // The fate of every row that a side has, whatever the manifests repeat.

  ghost predicate AllHonest(base: seq<ManifestEntry>, ours: seq<ManifestEntry>, theirs: seq<ManifestEntry>) {
    Honest(base) && Honest(ours) && Honest(theirs)
  }

  /** A refresh of another row with the same fingerprint takes the place of `e`, or `e` is in dispute itself. */
  predicate Displaced(x: Tables, e: ManifestEntry) {
    Truthy(e.fp) &&
    var q, r := e.fp.value, Resolved(x.oursRefreshed, x.theirsRefreshed);
    || (q in r && r[q].row != e.row)
    || (Disputed(x.oursRefreshed, x.theirsRefreshed, q) && x.oursRefreshed[q].row == e.row)
  }

  /** `e` is the settled refresh of its fingerprint, or that is in dispute and `e` is not our proposal. */
  predicate Returned(x: Tables, e: ManifestEntry) {
    Truthy(e.fp) &&
    var q, r := e.fp.value, Resolved(x.oursRefreshed, x.theirsRefreshed);
    || (q in r && r[q].row == e.row)
    || (Disputed(x.oursRefreshed, x.theirsRefreshed, q) && x.oursRefreshed[q].row != e.row)
  }

  /** `e` is the settled refresh of its fingerprint, and ours has a row for it to replace. */
  ghost predicate Replaces(x: Tables, ours: seq<ManifestEntry>, e: ManifestEntry) {
    var r := Resolved(x.oursRefreshed, x.theirsRefreshed);
    Truthy(e.fp) && e.fp.value in r && r[e.fp.value].row == e.row && exists f <- ours :: f.fp == e.fp
  }

  /** `e` is what theirs made of the base row of its fingerprint. */
  predicate TheirRefresh(x: Tables, e: ManifestEntry) {
    Truthy(e.fp) && e.fp.value in x.theirsRefreshed && x.theirsRefreshed[e.fp.value].row == e.row
  }

  /** A dispute is about rows of one fingerprint. */
  lemma DisputedAt(base: seq<ManifestEntry>, ours: seq<ManifestEntry>, theirs: seq<ManifestEntry>, e: ManifestEntry)
    requires Honest(ours) && Honest(theirs) && e.fp == e.row.fingerprint
    ensures var x := TablesOf(base, ours, theirs);
      var disputed := Truthy(e.fp) && Disputed(x.oursRefreshed, x.theirsRefreshed, e.fp.value);
      && (e.row in DisputedRows(x.oursRefreshed, x.theirsRefreshed, x.oursRefreshed) <==>
            disputed && x.oursRefreshed[e.fp.value].row == e.row)
      && (e.row in DisputedRows(x.oursRefreshed, x.theirsRefreshed, x.theirsRefreshed) <==>
            disputed && x.theirsRefreshed[e.fp.value].row == e.row)
  {
    RefreshedFrom(ByFp(base), ours);
    RefreshedFrom(ByFp(base), theirs);
  }

  /** A settled refresh is an entry of a side, under its own fingerprint. */
  lemma ResolvedFrom(base: seq<ManifestEntry>, ours: seq<ManifestEntry>, theirs: seq<ManifestEntry>, q: string)
    requires var x := TablesOf(base, ours, theirs); q in Resolved(x.oursRefreshed, x.theirsRefreshed)
    ensures var x := TablesOf(base, ours, theirs);
      var g := Resolved(x.oursRefreshed, x.theirsRefreshed)[q];
      g.fp == Some(q) && q != "" && (g in ours || g in theirs)
  {
  }

  /** What our entry turns into: the settled refresh of its fingerprint, or nothing, or itself. */
  lemma SlotOf(base: seq<ManifestEntry>, ours: seq<ManifestEntry>, theirs: seq<ManifestEntry>, f: ManifestEntry)
    requires AllHonest(base, ours, theirs) && f in ours
    ensures var x := TablesOf(base, ours, theirs);
      var r := Resolved(x.oursRefreshed, x.theirsRefreshed);
      if Truthy(f.fp) && f.fp.value in r then Slot(x, f) == [r[f.fp.value]]
      else Slot(x, f) == [] || Slot(x, f) == [f]
  {
    DisputedAt(base, ours, theirs, f);
    hide DisputedRows, TablesOf;
  }

  /** Only its own slot, or a slot that it replaces, holds a row. */
  lemma RowInSlot(base: seq<ManifestEntry>, ours: seq<ManifestEntry>, theirs: seq<ManifestEntry>, e: ManifestEntry,
      f: ManifestEntry, g: ManifestEntry)
    requires AllHonest(base, ours, theirs) && e.fp == e.row.fingerprint
    requires f in ours && g in Slot(TablesOf(base, ours, theirs), f) && g.row == e.row
    ensures var x := TablesOf(base, ours, theirs); g == e && ((f == e && Slot(x, e) == [e]) || Replaces(x, ours, e))
  {
    var x := TablesOf(base, ours, theirs);
    SlotOf(base, ours, theirs, f);
    if Truthy(f.fp) && f.fp.value in Resolved(x.oursRefreshed, x.theirsRefreshed) {
      ResolvedFrom(base, ours, theirs, f.fp.value);
    }
    hide Slot, TablesOf, Resolved;
  }

  /** The three ways into a merge: a row keeps its slot, replaces another, or is new in theirs. */
  lemma MergedRow(base: seq<ManifestEntry>, ours: seq<ManifestEntry>, theirs: seq<ManifestEntry>, e: ManifestEntry)
    requires AllHonest(base, ours, theirs) && e.fp == e.row.fingerprint
    ensures var x := TablesOf(base, ours, theirs);
      e.row in Rows(MergeSpec(base, ours, theirs)) <==>
        (e in ours && Slot(x, e) == [e]) || Replaces(x, ours, e) || (e in theirs && TheirsNew(x, e))
  {
    hide TablesOf, Slot, Slots, Additions, Dedup, TheirsNew, Resolved;
    var x := TablesOf(base, ours, theirs);
    SlotsProvenance(base, ours, theirs, ours);
    AdditionsProvenance(x, theirs);
    var all := Slots(x, ours) + Additions(x, theirs);
    DedupRows(all);
    if e.row in Rows(MergeSpec(base, ours, theirs)) {
      var g :| g in all && g.row == e.row;
      if g in Slots(x, ours) {
        var f :| f in ours && g in Slot(x, f);
        RowInSlot(base, ours, theirs, e, f, g);
      } else {
        assert g == e;
      }
    }
    if Replaces(x, ours, e) {
      var f :| f in ours && f.fp == e.fp;
      SlotOf(base, ours, theirs, f);
      var g := Resolved(x.oursRefreshed, x.theirsRefreshed)[e.fp.value];
      assert g in Slot(x, f) && g in all;
    }
    if e in ours && Slot(x, e) == [e] {
      assert e in Slot(x, e) && e in all;
    }
    if e in theirs && TheirsNew(x, e) {
      assert e in all;
    }
  }

  /** A row of ours that theirs did not delete is in the merge exactly when it is not displaced. */
  lemma OurRowSurvives(base: seq<ManifestEntry>, ours: seq<ManifestEntry>, theirs: seq<ManifestEntry>,
      e: ManifestEntry)
    requires AllHonest(base, ours, theirs)
    requires e in ours && (e in base ==> e in theirs)
    ensures e.row in Rows(MergeSpec(base, ours, theirs)) <==> !Displaced(TablesOf(base, ours, theirs), e)
  {
    var x := TablesOf(base, ours, theirs);
    MergedRow(base, ours, theirs, e);
    DisputedAt(base, ours, theirs, e);
    RowsAreEntries(base, e);
    RowsAreEntries(theirs, e);
    assert e.row in x.oursRows && e.row !in x.deleted;
    hide DisputedRows, MergeSpec;
  }

  /** A row that no side touched survives exactly when it is not displaced through a fingerprint it shares. */
  lemma UntouchedRowSurvives(base: seq<ManifestEntry>, ours: seq<ManifestEntry>, theirs: seq<ManifestEntry>,
      e: ManifestEntry)
    requires AllHonest(base, ours, theirs)
    requires e in base && e in ours && e in theirs
    ensures e.row in Rows(MergeSpec(base, ours, theirs)) <==> !Displaced(TablesOf(base, ours, theirs), e)
  {
    OurRowSurvives(base, ours, theirs, e);
  }

  lemma DeletedByTheirs(base: seq<ManifestEntry>, ours: seq<ManifestEntry>, theirs: seq<ManifestEntry>,
      e: ManifestEntry)
    requires AllHonest(base, ours, theirs)
    requires e in base && e in ours && e.row !in Rows(theirs)
    ensures var x := TablesOf(base, ours, theirs);
      && e.row in x.baseRows && e.row !in x.theirsRows
      && (e.row in x.deleted <==> !(Truthy(e.fp) && e.fp.value in x.theirsRefreshed))
  {
    var x := TablesOf(base, ours, theirs);
    hide Refreshed;
    assert e.row in x.oursRows;
  }

  /** A base row that theirs deleted and ours did not is in the merge exactly when it returns as a refresh. */
  lemma TheirDeletedRowReturns(base: seq<ManifestEntry>, ours: seq<ManifestEntry>, theirs: seq<ManifestEntry>,
      e: ManifestEntry)
    requires AllHonest(base, ours, theirs)
    requires e in base && e in ours && e.row !in Rows(theirs)
    ensures e.row in Rows(MergeSpec(base, ours, theirs)) <==> Returned(TablesOf(base, ours, theirs), e)
  {
    var x := TablesOf(base, ours, theirs);
    MergedRow(base, ours, theirs, e);
    DisputedAt(base, ours, theirs, e);
    DeletedByTheirs(base, ours, theirs, e);
    SlotOf(base, ours, theirs, e);
    hide DisputedRows, MergeSpec, TablesOf, TheirsNew;
    assert e in ours && e !in theirs;
  }

  /** A base row that ours deleted and theirs did not is in the merge exactly when it replaces a row of ours. */
  lemma OurDeletedRowReturns(base: seq<ManifestEntry>, ours: seq<ManifestEntry>, theirs: seq<ManifestEntry>,
      e: ManifestEntry)
    requires AllHonest(base, ours, theirs)
    requires e in base && e in theirs && e.row !in Rows(ours)
    ensures e.row in Rows(MergeSpec(base, ours, theirs)) <==> Replaces(TablesOf(base, ours, theirs), ours, e)
  {
    var x := TablesOf(base, ours, theirs);
    MergedRow(base, ours, theirs, e);
    assert e !in ours && e.row in x.baseRows;
    hide Slot, MergeSpec, Resolved;
  }

  /** A row that only theirs has is in the merge unless it is a refresh that replaces nothing. */
  lemma TheirRowArrives(base: seq<ManifestEntry>, ours: seq<ManifestEntry>, theirs: seq<ManifestEntry>,
      e: ManifestEntry)
    requires AllHonest(base, ours, theirs)
    requires e in theirs && e !in base && e !in ours
    ensures var x := TablesOf(base, ours, theirs);
      e.row in Rows(MergeSpec(base, ours, theirs)) <==> !TheirRefresh(x, e) || Replaces(x, ours, e)
  {
    var x := TablesOf(base, ours, theirs);
    MergedRow(base, ours, theirs, e);
    DisputedAt(base, ours, theirs, e);
    RowsAreEntries(base, e);
    RowsAreEntries(ours, e);
    RefreshedFrom(ByFp(base), theirs);
    hide Slot, MergeSpec, Resolved, DisputedRows;
    assert e.row !in x.baseRows + x.oursRows;
  }

  /** Whether a row of any of the three versions is in the merge. */
  lemma RowFate(base: seq<ManifestEntry>, ours: seq<ManifestEntry>, theirs: seq<ManifestEntry>, e: ManifestEntry)
    requires AllHonest(base, ours, theirs) && e.fp == e.row.fingerprint
    ensures var x := TablesOf(base, ours, theirs);
      e.row in Rows(MergeSpec(base, ours, theirs)) <==>
        if e in ours then (if e in base && e !in theirs then Returned(x, e) else !Displaced(x, e))
        else e in theirs && (Replaces(x, ours, e) || (e !in base && !TheirRefresh(x, e)))
  {
    RowsAreEntries(ours, e);
    RowsAreEntries(theirs, e);
    hide TablesOf, MergeSpec, Returned, Displaced, Replaces, TheirRefresh;
    if e in ours {
      if e in base && e !in theirs {
        TheirDeletedRowReturns(base, ours, theirs, e);
      } else {
        OurRowSurvives(base, ours, theirs, e);
      }
    } else if e in theirs {
      if e in base {
        OurDeletedRowReturns(base, ours, theirs, e);
      } else {
        TheirRowArrives(base, ours, theirs, e);
      }
    } else {
      MergeProvenance(base, ours, theirs);
      RowsAreEntries(MergeSpec(base, ours, theirs), e);
    }
  }

  /** So a row that all three versions hold can be lost: here `a`, when `b` with the same fingerprint is refreshed. */
  lemma SharedFingerprintLosesRow()
    ensures var q := Some("q");
      var a, b, c := ManifestEntry(Row("a", q), q), ManifestEntry(Row("b", q), q), ManifestEntry(Row("c", q), q);
      a.row !in Rows(MergeSpec([a, b], [a, b], [a, c]))
  {
    var q := Some("q");
    var a, b, c := ManifestEntry(Row("a", q), q), ManifestEntry(Row("b", q), q), ManifestEntry(Row("c", q), q);
    assert [a, b][..1] == [a] && [a, c][..1] == [a];
    assert ByFp([a, b]) == map["q" := b] && ByFp([a, c]) == map["q" := c];
    assert b in [a, b] && b.row in Rows([a, b]) && b.row !in Rows([a, c]);
    assert TablesOf([a, b], [a, b], [a, c]).theirsRefreshed == map["q" := c];
    UntouchedRowSurvives([a, b], [a, b], [a, c], a);
  }
  /** And a row that a side deleted can return: each side deletes one of two rows, and `a` stays. */
  lemma SharedFingerprintReturnsRow()
    ensures var q := Some("q");
      var a, b := ManifestEntry(Row("a", q), q), ManifestEntry(Row("b", q), q);
      a.row !in Rows([b]) && a.row in Rows(MergeSpec([a, b], [a], [b]))
  {
    var q := Some("q");
    var a, b := ManifestEntry(Row("a", q), q), ManifestEntry(Row("b", q), q);
    assert [a, b][..1] == [a] && [a][..0] == [] && [b][..0] == [];
    assert ByFp([a, b]) == map["q" := b] && ByFp([a]) == map["q" := a] && ByFp([b]) == map["q" := b];
    assert a in [a, b] && b in [b] && b.row in Rows([b]) && b.row !in Rows([a]) && a.row !in Rows([b]);
    assert TablesOf([a, b], [a], [b]).oursRefreshed == map["q" := a];
    assert TablesOf([a, b], [a], [b]).theirsRefreshed == map[];
    TheirDeletedRowReturns([a, b], [a], [b], a);
  }
}
