/** Difference of two manifests: added, removed and refreshed rows. */
module Diff {
  import opened Objects
  import opened Merge

  /** A refreshed row: old row, new row, and the fingerprint they share. */
  datatype Refresh = Refresh(before: Row, after: Row, fp: string)

  datatype DiffResult = DiffResult(added: seq<ManifestEntry>, removed: seq<ManifestEntry>, refreshed: seq<Refresh>)

  /** The entries whose row is not in `rows`, in order. */
  function Excluding(s: seq<ManifestEntry>, rows: set<Row>): seq<ManifestEntry> {
    if s == [] then [] else
      Excluding(s[..|s| - 1], rows) + if s[|s| - 1].row in rows then [] else [s[|s| - 1]]
  }

  /** The entries with fingerprint `q`, in order. */
  function Of(q: string, s: seq<ManifestEntry>): seq<ManifestEntry> {
    if s == [] then [] else
      Of(q, s[..|s| - 1]) + if s[|s| - 1].fp == Some(q) then [s[|s| - 1]] else []
  }

  /** First come, first served: the k-th addition of a fingerprint takes its k-th removal, if there is one. */
  function Pairs(removed: seq<ManifestEntry>, added: seq<ManifestEntry>): seq<Refresh> {
    if added == [] then [] else
      var init, e := added[..|added| - 1], added[|added| - 1];
      Pairs(removed, init) +
      if Truthy(e.fp) && |Of(e.fp.value, init)| < |Of(e.fp.value, removed)| then
        [Refresh(Of(e.fp.value, removed)[|Of(e.fp.value, init)|].row, e.row, e.fp.value)]
      else []
  }

  function Befores(p: seq<Refresh>): set<Row> {
    set x <- p :: x.before
  }

  function Afters(p: seq<Refresh>): set<Row> {
    set x <- p :: x.after
  }

  function RawRemoved(before: seq<ManifestEntry>, after: seq<ManifestEntry>): seq<ManifestEntry> {
    Excluding(before, Rows(after))
  }

  function RawAdded(before: seq<ManifestEntry>, after: seq<ManifestEntry>): seq<ManifestEntry> {
    Excluding(after, Rows(before))
  }

  function Matched(before: seq<ManifestEntry>, after: seq<ManifestEntry>): DiffResult {
    var p := Pairs(RawRemoved(before, after), RawAdded(before, after));
    DiffResult(Excluding(RawAdded(before, after), Afters(p)), Excluding(RawRemoved(before, after), Befores(p)), p)
  }

  /** A manifest that only changes the sequence of its entries is reported as replaced in full. */
  function DiffSpec(before: seq<ManifestEntry>, after: seq<ManifestEntry>): DiffResult {
    var d := Matched(before, after);
    if d == DiffResult([], [], []) && before != after then DiffResult(after, before, []) else d
  }

  // ----- The algorithm -----

  method Exclude(s: seq<ManifestEntry>, rows: set<Row>) returns (r: seq<ManifestEntry>)
    ensures r == Excluding(s, rows)
  {
    r := [];
    for i := 0 to |s|
      invariant r == Excluding(s[..i], rows)
    {
      assert s[..i + 1][..i] == s[..i];
      if s[i].row !in rows {
        r := r + [s[i]];
      }
    }
    assert s[..|s|] == s;
  }

  /** Removed entries by fingerprint, in order; no bucket is empty. */
  ghost predicate Buckets(b: map<string, seq<ManifestEntry>>, removed: seq<ManifestEntry>, added: seq<ManifestEntry>) {
    forall q ::
      var left := if q != "" && |Of(q, added)| < |Of(q, removed)| then Of(q, removed)[|Of(q, added)|..] else [];
      if q in b then b[q] == left && left != [] else left == []
  }

  method FillBuckets(removed: seq<ManifestEntry>) returns (b: map<string, seq<ManifestEntry>>)
    ensures Buckets(b, removed, [])
  {
    b := map[];
    for i := 0 to |removed|
      invariant Buckets(b, removed[..i], [])
    {
      var e := removed[i];
      assert removed[..i + 1][..i] == removed[..i];
      if Truthy(e.fp) {
        var q := e.fp.value;
        b := b[q := (if q in b then b[q] else []) + [e]];
      }
    }
    assert removed[..|removed|] == removed;
  }

  method MatchRefreshes(removed: seq<ManifestEntry>, added: seq<ManifestEntry>)
    returns (refreshed: seq<Refresh>, befores: set<Row>, afters: set<Row>)
    ensures refreshed == Pairs(removed, added) && befores == Befores(refreshed) && afters == Afters(refreshed)
  {
    hide Buckets, Befores, Afters;
    var b := FillBuckets(removed);
    refreshed, befores, afters := [], {}, {};
    NoPairs();
    for i := 0 to |added|
      invariant Buckets(b, removed, added[..i])
      invariant refreshed == Pairs(removed, added[..i])
      invariant befores == Befores(refreshed) && afters == Afters(refreshed)
    {
      var e := added[i];
      assert added[..i + 1] == added[..i] + [e] && added[..i + 1][..i] == added[..i];
      if Truthy(e.fp) && e.fp.value in b {
        var q := e.fp.value;
        PopBucket(b, removed, added[..i], e);
        var first := b[q][0];
        b := b[q := b[q][1..]];
        if b[q] == [] {
          b := b - {q};
        }
        MorePairs(refreshed, Refresh(first.row, e.row, q));
        refreshed := refreshed + [Refresh(first.row, e.row, q)];
        befores := befores + {first.row};
        afters := afters + {e.row};
      } else {
        KeepBuckets(b, removed, added[..i], e);
      }
    }
    assert added[..|added|] == added;
  }

  lemma NoPairs()
    ensures Befores([]) == {} && Afters([]) == {}
  {
  }

  lemma MorePairs(p: seq<Refresh>, x: Refresh)
    ensures Befores(p + [x]) == Befores(p) + {x.before} && Afters(p + [x]) == Afters(p) + {x.after}
  {
  }

  lemma PopBucket(b: map<string, seq<ManifestEntry>>, removed: seq<ManifestEntry>, added: seq<ManifestEntry>,
      e: ManifestEntry)
    requires Buckets(b, removed, added) && Truthy(e.fp) && e.fp.value in b
    ensures var q := e.fp.value;
      && |Of(q, added)| < |Of(q, removed)| && b[q] != [] && b[q][0] == Of(q, removed)[|Of(q, added)|]
      && Buckets(if b[q][1..] == [] then b[q := []] - {q} else b[q := b[q][1..]], removed, added + [e])
  {
    forall p ensures Of(p, added + [e]) == Of(p, added) + if e.fp == Some(p) then [e] else [] {
      OfNext(p, added, e);
    }
    hide Of;
  }

  lemma KeepBuckets(b: map<string, seq<ManifestEntry>>, removed: seq<ManifestEntry>, added: seq<ManifestEntry>,
      e: ManifestEntry)
    requires Buckets(b, removed, added) && !(Truthy(e.fp) && e.fp.value in b)
    ensures Buckets(b, removed, added + [e])
    ensures Truthy(e.fp) ==> |Of(e.fp.value, added)| >= |Of(e.fp.value, removed)|
  {
    assert (added + [e])[..|added|] == added;
  }

  method DiffManifests(before: seq<ManifestEntry>, after: seq<ManifestEntry>) returns (d: DiffResult)
    ensures d == DiffSpec(before, after)
  {
    var rawRemoved := Exclude(before, Rows(after));
    var rawAdded := Exclude(after, Rows(before));
    var refreshed, befores, afters := MatchRefreshes(rawRemoved, rawAdded);
    var added := Exclude(rawAdded, afters);
    var removed := Exclude(rawRemoved, befores);
    if added == [] && removed == [] && refreshed == [] && before != after {
      added, removed := after, before;
    }
    d := DiffResult(added, removed, refreshed);
  }

  // ----- Laws -----

  lemma {:induction false} ExcludingMeaning(s: seq<ManifestEntry>, rows: set<Row>)
    ensures forall e :: e in Excluding(s, rows) <==> e in s && e.row !in rows
    ensures Rows(Excluding(s, rows)) == Rows(s) - rows
  {
    if s != [] {
      ExcludingMeaning(s[..|s| - 1], rows);
      assert s == s[..|s| - 1] + [s[|s| - 1]];
    }
  }

  lemma {:induction false} OfMeaning(q: string, s: seq<ManifestEntry>)
    ensures forall e :: e in Of(q, s) <==> e in s && e.fp == Some(q)
  {
    if s != [] {
      OfMeaning(q, s[..|s| - 1]);
      assert s == s[..|s| - 1] + [s[|s| - 1]];
    }
  }

  /** A refresh joins a removed and an added row of one fingerprint. */
  lemma {:induction false} PairsMeaning(removed: seq<ManifestEntry>, added: seq<ManifestEntry>, x: Refresh)
    requires x in Pairs(removed, added)
    ensures x.fp != ""
    ensures exists e <- removed :: e.row == x.before && e.fp == Some(x.fp)
    ensures exists e <- added :: e.row == x.after && e.fp == Some(x.fp)
  {
    var init, e := added[..|added| - 1], added[|added| - 1];
    if x in Pairs(removed, init) {
      PairsMeaning(removed, init, x);
      var f :| f in init && f.row == x.after && f.fp == Some(x.fp);
      assert f in added;
    } else {
      OfMeaning(x.fp, removed);
      assert Of(x.fp, removed)[|Of(x.fp, init)|] in Of(x.fp, removed);
    }
  }

  lemma PairsInside(removed: seq<ManifestEntry>, added: seq<ManifestEntry>)
    ensures Befores(Pairs(removed, added)) <= Rows(removed) && Afters(Pairs(removed, added)) <= Rows(added)
  {
    forall x | x in Pairs(removed, added) ensures x.before in Rows(removed) && x.after in Rows(added) {
      PairsMeaning(removed, added, x);
    }
  }

  /** The diff is empty exactly when the manifests are the same sequence. */
  lemma DiffEmptyIff(before: seq<ManifestEntry>, after: seq<ManifestEntry>)
    ensures DiffSpec(before, after) == DiffResult([], [], []) <==> before == after
  {
    if before == after {
      ExcludingMeaning(before, Rows(after));
      NoneLeft(before, Rows(after));
    }
  }

  lemma {:induction false} NoneLeft(s: seq<ManifestEntry>, rows: set<Row>)
    requires Rows(s) <= rows
    ensures Excluding(s, rows) == []
  {
    if s != [] {
      assert forall e <- s[..|s| - 1] :: e in s;
      assert s[|s| - 1] in s;
      NoneLeft(s[..|s| - 1], rows);
    }
  }

  /** Applying the diff to the old rows gives the new rows. */
  lemma DiffApplies(before: seq<ManifestEntry>, after: seq<ManifestEntry>)
    ensures var d := DiffSpec(before, after);
      Rows(after) == (Rows(before) - Rows(d.removed) - Befores(d.refreshed)) + Rows(d.added) + Afters(d.refreshed)
  {
    hide Pairs, Excluding, Befores, Afters;
    var removed, added := RawRemoved(before, after), RawAdded(before, after);
    var p := Pairs(removed, added);
    ExcludingMeaning(before, Rows(after));
    ExcludingMeaning(after, Rows(before));
    ExcludingMeaning(added, Afters(p));
    ExcludingMeaning(removed, Befores(p));
    PairsInside(removed, added);
  }

  /** The refreshes of one fingerprint. */
  function RefreshesOf(q: string, p: seq<Refresh>): seq<Refresh> {
    if p == [] then [] else
      RefreshesOf(q, p[..|p| - 1]) + if p[|p| - 1].fp == q then [p[|p| - 1]] else []
  }

  function Min(a: nat, b: nat): nat {
    if a < b then a else b
  }

  lemma RefreshesOfConcat(q: string, a: seq<Refresh>, b: seq<Refresh>)
    requires |b| <= 1
    ensures RefreshesOf(q, a + b) == RefreshesOf(q, a) + RefreshesOf(q, b)
  {
    if b == [] {
      assert a + b == a;
    } else {
      assert (a + b)[..|a|] == a;
    }
  }

  /** The refresh that one more addition makes, if any. */
  function NextPair(removed: seq<ManifestEntry>, init: seq<ManifestEntry>, e: ManifestEntry): seq<Refresh> {
    if Truthy(e.fp) && |Of(e.fp.value, init)| < |Of(e.fp.value, removed)| then
      [Refresh(Of(e.fp.value, removed)[|Of(e.fp.value, init)|].row, e.row, e.fp.value)]
    else []
  }

  lemma PairsNext(removed: seq<ManifestEntry>, init: seq<ManifestEntry>, e: ManifestEntry)
    ensures Pairs(removed, init + [e]) == Pairs(removed, init) + NextPair(removed, init, e)
  {
    assert (init + [e])[..|init|] == init;
  }

  lemma OfNext(q: string, init: seq<ManifestEntry>, e: ManifestEntry)
    ensures Of(q, init + [e]) == Of(q, init) + if e.fp == Some(q) then [e] else []
  {
    assert (init + [e])[..|init|] == init;
  }

  /** One more addition makes at most one more refresh, of its own fingerprint. */
  lemma OneMorePair(q: string, removed: seq<ManifestEntry>, init: seq<ManifestEntry>, e: ManifestEntry)
    requires q != ""
    ensures var n := |Of(q, init)|;
      RefreshesOf(q, Pairs(removed, init + [e])) == RefreshesOf(q, Pairs(removed, init)) +
        if e.fp == Some(q) && n < |Of(q, removed)| then [Refresh(Of(q, removed)[n].row, e.row, q)] else []
  {
    hide Pairs, Of;
    PairsNext(removed, init, e);
    RefreshesOfConcat(q, Pairs(removed, init), NextPair(removed, init, e));
    RefreshesOfOne(q, NextPair(removed, init, e));
  }

  lemma RefreshesOfOne(q: string, s: seq<Refresh>)
    requires |s| <= 1
    ensures RefreshesOf(q, s) == if s != [] && s[0].fp == q then s else []
  {
    assert RefreshesOf(q, []) == [];
    assert |s| == 1 ==> s[..0] == [] && s == [s[0]];
  }

  /**
   Per fingerprint the refreshes pair off the first removals with the first additions, in order, as many as there
   are of both.
   */
  lemma {:induction false} RefreshesInOrder(q: string, removed: seq<ManifestEntry>, added: seq<ManifestEntry>)
    requires q != ""
    ensures var r := RefreshesOf(q, Pairs(removed, added));
      && |r| == Min(|Of(q, removed)|, |Of(q, added)|)
      && forall i | 0 <= i < |r| :: r[i] == Refresh(Of(q, removed)[i].row, Of(q, added)[i].row, q)
    decreases |added|
  {
    if added != [] {
      var init, e := added[..|added| - 1], added[|added| - 1];
      assert added == init + [e];
      RefreshesInOrder(q, removed, init);
      OneMorePair(q, removed, init, e);
      OfNext(q, init, e);
      hide RefreshesOf, Pairs, Of;
    }
  }

  lemma {:induction false} DistinctCount(s: seq<ManifestEntry>)
    requires DistinctRows(s)
    ensures |s| == |Rows(s)|
  {
    if s != [] {
      var init, e := s[..|s| - 1], s[|s| - 1];
      DistinctCount(init);
      assert Rows(s) == Rows(init) + {e.row};
      assert e.row !in Rows(init);
    }
  }

  lemma {:induction false} ExcludingDistinct(s: seq<ManifestEntry>, rows: set<Row>)
    requires DistinctRows(s)
    ensures DistinctRows(Excluding(s, rows))
  {
    if s != [] {
      ExcludingDistinct(s[..|s| - 1], rows);
      ExcludingMeaning(s[..|s| - 1], rows);
    }
  }

  lemma {:induction false} OfDistinct(q: string, s: seq<ManifestEntry>)
    requires DistinctRows(s)
    ensures DistinctRows(Of(q, s))
  {
    if s != [] {
      OfDistinct(q, s[..|s| - 1]);
      OfMeaning(q, s[..|s| - 1]);
    }
  }

  /** Which removal each refresh uses: one among the first additions of its fingerprint. */
  lemma {:induction false} PairsUse(removed: seq<ManifestEntry>, added: seq<ManifestEntry>, x: Refresh)
    requires x in Pairs(removed, added)
    ensures exists k: nat :: k < |Of(x.fp, added)| && k < |Of(x.fp, removed)| && x.before == Of(x.fp, removed)[k].row
    decreases |added|
  {
    var init, e := added[..|added| - 1], added[|added| - 1];
    if x in Pairs(removed, init) {
      PairsUse(removed, init, x);
    } else {
      assert x.before == Of(x.fp, removed)[|Of(x.fp, init)|].row;
    }
  }

  /** Among distinct rows every refresh takes a row of its own on each side. */
  lemma {:induction false} PairsCount(removed: seq<ManifestEntry>, added: seq<ManifestEntry>)
    requires DistinctRows(removed) && DistinctRows(added)
    ensures var p := Pairs(removed, added); |Befores(p)| == |p| && |Afters(p)| == |p|
    decreases |added|
  {
    if added != [] {
      var init, e := added[..|added| - 1], added[|added| - 1];
      var p := Pairs(removed, init);
      PairsCount(removed, init);
      if Pairs(removed, added) != p {
        var q := e.fp.value;
        var x := Refresh(Of(q, removed)[|Of(q, init)|].row, e.row, q);
        assert Pairs(removed, added) == p + [x];
        MorePairs(p, x);
        forall y | y in p ensures y.after != x.after && y.before != x.before {
          PairsMeaning(removed, init, y);
          PairsUse(removed, init, y);
          var k: nat :| k < |Of(y.fp, init)| && k < |Of(y.fp, removed)| && y.before == Of(y.fp, removed)[k].row;
          OwnRemoval(removed, y.fp, k, q, |Of(q, init)|);
        }
      }
    }
  }

  /** Among distinct rows, different places in the per-fingerprint lists hold different rows. */
  lemma OwnRemoval(s: seq<ManifestEntry>, p: string, i: nat, q: string, j: nat)
    requires DistinctRows(s) && i < |Of(p, s)| && j < |Of(q, s)|
    ensures Of(p, s)[i].row == Of(q, s)[j].row ==> p == q && i == j
  {
    OfMeaning(p, s);
    OfMeaning(q, s);
    OfDistinct(p, s);
    assert Of(p, s)[i] in Of(p, s) && Of(q, s)[j] in Of(q, s);
  }

  /** With distinct rows the sizes balance: what the file gained is what was added less what was removed. */
  lemma DiffBalances(before: seq<ManifestEntry>, after: seq<ManifestEntry>)
    requires DistinctRows(before) && DistinctRows(after)
    ensures var d := DiffSpec(before, after); |after| - |before| == |d.added| - |d.removed|
  {
    hide Pairs, Excluding, Rows, Befores, Afters;
    var removed, added := RawRemoved(before, after), RawAdded(before, after);
    var p := Pairs(removed, added);
    ExcludingDistinct(before, Rows(after));
    ExcludingDistinct(after, Rows(before));
    PairsCount(removed, added);
    ExcludingMeaning(before, Rows(after));
    ExcludingMeaning(after, Rows(before));
    PairsInside(removed, added);
    ExcludedCount(removed, Befores(p));
    ExcludedCount(added, Afters(p));
    DistinctCount(before);
    DistinctCount(after);
    DistinctCount(removed);
    DistinctCount(added);
    SplitCount(Rows(before), Rows(after));
    SplitCount(Rows(after), Rows(before));
    assert Rows(before) * Rows(after) == Rows(after) * Rows(before);
  }

  lemma SplitCount(a: set<Row>, b: set<Row>)
    ensures |a| == |a - b| + |a * b|
  {
    assert a == (a - b) + a * b;
  }

  lemma ExcludedCount(s: seq<ManifestEntry>, rows: set<Row>)
    requires DistinctRows(s) && rows <= Rows(s)
    ensures |Excluding(s, rows)| == |s| - |rows|
  {
    ExcludingDistinct(s, rows);
    ExcludingMeaning(s, rows);
    DistinctCount(s);
    DistinctCount(Excluding(s, rows));
    assert Rows(s) == (Rows(s) - rows) + rows;
  }

  // ----- What history walks ask of a diff -----

  /** The two manifests hold the same rows but are different sequences. */
  predicate Reordered(before: seq<ManifestEntry>, after: seq<ManifestEntry>) {
    Rows(before) == Rows(after) && before != after
  }

  /** The diff reports a row as brought in exactly when it is new, or when the whole file was reordered. */
  lemma BroughtIn(before: seq<ManifestEntry>, after: seq<ManifestEntry>, r: Row)
    ensures var d := DiffSpec(before, after);
      r in Rows(d.added) + Afters(d.refreshed) <==> r in Rows(after) && (r !in Rows(before) || Reordered(before, after))
  {
    var removed, added := RawRemoved(before, after), RawAdded(before, after);
    var p := Pairs(removed, added);
    ExcludingMeaning(before, Rows(after));
    ExcludingMeaning(after, Rows(before));
    ExcludingMeaning(added, Afters(p));
    ExcludingMeaning(removed, Befores(p));
    PairsInside(removed, added);
    if Matched(before, after) == DiffResult([], [], []) {
      assert Rows(removed) == {} && Rows(added) == {};
      assert Rows(before) == Rows(after);
    } else if Rows(before) == Rows(after) {
      NoneLeft(before, Rows(after));
      NoneLeft(after, Rows(before));
    }
  }

  /** A refresh goes from a row of the old manifest to one of the new, under the fingerprint of both. */
  lemma RefreshEnds(before: seq<ManifestEntry>, after: seq<ManifestEntry>, x: Refresh)
    requires x in DiffSpec(before, after).refreshed
    ensures exists e <- before :: e.row == x.before && e.fp == Some(x.fp)
    ensures exists e <- after :: e.row == x.after && e.fp == Some(x.fp)
  {
    var removed, added := RawRemoved(before, after), RawAdded(before, after);
    PairsMeaning(removed, added, x);
    ExcludingMeaning(before, Rows(after));
    ExcludingMeaning(after, Rows(before));
    var e :| e in removed && e.row == x.before && e.fp == Some(x.fp);
    var f :| f in added && f.row == x.after && f.fp == Some(x.fp);
    assert e in before && f in after;
  }

  /** What stays stays in order. */
  lemma {:induction false} ExcludingConcat(s: seq<ManifestEntry>, s': seq<ManifestEntry>, rows: set<Row>)
    ensures Excluding(s + s', rows) == Excluding(s, rows) + Excluding(s', rows)
    decreases |s'|
  {
    if s' == [] {
      assert s + s' == s;
    } else {
      var init := s'[..|s'| - 1];
      ExcludingConcat(s, init, rows);
      assert (s + s')[..|s + s'| - 1] == s + init;
    }
  }

  /** The same rows in another sequence are reported as replaced in full. */
  lemma ReorderReported(before: seq<ManifestEntry>, after: seq<ManifestEntry>)
    requires Rows(before) == Rows(after) && before != after
    ensures DiffSpec(before, after) == DiffResult(after, before, [])
  {
    NoneLeft(before, Rows(after));
    NoneLeft(after, Rows(before));
  }

  lemma NotReordered(before: seq<ManifestEntry>, after: seq<ManifestEntry>)
    requires Rows(before) != Rows(after)
    ensures DiffSpec(before, after) == Matched(before, after)
  {
    var r, a := RawRemoved(before, after), RawAdded(before, after);
    ExcludingMeaning(before, Rows(after));
    ExcludingMeaning(after, Rows(before));
    ExcludingMeaning(a, {});
    ExcludingMeaning(r, {});
    assert forall e <- after | e.row !in Rows(before) :: e in a;
    assert forall e <- before | e.row !in Rows(after) :: e in r;
    assert Pairs(r, a) == [] ==> Afters(Pairs(r, a)) == {} && Befores(Pairs(r, a)) == {};
  }

  /** Two rows of one fingerprint, the only ones of it to go and to come, are reported as a refresh. */
  lemma RefreshReported(before: seq<ManifestEntry>, after: seq<ManifestEntry>, e: ManifestEntry, f: ManifestEntry)
    requires e in before && e.row !in Rows(after) && f in after && f.row !in Rows(before)
    requires Truthy(e.fp) && f.fp == e.fp
    requires forall x <- before | x.fp == e.fp && x.row !in Rows(after) :: x == e
    requires forall x <- after | x.fp == e.fp && x.row !in Rows(before) :: x == f
    ensures var d := DiffSpec(before, after);
      && Refresh(e.row, f.row, e.fp.value) in d.refreshed
      && e.row !in Rows(d.removed) && f.row !in Rows(d.added)
  {
    var r, a, q := RawRemoved(before, after), RawAdded(before, after), e.fp.value;
    NotReordered(before, after);
    ExcludingMeaning(before, Rows(after));
    ExcludingMeaning(after, Rows(before));
    OfMeaning(q, r);
    OfMeaning(q, a);
    RefreshesInOrder(q, r, a);
    hide RawRemoved, RawAdded, Excluding, Of, Pairs;
    assert e in Of(q, r) && f in Of(q, a);
    var found := RefreshesOf(q, Pairs(r, a));
    assert Of(q, r)[0] == e by { assert Of(q, r)[0] in Of(q, r); }
    assert Of(q, a)[0] == f by { assert Of(q, a)[0] in Of(q, a); }
    assert found[0] == Refresh(e.row, f.row, q) && found[0] in found;
    RefreshesInside(q, Pairs(r, a));
    ExcludingMeaning(r, Befores(Pairs(r, a)));
    ExcludingMeaning(a, Afters(Pairs(r, a)));
  }

  lemma {:induction false} RefreshesInside(q: string, p: seq<Refresh>)
    ensures forall x <- RefreshesOf(q, p) :: x in p
  {
    if p != [] {
      RefreshesInside(q, p[..|p| - 1]);
    }
  }

  /** A new row without a vanished row of its fingerprint is reported as added, with its entry. */
  lemma AdditionReported(before: seq<ManifestEntry>, after: seq<ManifestEntry>, f: ManifestEntry)
    requires f in after && f.row !in Rows(before)
    requires Honest(after)
    requires forall x <- before | x.fp == f.fp && x.row !in Rows(after) :: !Truthy(x.fp)
    ensures f in DiffSpec(before, after).added
  {
    var r, a := RawRemoved(before, after), RawAdded(before, after);
    NotReordered(before, after);
    ExcludingMeaning(before, Rows(after));
    ExcludingMeaning(after, Rows(before));
    ExcludingMeaning(a, Afters(Pairs(r, a)));
    hide Excluding, Pairs;
    assert f in a;
    forall x | x in Pairs(r, a) ensures x.after != f.row {
      PairsMeaning(r, a, x);
    }
  }

  /** A vanished row without a new row of its fingerprint is reported as removed, with its entry. */
  lemma RemovalReported(before: seq<ManifestEntry>, after: seq<ManifestEntry>, e: ManifestEntry)
    requires e in before && e.row !in Rows(after)
    requires Honest(before)
    requires forall x <- after | x.fp == e.fp && x.row !in Rows(before) :: !Truthy(x.fp)
    ensures e in DiffSpec(before, after).removed
  {
    var r, a := RawRemoved(before, after), RawAdded(before, after);
    NotReordered(before, after);
    ExcludingMeaning(before, Rows(after));
    ExcludingMeaning(after, Rows(before));
    ExcludingMeaning(r, Befores(Pairs(r, a)));
    hide Excluding, Pairs;
    assert e in r;
    forall x | x in Pairs(r, a) ensures x.before != e.row {
      PairsMeaning(r, a, x);
    }
  }
}
