/** Which commit a row of a file comes from, and what became of the row along the first-parent history. */
module Blame {
  import opened Objects
  import opened Paths
  import opened Trees
  import opened TreeWalker
  import opened Merge
  import opened Diff

  /** Python's p.lstrip("/"). */
  function LStrip(p: string): string {
    if p != "" && p[0] == '/' then LStrip(p[1..]) else p
  }

  /** The manifest a commit has for a path, if commit, path and manifest object are all there. */
  function ManifestAt(objs: set<ObjId>, c: Commit, path: string): Option<seq<ManifestEntry>> {
    if CommitId(c) !in objs then None else
      var flat, clean := Flatten(objs, c.tree, ""), LStrip(path);
      if clean !in flat || !flat[clean].target.ManifestTarget? then None else
        var m := flat[clean].target.manifest;
        if ManifestId(m) !in objs then None else Some(m.entries)
  }

  method TryGetManifest(objs: set<ObjId>, c: Commit, path: string) returns (r: Option<seq<ManifestEntry>>)
    ensures r == ManifestAt(objs, c, path)
  {
    if CommitId(c) !in objs {
      return None;
    }
    var flat := FlattenTree(objs, c.tree, "");
    var clean := LStrip(path);
    if clean !in flat {
      return None;
    }
    if !flat[clean].target.ManifestTarget? {
      return None;
    }
    var m := flat[clean].target.manifest;
    if ManifestId(m) !in objs {
      return None;
    }
    return Some(m.entries);
  }

  /**
   What a commit has for a path, on a tree built from staged files: all entries of the manifest staged
   there, in order, if its object is present; slashes in front of the path do not matter.
   */
  lemma ManifestAtMeaning(objs: set<ObjId>, c: Commit, staged: map<string, Leaf>, path: string)
    requires CommitId(c) in objs && Built(objs, c.tree, staged)
    requires forall p <- staged :: !StartsWith(p, "/")
    ensures !StartsWith(path, "/") ==>
      ManifestAt(objs, c, path) ==
        if path in staged && staged[path].target.ManifestTarget? && ManifestId(staged[path].target.manifest) in objs
        then Some(staged[path].target.manifest.entries)
        else None
    ensures ManifestAt(objs, c, "/" + path) == ManifestAt(objs, c, path)
  {
    RoundTrip(objs, c.tree, staged);
    assert ("/" + path)[1..] == path;
    assert path != "" && path[0] == '/' ==> StartsWith(path, "/");
    hide Flatten;
  }

  /** Without the commit there is no version of any file. */
  lemma NoCommitNoManifest(objs: set<ObjId>, c: Commit, path: string)
    requires CommitId(c) !in objs
    ensures ManifestAt(objs, c, path).None?
  {
  }

  function ParentManifest(objs: set<ObjId>, c: Commit, path: string): Option<seq<ManifestEntry>> {
    if c.parents == [] then None else ManifestAt(objs, c.parents[0], path)
  }

  /**
   The commit is where the row came in, judged by its first parent: there is none, or it lacks the file,
   or it lacks the row, or it has the same rows in another sequence.
   */
  predicate Introduces(objs: set<ObjId>, c: Commit, path: string, r: Row)
    requires ManifestAt(objs, c, path).Some?
  {
    var p := ParentManifest(objs, c, path);
    p.None? || r !in Rows(p.value) || Reordered(p.value, ManifestAt(objs, c, path).value)
  }

  /** The nearest commit along first parents that introduces the row. */
  function Origin(objs: set<ObjId>, c: Commit, path: string, r: Row): Commit
    requires ManifestAt(objs, c, path).Some?
  {
    if Introduces(objs, c, path, r) then c else Origin(objs, c.parents[0], path, r)
  }

  /** The commit `n` steps back along first parents. */
  ghost function Back(c: Commit, n: nat): Option<Commit> {
    if n == 0 then Some(c) else if c.parents == [] then None else Back(c.parents[0], n - 1)
  }

  /** Blame names the nearest commit along first parents that has the file and introduces the row. */
  lemma {:induction false} OriginNearest(objs: set<ObjId>, c: Commit, path: string, r: Row) returns (n: nat)
    requires ManifestAt(objs, c, path).Some?
    ensures Back(c, n) == Some(Origin(objs, c, path, r))
    ensures ManifestAt(objs, Origin(objs, c, path, r), path).Some?
    ensures Introduces(objs, Origin(objs, c, path, r), path, r)
    ensures forall k: nat | k < n ::
      Back(c, k).Some? && ManifestAt(objs, Back(c, k).value, path).Some? && !Introduces(objs, Back(c, k).value, path, r)
    decreases c
  {
    hide ManifestAt;
    n := 0;
    if !Introduces(objs, c, path, r) {
      var m := OriginNearest(objs, c.parents[0], path, r);
      n := m + 1;
      forall k: nat | k < n
        ensures Back(c, k).Some? && ManifestAt(objs, Back(c, k).value, path).Some? &&
          !Introduces(objs, Back(c, k).value, path, r)
      {
        if k > 0 {
          assert Back(c, k) == Back(c.parents[0], k - 1);
        }
      }
    }
  }

  datatype BlameLine = BlameLine(index: nat, row: Row, commit: Commit, author: string, timestamp: int,
    fp: Option<string>)

  function InSeq(rows: seq<Row>): set<Row> {
    set r <- rows
  }

  /** Attribute to `c` those of the given rows that are not attributed yet. */
  method Attribute(rows: seq<Row>, c: Commit, map0: map<Row, Commit>, left0: set<Row>)
    returns (blame: map<Row, Commit>, left: set<Row>)
    requires left0 !! map0.Keys
    ensures left == left0 - InSeq(rows)
    ensures blame == map r | r in map0.Keys + (left0 * InSeq(rows)) :: if r in map0 then map0[r] else c
  {
    blame, left := map0, left0;
    for i := 0 to |rows|
      invariant left == left0 - InSeq(rows[..i])
      invariant blame == map r | r in map0.Keys + (left0 * InSeq(rows[..i])) :: if r in map0 then map0[r] else c
    {
      assert InSeq(rows[..i + 1]) == InSeq(rows[..i]) + {rows[i]} by { assert rows[..i + 1] == rows[..i] + [rows[i]]; }
      if rows[i] in left {
        blame := blame[rows[i] := c];
        left := left - {rows[i]};
      }
    }
    assert rows[..|rows|] == rows;
  }

  function RowSeq(s: seq<ManifestEntry>): seq<Row> {
    seq(|s|, i requires 0 <= i < |s| => s[i].row)
  }

  function AfterSeq(s: seq<Refresh>): seq<Row> {
    seq(|s|, i requires 0 <= i < |s| => s[i].after)
  }

  lemma RowSeqSet(s: seq<ManifestEntry>)
    ensures InSeq(RowSeq(s)) == Rows(s)
  {
    forall e | e in s ensures e.row in RowSeq(s) {
      var i :| 0 <= i < |s| && s[i] == e;
      assert RowSeq(s)[i] == e.row;
    }
  }

  lemma AfterSeqSet(s: seq<Refresh>)
    ensures InSeq(AfterSeq(s)) == Afters(s)
  {
    forall x | x in s ensures x.after in AfterSeq(s) {
      var i :| 0 <= i < |s| && s[i] == x;
      assert AfterSeq(s)[i] == x.after;
    }
  }

  /** The rows a diff brings in. */
  function Found(p: seq<ManifestEntry>, m: seq<ManifestEntry>): set<Row> {
    Rows(DiffSpec(p, m).added) + Afters(DiffSpec(p, m).refreshed)
  }

  /** Attribute first the added and then the refreshed rows of the diff between two versions of the file. */
  method AttributeDiff(p: seq<ManifestEntry>, m: seq<ManifestEntry>, c: Commit, map0: map<Row, Commit>,
      left0: set<Row>)
    returns (blame: map<Row, Commit>, left: set<Row>)
    requires left0 !! map0.Keys
    ensures left == left0 - Found(p, m)
    ensures blame == map r | r in map0.Keys + (left0 * Found(p, m)) :: if r in map0 then map0[r] else c
  {
    hide DiffSpec, Rows, Afters;
    var d := DiffManifests(p, m);
    RowSeqSet(d.added);
    AfterSeqSet(d.refreshed);
    blame, left := Attribute(RowSeq(d.added), c, map0, left0);
    blame, left := Attribute(AfterSeq(d.refreshed), c, blame, left);
  }

  /** Where the walk stands: rows still open have the same origin from `current` as from the start. */
  ghost predicate Blaming(objs: set<ObjId>, path: string, start: Commit, rows: set<Row>, current: Commit,
      m: seq<ManifestEntry>, left: set<Row>, blame: map<Row, Commit>)
    requires ManifestAt(objs, start, path).Some?
  {
    && ManifestAt(objs, current, path) == Some(m)
    && left <= Rows(m) && left !! blame.Keys && left + blame.Keys == rows
    && (forall r <- left :: Origin(objs, current, path, r) == Origin(objs, start, path, r))
    && (forall r <- blame :: blame[r] == Origin(objs, start, path, r))
  }

  lemma StepBack(objs: set<ObjId>, path: string, start: Commit, rows: set<Row>, c: Commit, m: seq<ManifestEntry>,
      left: set<Row>, blame: map<Row, Commit>, p: seq<ManifestEntry>, left': set<Row>, blame': map<Row, Commit>)
    requires ManifestAt(objs, start, path).Some? && Blaming(objs, path, start, rows, c, m, left, blame)
    requires ParentManifest(objs, c, path) == Some(p)
    requires var found := left * Found(p, m);
      && left' == left - Found(p, m)
      && blame' == map r | r in blame.Keys + found :: if r in blame then blame[r] else c
    ensures Blaming(objs, path, start, rows, c.parents[0], p, left', blame')
  {
    forall r | r in left ensures r in Found(p, m) <==> Introduces(objs, c, path, r) {
      BroughtIn(p, m, r);
    }
  }

  /** A commit without a parent version of the file introduces every row. */
  lemma StopHere(objs: set<ObjId>, path: string, start: Commit, rows: set<Row>, c: Commit, m: seq<ManifestEntry>,
      left: set<Row>, blame: map<Row, Commit>, blame': map<Row, Commit>)
    requires ManifestAt(objs, start, path).Some? && Blaming(objs, path, start, rows, c, m, left, blame)
    requires ParentManifest(objs, c, path).None?
    requires blame' == map r | r in blame.Keys + left :: if r in blame then blame[r] else c
    ensures Attributed(objs, path, start, rows, blame')
  {
    hide ManifestAt;
  }

  ghost predicate Attributed(objs: set<ObjId>, path: string, start: Commit, rows: set<Row>, blame: map<Row, Commit>)
    requires ManifestAt(objs, start, path).Some?
  {
    blame.Keys == rows && forall r <- blame :: blame[r] == Origin(objs, start, path, r)
  }

  /** The walk along first parents. */
  method WalkBack(objs: set<ObjId>, start: Commit, path: string, target: seq<ManifestEntry>)
    returns (blame: map<Row, Commit>)
    requires ManifestAt(objs, start, path) == Some(target)
    ensures Attributed(objs, path, start, Rows(target), blame)
  {
    assert CommitId(start) in objs;
    hide Found, ManifestAt, Blaming, Attributed;
    var left := Rows(target);
    blame := map[];
    var current, manifest := start, target;
    BlamingInitially(objs, path, start, target);
    while left != {}
      invariant Blaming(objs, path, start, Rows(target), current, manifest, left, blame)
      decreases current, left
    {
      BlamingNow(objs, path, start, Rows(target), current, manifest, left, blame);
      if CommitId(current) !in objs {
        break;
      }
      var parent := None;
      if current.parents != [] {
        parent := TryGetManifest(objs, current.parents[0], path);
      }
      ghost var left0, blame0 := left, blame;
      if parent.None? {
        RowSeqSet(target);
        blame, left := Attribute(RowSeq(target), current, blame, left);
        assert left0 * Rows(target) == left0;
        StopHere(objs, path, start, Rows(target), current, manifest, left0, blame0, blame);
        return;
      }
      blame, left := AttributeDiff(parent.value, manifest, current, blame, left);
      StepBack(objs, path, start, Rows(target), current, manifest, left0, blame0, parent.value, left, blame);
      current, manifest := current.parents[0], parent.value;
    }
    BlamingDone(objs, path, start, Rows(target), current, manifest, blame);
  }

  lemma BlamingInitially(objs: set<ObjId>, path: string, start: Commit, target: seq<ManifestEntry>)
    requires ManifestAt(objs, start, path) == Some(target)
    ensures Blaming(objs, path, start, Rows(target), start, target, Rows(target), map[])
  {
  }

  lemma BlamingNow(objs: set<ObjId>, path: string, start: Commit, rows: set<Row>, c: Commit, m: seq<ManifestEntry>,
      left: set<Row>, blame: map<Row, Commit>)
    requires ManifestAt(objs, start, path).Some? && Blaming(objs, path, start, rows, c, m, left, blame)
    ensures CommitId(c) in objs && left !! blame.Keys && left <= rows
  {
  }

  lemma BlamingDone(objs: set<ObjId>, path: string, start: Commit, rows: set<Row>, c: Commit, m: seq<ManifestEntry>,
      blame: map<Row, Commit>)
    requires ManifestAt(objs, start, path).Some? && Blaming(objs, path, start, rows, c, m, {}, blame)
    ensures Attributed(objs, path, start, rows, blame)
  {
  }

  function LineFor(start: Commit, blame: map<Row, Commit>, i: nat, e: ManifestEntry): BlameLine {
    if e.row in blame then BlameLine(i, e.row, blame[e.row], blame[e.row].author, blame[e.row].timestamp, e.fp)
    else BlameLine(i, e.row, start, "unknown", 0, e.fp)
  }

  method Report(start: Commit, target: seq<ManifestEntry>, blame: map<Row, Commit>) returns (lines: seq<BlameLine>)
    ensures |lines| == |target| && forall i | 0 <= i < |target| :: lines[i] == LineFor(start, blame, i, target[i])
  {
    lines := [];
    for i := 0 to |target|
      invariant |lines| == i && forall j | 0 <= j < i :: lines[j] == LineFor(start, blame, j, target[j])
    {
      lines := lines + [LineFor(start, blame, i, target[i])];
    }
  }

  /** Every row gets a line naming its origin; the fallback author never appears. */
  method BlameFile(objs: set<ObjId>, start: Commit, path: string) returns (lines: Option<seq<BlameLine>>)
    ensures lines.Some? <==> ManifestAt(objs, start, path).Some?
    ensures lines.Some? ==> |lines.value| == |ManifestAt(objs, start, path).value|
    ensures lines.Some? ==> forall i | 0 <= i < |lines.value| ::
      var e := ManifestAt(objs, start, path).value[i];
      var c := Origin(objs, start, path, e.row);
      lines.value[i] == BlameLine(i, e.row, c, c.author, c.timestamp, e.fp)
  {
    hide ManifestAt;
    var found := TryGetManifest(objs, start, path);
    if found.None? {
      return None;
    }
    var blame := WalkBack(objs, start, path, found.value);
    var out := Report(start, found.value, blame);
    return Some(out);
  }

  // ----- Row history -----

  datatype EventKind = Added | Refreshed

  datatype Event = Event(commit: Commit, kind: EventKind, row: Row)

  /** The first refresh that produced the row. */
  function FirstRefresh(p: seq<Refresh>, r: Row): (x: Option<Refresh>)
    ensures x.Some? <==> r in Afters(p)
    ensures x.Some? ==> x.value in p && x.value.after == r
  {
    if p == [] then None
    else if p[0].after == r then Some(p[0])
    else
      assert p == [p[0]] + p[1..];
      FirstRefresh(p[1..], r)
  }

  /** What happened to the row, newest first, following refreshes back to the row they replaced. */
  function History(objs: set<ObjId>, c: Commit, path: string, r: Row): seq<Event>
    requires ManifestAt(objs, c, path).Some? && r in Rows(ManifestAt(objs, c, path).value)
  {
    var p := ParentManifest(objs, c, path);
    if p.None? then [Event(c, Added, r)] else
      var m := ManifestAt(objs, c, path).value;
      var d := DiffSpec(p.value, m);
      if r in Rows(d.added) then [Event(c, Added, r)] else
        var x := FirstRefresh(d.refreshed, r);
        if x.Some? then
          RefreshEnds(p.value, m, x.value);
          [Event(c, Refreshed, r)] + History(objs, c.parents[0], path, x.value.before)
        else
          BroughtIn(p.value, m, r);
          History(objs, c.parents[0], path, r)
  }

  datatype HistoryResult = NoFile | OutOfRange | Events(fp: Option<string>, events: seq<Event>)

  method FindAdded(added: seq<ManifestEntry>, r: Row) returns (found: bool)
    ensures found <==> r in Rows(added)
  {
    for i := 0 to |added|
      invariant r !in Rows(added[..i])
    {
      if added[i].row == r {
        return true;
      }
      assert added[..i + 1] == added[..i] + [added[i]];
    }
    assert added[..|added|] == added;
    return false;
  }

  method FindRefresh(refreshed: seq<Refresh>, r: Row) returns (x: Option<Refresh>)
    ensures x == FirstRefresh(refreshed, r)
  {
    for i := 0 to |refreshed|
      invariant FirstRefresh(refreshed, r) == FirstRefresh(refreshed[i..], r)
    {
      assert refreshed[i..][0] == refreshed[i] && refreshed[i..][1..] == refreshed[i + 1..];
      if refreshed[i].after == r {
        return Some(refreshed[i]);
      }
    }
    return None;
  }

  /** The events of the row at a position, newest first, or the reason there are none. */
  method RowHistory(objs: set<ObjId>, start: Commit, path: string, index: int) returns (r: HistoryResult)
    ensures r == match ManifestAt(objs, start, path)
      case None => NoFile
      case Some(m) =>
        if 0 <= index < |m| then Events(m[index].fp, History(objs, start, path, m[index].row)) else OutOfRange
  {
    hide ManifestAt, DiffSpec;
    var target := TryGetManifest(objs, start, path);
    if target.None? {
      return NoFile;
    }
    if index < 0 || index >= |target.value| {
      return OutOfRange;
    }
    var entry := target.value[index];
    var tracked := entry.row;
    var events: seq<Event> := [];
    var current, manifest := start, target.value;
    while CommitId(current) in objs
      invariant ManifestAt(objs, current, path) == Some(manifest) && tracked in Rows(manifest)
      invariant events + History(objs, current, path, tracked) == History(objs, start, path, entry.row)
      decreases current
    {
      var parent := None;
      if current.parents != [] {
        parent := TryGetManifest(objs, current.parents[0], path);
      }
      if parent.None? {
        events := events + [Event(current, Added, tracked)];
        return Events(entry.fp, events);
      }
      var d := DiffManifests(parent.value, manifest);
      var added := FindAdded(d.added, tracked);
      if added {
        events := events + [Event(current, Added, tracked)];
        return Events(entry.fp, events);
      }
      var x := FindRefresh(d.refreshed, tracked);
      HistoryStep(objs, current, path, tracked);
      if x.Some? {
        events := events + [Event(current, Refreshed, tracked)];
        tracked := x.value.before;
      }
      current, manifest := current.parents[0], parent.value;
    }
    ManifestHere(objs, current, path);
  }

  lemma ManifestHere(objs: set<ObjId>, c: Commit, path: string)
    requires ManifestAt(objs, c, path).Some?
    ensures CommitId(c) in objs
  {
  }

  /** What remains of the history once the diff at a commit has not added the row. */
  lemma HistoryStep(objs: set<ObjId>, c: Commit, path: string, r: Row)
    requires ManifestAt(objs, c, path).Some? && r in Rows(ManifestAt(objs, c, path).value)
    requires var p := ParentManifest(objs, c, path);
      p.Some? && r !in Rows(DiffSpec(p.value, ManifestAt(objs, c, path).value).added)
    ensures var p := ParentManifest(objs, c, path).value;
      match FirstRefresh(DiffSpec(p, ManifestAt(objs, c, path).value).refreshed, r)
      case None => r in Rows(p) && History(objs, c, path, r) == History(objs, c.parents[0], path, r)
      case Some(x) =>
        x.before in Rows(p) &&
        History(objs, c, path, r) == [Event(c, Refreshed, r)] + History(objs, c.parents[0], path, x.before)
  {
    hide ManifestAt, DiffSpec;
    var p, m := ParentManifest(objs, c, path).value, ManifestAt(objs, c, path).value;
    var x := FirstRefresh(DiffSpec(p, m).refreshed, r);
    if x.Some? {
      RefreshEnds(p, m, x.value);
    } else {
      BroughtIn(p, m, r);
    }
  }

  /** Every history goes back to the addition of the row, through refreshes only. */
  lemma {:induction false} HistoryEndsAdded(objs: set<ObjId>, c: Commit, path: string, r: Row)
    requires ManifestAt(objs, c, path).Some? && r in Rows(ManifestAt(objs, c, path).value)
    ensures var h := History(objs, c, path, r);
      && h != [] && h[0].row == r && h[|h| - 1].kind == Added
      && forall i | 0 <= i < |h| - 1 :: h[i].kind == Refreshed
    decreases c
  {
    hide ManifestAt, DiffSpec;
    var p := ParentManifest(objs, c, path);
    if p.Some? && r !in Rows(DiffSpec(p.value, ManifestAt(objs, c, path).value).added) {
      HistoryStep(objs, c, path, r);
      var x := FirstRefresh(DiffSpec(p.value, ManifestAt(objs, c, path).value).refreshed, r);
      HistoryEndsAdded(objs, c.parents[0], path, if x.Some? then x.value.before else r);
    }
  }

  /** The refresh at `newer` replaced the row of `older`. */
  ghost predicate Linked(objs: set<ObjId>, path: string, newer: Event, older: Event) {
    var p, m := ParentManifest(objs, newer.commit, path), ManifestAt(objs, newer.commit, path);
    && p.Some? && m.Some?
    && exists x <- DiffSpec(p.value, m.value).refreshed :: x.after == newer.row && x.before == older.row
  }

  /** Consecutive events are joined by a refresh from the older row to the newer one. */
  lemma {:induction false} HistoryLinks(objs: set<ObjId>, c: Commit, path: string, r: Row)
    requires ManifestAt(objs, c, path).Some? && r in Rows(ManifestAt(objs, c, path).value)
    ensures var h := History(objs, c, path, r);
      forall i | 0 <= i < |h| - 1 :: Linked(objs, path, h[i], h[i + 1])
    decreases c
  {
    hide ManifestAt, DiffSpec;
    var p := ParentManifest(objs, c, path);
    if p.Some? && r !in Rows(DiffSpec(p.value, ManifestAt(objs, c, path).value).added) {
      HistoryStep(objs, c, path, r);
      var x := FirstRefresh(DiffSpec(p.value, ManifestAt(objs, c, path).value).refreshed, r);
      var older := if x.Some? then x.value.before else r;
      HistoryLinks(objs, c.parents[0], path, older);
      HistoryEndsAdded(objs, c.parents[0], path, older);
    }
  }

  /** Every version of the file along first parents records the fingerprints of its rows. */
  ghost predicate HonestBack(objs: set<ObjId>, c: Commit, path: string) {
    && (ManifestAt(objs, c, path).Some? ==> Honest(ManifestAt(objs, c, path).value))
    && (c.parents != [] ==> HonestBack(objs, c.parents[0], path))
  }

  /** A history keeps to one fingerprint. */
  lemma {:induction false} HistoryOneFingerprint(objs: set<ObjId>, c: Commit, path: string, r: Row)
    requires ManifestAt(objs, c, path).Some? && r in Rows(ManifestAt(objs, c, path).value)
    requires HonestBack(objs, c, path)
    ensures forall e <- History(objs, c, path, r) :: e.row.fingerprint == r.fingerprint
    decreases c
  {
    hide ManifestAt, DiffSpec;
    var p, m := ParentManifest(objs, c, path), ManifestAt(objs, c, path).value;
    if p.Some? && r !in Rows(DiffSpec(p.value, m).added) {
      HistoryStep(objs, c, path, r);
      var x := FirstRefresh(DiffSpec(p.value, m).refreshed, r);
      if x.Some? {
        RefreshEnds(p.value, m, x.value);
      }
      HistoryOneFingerprint(objs, c.parents[0], path, if x.Some? then x.value.before else r);
    }
  }

  /** The newest event names the commit that blame names. */
  lemma {:induction false} HistoryNewest(objs: set<ObjId>, c: Commit, path: string, r: Row)
    requires ManifestAt(objs, c, path).Some? && r in Rows(ManifestAt(objs, c, path).value)
    ensures var h := History(objs, c, path, r); h != [] && h[0].commit == Origin(objs, c, path, r)
    decreases c
  {
    hide ManifestAt, DiffSpec;
    var p, m := ParentManifest(objs, c, path), ManifestAt(objs, c, path).value;
    if p.Some? {
      BroughtIn(p.value, m, r);
      var d := DiffSpec(p.value, m);
      if r !in Rows(d.added) && FirstRefresh(d.refreshed, r).None? {
        HistoryStep(objs, c, path, r);
        HistoryNewest(objs, c.parents[0], path, r);
      }
    }
  }

  /** Each older event is what blame says of the replaced row just before the refresh. */
  lemma {:induction false} HistoryIsIteratedBlame(objs: set<ObjId>, c: Commit, path: string, r: Row)
    requires ManifestAt(objs, c, path).Some? && r in Rows(ManifestAt(objs, c, path).value)
    ensures var h := History(objs, c, path, r);
      forall i | 0 <= i < |h| - 1 ::
        && h[i].commit.parents != [] && ManifestAt(objs, h[i].commit.parents[0], path).Some?
        && h[i + 1].commit == Origin(objs, h[i].commit.parents[0], path, h[i + 1].row)
    decreases c
  {
    hide ManifestAt, DiffSpec;
    var p, m := ParentManifest(objs, c, path), ManifestAt(objs, c, path).value;
    if p.Some? && r !in Rows(DiffSpec(p.value, m).added) {
      HistoryStep(objs, c, path, r);
      var x := FirstRefresh(DiffSpec(p.value, m).refreshed, r);
      var older := if x.Some? then x.value.before else r;
      HistoryIsIteratedBlame(objs, c.parents[0], path, older);
      HistoryNewest(objs, c.parents[0], path, older);
      HistoryEndsAdded(objs, c.parents[0], path, older);
    }
  }

  /** A reorder of the file moves the blame of every row to the reordering commit. */
  lemma ReorderTakesBlame(objs: set<ObjId>, c: Commit, path: string, r: Row)
    requires ManifestAt(objs, c, path).Some? && ParentManifest(objs, c, path).Some?
    requires Reordered(ParentManifest(objs, c, path).value, ManifestAt(objs, c, path).value)
    requires r in Rows(ManifestAt(objs, c, path).value)
    ensures var h := History(objs, c, path, r); Origin(objs, c, path, r) == c && h != [] && h[0].commit == c
  {
    HistoryNewest(objs, c, path, r);
  }
}
