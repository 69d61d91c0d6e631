/** Bringing the working files from one tree to another by touching only what differs. */
module Checkout {
  import opened Objects
  import opened Paths
  import opened Trees
  import opened TreeWalker

  // ----- Directories -----

  /** The directories above a path. */
  function Dirs(p: string): set<string> {
    set i | 0 < i < |p| && p[i] == '/' :: p[..i]
  }

  function AllDirs(paths: set<string>): set<string> {
    set p, d | p in paths && d in Dirs(p) :: d
  }

  /** No path is a directory above another. */
  ghost predicate ClashFree(paths: set<string>) {
    paths !! AllDirs(paths)
  }

  lemma DirsIff(p: string, d: string)
    ensures d in Dirs(p) <==> d != "" && d + "/" <= p
  {
    if d + "/" <= p {
      assert p[..|d| + 1] == d + "/";
      assert p[..|d| + 1][|d|] == '/' && p[..|d| + 1][..|d|] == d == p[..|d|];
    }
    if d in Dirs(p) {
      var i :| 0 < i < |p| && p[i] == '/' && d == p[..i];
      assert d + "/" == p[..i + 1];
    }
  }

  lemma DirsNested(p: string, d: string, c: string)
    requires d in Dirs(p) && c in Dirs(p)
    ensures |c| < |d| ==> c in Dirs(d)
    ensures |c| == |d| ==> c == d
  {
    DirsIff(p, d);
    DirsIff(p, c);
    DirsIff(d, c);
    assert d == p[..|d|] && c == p[..|c|];
    assert |c| < |d| ==> p[..|c| + 1] == c + "/" && d[..|c| + 1] == p[..|c| + 1];
  }

  lemma DirsTrans(p: string, d: string, c: string)
    requires d in Dirs(p) && c in Dirs(d)
    ensures c in Dirs(p)
  {
    DirsIff(p, d);
    DirsIff(d, c);
    DirsIff(p, c);
  }

  lemma AllDirsMore(paths: set<string>, p: string)
    ensures AllDirs(paths + {p}) == AllDirs(paths) + Dirs(p)
  {
  }

  lemma AllDirsMono(a: set<string>, b: set<string>)
    requires a <= b
    ensures AllDirs(a) <= AllDirs(b)
    ensures ClashFree(b) ==> ClashFree(a)
  {
  }

  lemma AllDirsUnion(a: set<string>, b: set<string>)
    ensures AllDirs(a + b) == AllDirs(a) + AllDirs(b)
  {
  }

  /** Files and directories of a file system: all directories above are there, and nothing is both. */
  ghost predicate WellFormed(files: set<string>, dirs: set<string>) {
    AllDirs(files) <= dirs && AllDirs(dirs) <= dirs && files !! dirs
  }

  /** The paths can be written: with them there, nothing is both a file and a directory. */
  ghost predicate Fits(files: set<string>, dirs: set<string>, paths: set<string>) {
    (files + paths) !! (dirs + AllDirs(paths))
  }

  /** Adding one path to a well-formed file system. */
  lemma PutOne(files: set<string>, dirs: set<string>, p: string)
    requires WellFormed(files, dirs)
    ensures p !in Dirs(p) && (Fits(files, dirs, {p}) <==> p !in dirs && Dirs(p) !! files)
    ensures Fits(files, dirs, {p}) ==> WellFormed(files + {p}, dirs + Dirs(p))
  {
    AllDirsMore({}, p);
    assert {} + {p} == {p};
    assert AllDirs({p}) == Dirs(p);
    AllDirsMore(files, p);
    forall d, c | d in Dirs(p) && c in Dirs(d) ensures c in Dirs(p) { DirsTrans(p, d, c); }
    AllDirsUnion(dirs, Dirs(p));
    assert p !in Dirs(p);
  }

  /** Where one path of several does not fit on top of others, they do not fit together. */
  lemma FitsMore(files: set<string>, dirs: set<string>, done: set<string>, p: string, all: set<string>)
    requires done + {p} <= all
    ensures Fits(files, dirs, all) ==> Fits(files + done, dirs + AllDirs(done), {p})
    ensures AllDirs(done + {p}) == AllDirs(done) + Dirs(p)
  {
    AllDirsMore(done, p);
    AllDirsMore({}, p);
    assert {} + {p} == {p};
    AllDirsMono(done, all);
    AllDirsMono({p}, all);
  }

  /** Fitting in two steps is fitting at once. */
  lemma FitsTwice(files: set<string>, dirs: set<string>, first: set<string>, second: set<string>)
    ensures Fits(files, dirs, first + second) <==>
      Fits(files, dirs, first) && Fits(files + first, dirs + AllDirs(first), second)
    ensures dirs + AllDirs(first + second) == dirs + AllDirs(first) + AllDirs(second)
  {
    AllDirsUnion(first, second);
  }

  /**
   The directories left after deleting the files `gone` and each directory that this leaves empty: of
   those above a deleted file, the ones with another file in them, or a directory above no deleted file.
   */
  function KeptDirs(files: set<string>, dirs: set<string>, gone: set<string>): set<string> {
    set d <- dirs | d !in AllDirs(gone) || Holds(d, (files - gone) + (dirs - AllDirs(gone)))
  }

  predicate Holds(d: string, paths: set<string>) {
    exists x <- paths :: d + "/" <= x
  }

  /** Only a directory above a deleted file goes, and only when nothing of what is left is in it. */
  lemma KeptMeaning(files: set<string>, dirs: set<string>, gone: set<string>, d: string)
    requires gone <= files && d in dirs
    ensures (forall g <- gone :: !(d != "" && d + "/" <= g)) ==> d in KeptDirs(files, dirs, gone)
    ensures (exists x <- files - gone :: d + "/" <= x) ==> d in KeptDirs(files, dirs, gone)
    ensures d in KeptDirs(files, dirs, gone) && (exists g <- gone :: d != "" && d + "/" <= g) ==>
      exists x <- (files - gone) + KeptDirs(files, dirs, gone) :: d + "/" <= x
  {
    forall g | g in gone ensures d in Dirs(g) <==> d != "" && d + "/" <= g { DirsIff(g, d); }
    if d in KeptDirs(files, dirs, gone) && exists g <- gone :: d != "" && d + "/" <= g {
      var g :| g in gone && d != "" && d + "/" <= g;
      assert d in Dirs(g) && d in AllDirs(gone);
      var x :| x in (files - gone) + (dirs - AllDirs(gone)) && d + "/" <= x;
      assert x in (files - gone) + KeptDirs(files, dirs, gone);
    }
  }

  lemma KeptNone(files: set<string>, dirs: set<string>)
    ensures KeptDirs(files, dirs, {}) == dirs
  {
  }

  lemma KeptWellFormed(files: set<string>, dirs: set<string>, p: string)
    requires WellFormed(files, dirs)
    ensures WellFormed(files - {p}, KeptDirs(files, dirs, {p}))
  {
    var kept := KeptDirs(files, dirs, {p});
    OnePath(p);
    forall f, d | f in files - {p} && d in Dirs(f) ensures d in kept {
      DirsIff(f, d);
    }
    forall e, d | e in kept && d in Dirs(e) ensures d in kept {
      DirsIff(e, d);
      if d in Dirs(p) {
        if e in Dirs(p) {
          var x :| x in (files - {p}) + (dirs - Dirs(p)) && e + "/" <= x;
          DirsIff(x, e);
          DirsTrans(x, e, d);
          DirsIff(x, d);
        }
      }
    }
  }

  lemma OnePath(p: string)
    ensures AllDirs({p}) == Dirs(p)
  {
  }

  /** Deleting one more file. */
  lemma KeptMore(files: set<string>, dirs: set<string>, gone: set<string>, p: string)
    requires p in files - gone
    ensures KeptDirs(files - gone, KeptDirs(files, dirs, gone), {p}) == KeptDirs(files, dirs, gone + {p})
  {
    var kept := KeptDirs(files, dirs, gone);
    OnePath(p);
    AllDirsMore(gone, p);
    forall d ensures d in KeptDirs(files - gone, kept, {p}) <==> d in KeptDirs(files, dirs, gone + {p}) {
      if d in KeptDirs(files - gone, kept, {p}) {
        KeptBefore(files, dirs, gone, p, d);
      }
      if d in KeptDirs(files, dirs, gone + {p}) {
        KeptAfter(files, dirs, gone, p, d);
      }
    }
  }

  /**
   What lies below a directory above `p`, but is not itself above `p` nor `p`, does not have it above it the
   other way.
   */
  lemma NotOnPath(p: string, d: string, x: string)
    requires d + "/" <= x && d != "" && d !in Dirs(p)
    ensures x != p && x !in Dirs(p)
  {
    DirsIff(x, d);
    DirsIff(p, d);
    if x in Dirs(p) {
      DirsTrans(p, x, d);
    }
  }

  lemma KeptBefore(files: set<string>, dirs: set<string>, gone: set<string>, p: string, d: string)
    requires p in files - gone && d in KeptDirs(files - gone, KeptDirs(files, dirs, gone), {p})
    ensures d in KeptDirs(files, dirs, gone + {p})
  {
    var kept := KeptDirs(files, dirs, gone);
    OnePath(p);
    AllDirsMore(gone, p);
    var rest := (files - (gone + {p})) + (dirs - AllDirs(gone + {p}));
    if d !in Dirs(p) {
      if d in AllDirs(gone) {
        InAllDirs(gone, d);
        var x :| x in (files - gone) + (dirs - AllDirs(gone)) && d + "/" <= x;
        NotOnPath(p, d, x);
        assert x in rest;
      }
    } else {
      var x :| x in (files - gone - {p}) + (kept - Dirs(p)) && d + "/" <= x;
      if x !in rest {
        InAllDirs(gone, x);
        var y :| y in (files - gone) + (dirs - AllDirs(gone)) && x + "/" <= y;
        NotOnPath(p, x, y);
        assert y in rest && d + "/" <= y by { Below(d, x, y); }
      }
    }
  }

  lemma Below(d: string, x: string, y: string)
    requires d + "/" <= x && x + "/" <= y
    ensures d + "/" <= y
  {
    assert y[..|x|] == x && x[..|d| + 1] == d + "/";
  }

  lemma InAllDirs(paths: set<string>, d: string)
    ensures d in AllDirs(paths) ==> d != ""
  {
  }

  lemma KeptAfter(files: set<string>, dirs: set<string>, gone: set<string>, p: string, d: string)
    requires p in files - gone && d in KeptDirs(files, dirs, gone + {p})
    ensures d in KeptDirs(files - gone, KeptDirs(files, dirs, gone), {p})
  {
    OnePath(p);
    AllDirsMore(gone, p);
    if d in AllDirs(gone + {p}) {
      var x :| x in (files - (gone + {p})) + (dirs - AllDirs(gone + {p})) && d + "/" <= x;
      assert x in (files - gone) + (dirs - AllDirs(gone));
      assert x in (files - gone - {p}) + (KeptDirs(files, dirs, gone) - Dirs(p));
    }
  }

  /** Where every directory is above some file, it stays so. */
  lemma TidyStaysTidy(files: set<string>, gone: set<string>)
    requires gone <= files
    ensures KeptDirs(files, AllDirs(files), gone) == AllDirs(files - gone)
  {
    var kept := KeptDirs(files, AllDirs(files), gone);
    forall d | d in kept ensures d in AllDirs(files - gone) {
      InAllDirs(files, d);
      if d in AllDirs(gone) {
        var x :| x in (files - gone) + (AllDirs(files) - AllDirs(gone)) && d + "/" <= x;
        DirsIff(x, d);
        if x !in files - gone {
          var f :| f in files && x in Dirs(f);
          DirsTrans(f, x, d);
        }
      }
    }
    forall d | d in AllDirs(files - gone) ensures d in kept {
      var f :| f in files - gone && d in Dirs(f);
      DirsIff(f, d);
    }
  }

  // ----- Sparse sets -----

  predicate EndsWithSlash(s: string) {
    s != "" && s[|s| - 1] == '/'
  }

  predicate InSparseSet(p: string, sparse: set<string>) {
    p in sparse || exists s <- sparse :: EndsWithSlash(s) && s <= p
  }

  method IsInSparseSet(p: string, sparse: set<string>) returns (r: bool)
    ensures r <==> InSparseSet(p, sparse)
  {
    if p in sparse {
      return true;
    }
    var todo := sparse;
    while todo != {}
      invariant todo <= sparse
      invariant forall s <- sparse - todo :: !(EndsWithSlash(s) && s <= p)
      decreases todo
    {
      var s :| s in todo;
      if EndsWithSlash(s) && s <= p {
        return true;
      }
      todo := todo - {s};
    }
    return false;
  }

  // ----- What a checkout writes -----

  function Render(entries: seq<ManifestEntry>): string {
    if entries == [] then "" else Render(entries[..|entries| - 1]) + entries[|entries| - 1].row.text + "\n"
  }

  /** The lines of a text, each ended by a newline; a rest without one is a line too. */
  function Lines(text: string): seq<string> {
    if text == "" then [] else
      var i := FirstNewline(text);
      [text[..i]] + if i < |text| then Lines(text[i + 1..]) else []
  }

  function FirstNewline(text: string): (i: nat)
    ensures i <= |text| && '\n' !in text[..i] && (i < |text| ==> text[i] == '\n')
  {
    if text == "" || text[0] == '\n' then 0 else
      assert text == [text[0]] + text[1..];
      1 + FirstNewline(text[1..])
  }

  /** Cutting the text of a manifest at its newlines gives the rows back, when no row holds one. */
  lemma {:induction false} RenderLines(entries: seq<ManifestEntry>)
    requires forall e <- entries :: '\n' !in e.row.text
    ensures Lines(Render(entries)) == Texts(entries)
  {
    hide Lines;
    if entries == [] {
      assert Lines("") == [] by { NoLines(); }
    } else {
      var init, last := entries[..|entries| - 1], entries[|entries| - 1];
      RenderLines(init);
      RenderEnds(init);
      LinesSnoc(Render(init), last.row.text);
      assert Texts(entries) == Texts(init) + [last.row.text];
    }
  }

  function Texts(entries: seq<ManifestEntry>): (s: seq<string>)
    ensures |s| == |entries|
  {
    seq(|entries|, i requires 0 <= i < |entries| => entries[i].row.text)
  }

  lemma NoLines()
    ensures Lines("") == []
  {
  }

  lemma {:induction false} RenderEnds(entries: seq<ManifestEntry>)
    ensures var text := Render(entries); text == "" || text[|text| - 1] == '\n'
  {
  }

  /** One more line. */
  lemma {:induction false} LinesSnoc(text: string, line: string)
    requires text == "" || text[|text| - 1] == '\n'
    requires '\n' !in line
    ensures Lines(text + line + "\n") == Lines(text) + [line]
    decreases |text|
  {
    hide Lines;
    var all := text + line + "\n";
    if text == "" {
      assert all[..|line|] == line && all[|line| + 1..] == "";
      LinesAt(all, |line|);
      NoLines();
    } else {
      var i := FirstNewline(text);
      NoNewline(text, i);
      assert i < |text|;
      var rest := text[i + 1..];
      LinesSnoc(rest, line);
      assert all[..i] == text[..i] && all[i + 1..] == rest + line + "\n";
      LinesAt(all, i);
      LinesAt(text, i);
    }
  }

  lemma LinesAt(text: string, i: nat)
    requires i < |text| && text[i] == '\n' && '\n' !in text[..i]
    ensures Lines(text) == [text[..i]] + Lines(text[i + 1..])
  {
    NewlineAt(text, i);
    hide FirstNewline;
    assert FirstNewline(text) == i && text != "";
  }

  lemma NoNewline(text: string, i: nat)
    requires i <= |text| && '\n' !in text[..i]
    ensures forall j | 0 <= j < i :: text[j] != '\n'
  {
    assert forall j | 0 <= j < i :: text[..i][j] == text[j];
  }

  lemma NewlineAt(text: string, i: nat)
    requires i < |text| && text[i] == '\n' && '\n' !in text[..i]
    ensures FirstNewline(text) == i
  {
    NoNewline(text, i);
    NoNewline(text, FirstNewline(text));
  }

  function Content(t: LeafTarget): string {
    match t
    case ManifestTarget(m) => Render(m.entries)
    case BlobTarget(b) => b
  }

  /** The leaves of a tree, without their sidecars. */
  function Leaves(objs: set<ObjId>, t: Tree): map<string, LeafTarget> {
    map p | p in Flatten(objs, t, "") :: Flatten(objs, t, "")[p].target
  }

  function View(leaves: map<string, LeafTarget>, sparse: Option<set<string>>): map<string, LeafTarget> {
    if sparse.None? then leaves else map p | p in leaves && InSparseSet(p, sparse.value) :: leaves[p]
  }

  function Contents(leaves: map<string, LeafTarget>): map<string, string> {
    map p | p in leaves :: Content(leaves[p])
  }

  predicate Same(was: map<string, LeafTarget>, now: map<string, LeafTarget>, p: string) {
    p in was && p in now && was[p] == now[p]
  }

  /** The paths written: those whose leaf differs, except that a missing blob is passed over. */
  function Changed(objs: set<ObjId>, was: map<string, LeafTarget>, now: map<string, LeafTarget>): set<string> {
    set p | p in now && !Same(was, now, p) && (now[p].BlobTarget? ==> BlobId(now[p].blob) in objs)
  }

  predicate ManifestReadable(objs: set<ObjId>, m: Manifest) {
    ManifestId(m) in objs && forall e <- m.entries :: RowId(e.row) in objs
  }

  /** The working files after a checkout. */
  function After(objs: set<ObjId>, work: map<string, string>, was: map<string, LeafTarget>,
      now: map<string, LeafTarget>): map<string, string> {
    var written := Changed(objs, was, now);
    map p | p in (work.Keys - (was.Keys - now.Keys)) + written :: if p in written then Content(now[p]) else work[p]
  }

  /** The directories after a checkout. */
  function AfterDirs(objs: set<ObjId>, files: set<string>, dirs: set<string>, was: map<string, LeafTarget>,
      now: map<string, LeafTarget>): set<string> {
    var written := Changed(objs, was, now);
    KeptDirs(files + written, dirs + AllDirs(written), (was.Keys - now.Keys) * (files + written))
  }

  /**
   When the checkout raises nothing: all it must read is there, no written path runs below or above
   another file on disk or takes the place of a directory, and no file to delete has become a directory.
   */
  ghost predicate Succeeds(objs: set<ObjId>, files: set<string>, dirs: set<string>, was: map<string, LeafTarget>,
      now: map<string, LeafTarget>) {
    var written := Changed(objs, was, now);
    && (forall p <- written :: now[p].ManifestTarget? ==> ManifestReadable(objs, now[p].manifest))
    && Fits(files, dirs, written)
    && (was.Keys - now.Keys) !! (dirs + AllDirs(written))
  }

  function OldLeaves(objs: set<ObjId>, oldTree: Option<Tree>): map<string, LeafTarget> {
    if oldTree.None? then map[] else Leaves(objs, oldTree.value)
  }

  // ----- The two kinds of file, which the checkout handles one after the other -----

  function BlobsOf(flat: map<string, Leaf>): map<string, string> {
    map p | p in flat && flat[p].target.BlobTarget? :: flat[p].target.blob
  }

  function ManifestLeaves(leaves: map<string, LeafTarget>): map<string, Manifest> {
    map p | p in leaves && leaves[p].ManifestTarget? :: leaves[p].manifest
  }

  function BlobLeaves(leaves: map<string, LeafTarget>): map<string, string> {
    map p | p in leaves && leaves[p].BlobTarget? :: leaves[p].blob
  }

  function Filtered<T>(m: map<string, T>, sparse: set<string>): map<string, T> {
    map p | p in m && InSparseSet(p, sparse) :: m[p]
  }

  method FilterSparse<T>(m: map<string, T>, sparse: set<string>) returns (r: map<string, T>)
    ensures r == Filtered(m, sparse)
  {
    r := map[];
    var todo := m.Keys;
    while todo != {}
      invariant todo <= m.Keys
      invariant r == map p | p in m && p !in todo && InSparseSet(p, sparse) :: m[p]
      decreases todo
    {
      var p :| p in todo;
      var keep := IsInSparseSet(p, sparse);
      if keep {
        r := r[p := m[p]];
      }
      todo := todo - {p};
    }
  }

  /** The names whose value is new or not the old one. */
  function Differing<T(==)>(was: map<string, T>, now: map<string, T>): set<string> {
    set p | p in now && !(p in was && was[p] == now[p])
  }

  function PresentBlobs(objs: set<ObjId>, was: map<string, string>, now: map<string, string>): set<string> {
    set p <- Differing(was, now) | BlobId(now[p]) in objs
  }

  function Rendered(manifests: map<string, Manifest>): map<string, string> {
    map p | p in manifests :: Render(manifests[p].entries)
  }

  /** `work` with the texts of the names `s` written over it. */
  function Overlaid(work: map<string, string>, texts: map<string, string>, s: set<string>): map<string, string> {
    work + map p | p in texts && p in s :: texts[p]
  }

  lemma OverlayNone(work: map<string, string>, texts: map<string, string>)
    ensures forall s | s !! texts.Keys :: Overlaid(work, texts, s) == work
  {
  }

  lemma OverlayMore(work: map<string, string>, texts: map<string, string>, s: set<string>, p: string)
    requires p in texts
    ensures Overlaid(work, texts, s + {p}) == Overlaid(work, texts, s)[p := texts[p]]
    ensures s <= texts.Keys ==> Overlaid(work, texts, s).Keys == work.Keys + s
  {
  }

  lemma KindsOfView(objs: set<ObjId>, tree: Tree, sparse: Option<set<string>>)
    ensures var flat, now := Flatten(objs, tree, ""), View(Leaves(objs, tree), sparse);
      && ManifestLeaves(now) == (if sparse.None? then ManifestsOf(flat) else Filtered(ManifestsOf(flat), sparse.value))
      && BlobLeaves(now) == (if sparse.None? then BlobsOf(flat) else Filtered(BlobsOf(flat), sparse.value))
  {
    hide Flatten;
  }

  lemma KindsOfOld(objs: set<ObjId>, oldTree: Option<Tree>)
    ensures var was := OldLeaves(objs, oldTree);
      && ManifestLeaves(was) == (if oldTree.None? then map[] else ManifestsOf(Flatten(objs, oldTree.value, "")))
      && BlobLeaves(was) == (if oldTree.None? then map[] else BlobsOf(Flatten(objs, oldTree.value, "")))
  {
    hide Flatten;
  }

  lemma OverlayKeys(work: map<string, string>, texts: map<string, string>, s: set<string>)
    requires s <= texts.Keys
    ensures Overlaid(work, texts, s).Keys == work.Keys + s
  {
  }

  lemma KeysByKind(leaves: map<string, LeafTarget>)
    ensures ManifestLeaves(leaves).Keys + BlobLeaves(leaves).Keys == leaves.Keys
  {
  }

  lemma ChangedByKind(objs: set<ObjId>, was: map<string, LeafTarget>, now: map<string, LeafTarget>)
    ensures var m := Differing(ManifestLeaves(was), ManifestLeaves(now));
      var b := PresentBlobs(objs, BlobLeaves(was), BlobLeaves(now));
      && Changed(objs, was, now) == m + b
      && (forall p <- m :: p in now && now[p].ManifestTarget? && ManifestLeaves(now)[p] == now[p].manifest)
      && (forall p <- b :: p in now && now[p].BlobTarget? && BlobLeaves(now)[p] == now[p].blob)
  {
  }

  lemma OverlayAt(work: map<string, string>, texts: map<string, string>, s: set<string>, p: string)
    requires s <= texts.Keys
    ensures p in Overlaid(work, texts, s) <==> p in work || p in s
    ensures p in s ==> Overlaid(work, texts, s)[p] == texts[p]
    ensures p in work && p !in s ==> Overlaid(work, texts, s)[p] == work[p]
  {
  }

  /** The files once the changed manifests and then the changed blobs are written. */
  function WrittenByKind(objs: set<ObjId>, work: map<string, string>, was: map<string, LeafTarget>,
      now: map<string, LeafTarget>): map<string, string> {
    Overlaid(Overlaid(work, Rendered(ManifestLeaves(now)), Differing(ManifestLeaves(was), ManifestLeaves(now))),
             BlobLeaves(now), PresentBlobs(objs, BlobLeaves(was), BlobLeaves(now)))
  }

  lemma WrittenAt(objs: set<ObjId>, work: map<string, string>, was: map<string, LeafTarget>,
      now: map<string, LeafTarget>, p: string)
    ensures var written, changed := WrittenByKind(objs, work, was, now), Changed(objs, was, now);
      && (p in written <==> p in work || p in changed)
      && (p in changed ==> p in now && written[p] == Content(now[p]))
      && (p in work && p !in changed ==> written[p] == work[p])
  {
    var m := Differing(ManifestLeaves(was), ManifestLeaves(now));
    var b := PresentBlobs(objs, BlobLeaves(was), BlobLeaves(now));
    var first := Overlaid(work, Rendered(ManifestLeaves(now)), m);
    ChangedByKind(objs, was, now);
    OverlayAt(work, Rendered(ManifestLeaves(now)), m, p);
    OverlayAt(first, BlobLeaves(now), b, p);
    hide Differing, PresentBlobs, Changed, Render, Overlaid;
  }

  /** Writing the changed manifests, then the changed blobs, then deleting, is what the specification says. */
  lemma AfterByKind(objs: set<ObjId>, work: map<string, string>, was: map<string, LeafTarget>,
      now: map<string, LeafTarget>)
    ensures WrittenByKind(objs, work, was, now) - (was.Keys - now.Keys) == After(objs, work, was, now)
  {
    hide WrittenByKind, Changed;
    forall p {
      WrittenAt(objs, work, was, now, p);
    }
  }

  lemma KeysByKinds(objs: set<ObjId>, work: map<string, string>, was: map<string, LeafTarget>,
      now: map<string, LeafTarget>)
    ensures var m := Differing(ManifestLeaves(was), ManifestLeaves(now));
      var b := PresentBlobs(objs, BlobLeaves(was), BlobLeaves(now));
      && Overlaid(work, Rendered(ManifestLeaves(now)), m).Keys == work.Keys + m
      && WrittenByKind(objs, work, was, now).Keys == work.Keys + m + b
  {
    var m := Differing(ManifestLeaves(was), ManifestLeaves(now));
    OverlayKeys(work, Rendered(ManifestLeaves(now)), m);
    OverlayKeys(Overlaid(work, Rendered(ManifestLeaves(now)), m), BlobLeaves(now),
      PresentBlobs(objs, BlobLeaves(was), BlobLeaves(now)));
  }

  /** When nothing is raised, in terms of the two kinds. */
  lemma SucceedsByKind(objs: set<ObjId>, files: set<string>, dirs: set<string>, was: map<string, LeafTarget>,
      now: map<string, LeafTarget>)
    ensures var m := Differing(ManifestLeaves(was), ManifestLeaves(now));
      var b := PresentBlobs(objs, BlobLeaves(was), BlobLeaves(now));
      && Changed(objs, was, now) == m + b
      && dirs + AllDirs(m + b) == dirs + AllDirs(m) + AllDirs(b)
      && (Succeeds(objs, files, dirs, was, now) <==>
        && (forall p <- m :: ManifestReadable(objs, ManifestLeaves(now)[p]))
        && Fits(files, dirs, m) && Fits(files + m, dirs + AllDirs(m), b)
        && (was.Keys - now.Keys) !! (dirs + AllDirs(m) + AllDirs(b)))
  {
    hide Differing, PresentBlobs, Changed, Fits, AllDirs, ManifestReadable;
    var m := Differing(ManifestLeaves(was), ManifestLeaves(now));
    var b := PresentBlobs(objs, BlobLeaves(was), BlobLeaves(now));
    ChangedByKind(objs, was, now);
    FitsTwice(files, dirs, m, b);
  }

  /** The lines of the rows in order, up to the first that cannot be read. */
  method RenderRows(objs: set<ObjId>, entries: seq<ManifestEntry>) returns (ok: bool, text: string)
    ensures ok <==> forall e <- entries :: RowId(e.row) in objs
    ensures ok ==> text == Render(entries)
  {
    text := "";
    for i := 0 to |entries|
      invariant text == Render(entries[..i]) && forall e <- entries[..i] :: RowId(e.row) in objs
    {
      assert entries[..i + 1] == entries[..i] + [entries[i]] && entries[..i + 1][..i] == entries[..i];
      if RowId(entries[i].row) !in objs {
        assert entries[i] in entries;
        return false, text;
      }
      text := text + entries[i].row.text + "\n";
    }
    assert entries[..|entries|] == entries;
    return true, text;
  }

  /** The files and directories under the repository root. */
  class Workspace {
    var files: map<string, string>
    var dirs: set<string>

    /** All directories above are there, and nothing is both a file and a directory; empty directories may exist. */
    ghost predicate Valid()
      reads this
    {
      WellFormed(files.Keys, dirs)
    }

    /** mkdir(parents=True, exist_ok=True) on the directory of a path. */
    method MakeParents(p: string) returns (ok: bool)
      modifies `dirs
      ensures ok <==> Dirs(p) !! files.Keys
      ensures ok ==> dirs == old(dirs) + Dirs(p)
    {
      for i := 0 to |p|
        invariant forall j | 0 < j < i && j < |p| && p[j] == '/' :: p[..j] !in files
        invariant dirs == old(dirs) + set j | 0 < j < i && j < |p| && p[j] == '/' :: p[..j]
      {
        if i > 0 && p[i] == '/' {
          if p[..i] in files {
            return false;
          }
          dirs := dirs + {p[..i]};
        }
      }
      return true;
    }

    method MaterializeFile(objs: set<ObjId>, p: string, m: Manifest) returns (ok: bool)
      requires Valid()
      modifies this
      ensures ok <==> Fits(old(files).Keys, old(dirs), {p}) && forall e <- m.entries :: RowId(e.row) in objs
      ensures ok ==> Valid() && files == old(files)[p := Render(m.entries)] && dirs == old(dirs) + Dirs(p)
    {
      hide AllDirs, Dirs, Fits, WellFormed;
      PutOne(files.Keys, dirs, p);
      var made := MakeParents(p);
      if !made || p in dirs {
        return false;
      }
      files := files[p := ""];
      var read, text := RenderRows(objs, m.entries);
      files := files[p := text];
      if !read {
        return false;
      }
      assert files.Keys == old(files).Keys + {p} && files == old(files)[p := text];
      return true;
    }

    method WriteBlob(p: string, text: string) returns (ok: bool)
      requires Valid()
      modifies this
      ensures ok <==> Fits(old(files).Keys, old(dirs), {p})
      ensures ok ==> Valid() && files == old(files)[p := text] && dirs == old(dirs) + Dirs(p)
    {
      hide AllDirs, Dirs, Fits, WellFormed;
      PutOne(files.Keys, dirs, p);
      var made := MakeParents(p);
      if !made || p in dirs {
        return false;
      }
      files := files[p := text];
      assert files.Keys == old(files).Keys + {p};
      return true;
    }

    // ----- Removing -----

    /** A directory without files or directories in it. */
    predicate Empty(d: string)
      reads this
    {
      forall x <- files.Keys + dirs :: !(d + "/" <= x)
    }

    /** Remove the directories above a deleted file that are empty, from the inside out. */
    method Cleanup(p: string)
      requires WellFormed(files.Keys + {p}, dirs) && p !in files
      modifies `dirs
      ensures dirs == KeptDirs(files.Keys + {p}, old(dirs), {p})
    {
      hide AllDirs, Dirs, WellFormed, KeptDirs;
      var parent := ParentOf(p);
      CleanupStarts(files.Keys, dirs, p);
      while parent != "" && Empty(parent)
        invariant Cleaning(files.Keys, old(dirs), dirs, p, parent)
        decreases |parent|
      {
        CleanupStep(files.Keys, old(dirs), dirs, p, parent);
        dirs := dirs - {parent};
        parent := ParentOf(parent);
      }
      CleanupEnds(files.Keys, old(dirs), dirs, p, parent);
    }

    method Remove(p: string) returns (ok: bool)
      requires Valid()
      modifies this
      ensures ok <==> p !in old(dirs)
      ensures ok ==> Valid() && files == old(files) - {p}
      ensures ok ==> dirs == if p in old(files) then KeptDirs(old(files).Keys, old(dirs), {p}) else old(dirs)
    {
      hide AllDirs, Dirs, KeptDirs, WellFormed;
      if p in files || p in dirs {
        if p in dirs {
          return false;
        }
        KeptWellFormed(files.Keys, dirs, p);
        assert files.Keys == (files - {p}).Keys + {p};
        files := files - {p};
        Cleanup(p);
        assert files.Keys == old(files).Keys - {p};
      } else {
        assert files - {p} == files;
      }
      return true;
    }

    /** Delete the files of a set of paths. */
    method RemoveAll(names: set<string>) returns (ok: bool)
      requires Valid()
      modifies this
      ensures ok ==> Valid() && files == old(files) - names
      ensures ok ==> dirs == KeptDirs(old(files).Keys, old(dirs), names * old(files).Keys)
      ensures names !! old(dirs) ==> ok
      ensures ok && ClashFree(names) ==> names !! old(dirs)
    {
      hide AllDirs, Dirs, KeptDirs, WellFormed, ClashFree;
      var todo := names;
      ghost var done: set<string> := {};
      ghost var all := files.Keys;
      KeptNone(all, dirs);
      assert done * all == {};
      while todo != {}
        invariant todo !! done && todo + done == names
        invariant Valid() && files == old(files) - done && dirs == KeptDirs(all, old(dirs), done * all)
        invariant ClashFree(names) ==> done !! old(dirs)
        decreases todo
      {
        var p :| p in todo;
        GoneDir(all, old(dirs), done * all, names, p);
        assert files.Keys == all - done * all;
        var removed := Remove(p);
        if !removed {
          return false;
        }
        todo := todo - {p};
        if p in all {
          KeptMore(all, old(dirs), done * all, p);
          assert (done + {p}) * all == done * all + {p};
        } else {
          assert (done + {p}) * all == done * all;
        }
        done := done + {p};
      }
      assert done == names;
      return true;
    }

    // ----- The checkout -----

    method WriteManifests(objs: set<ObjId>, was: map<string, Manifest>, now: map<string, Manifest>) returns (ok: bool)
      requires Valid()
      modifies this
      ensures ok <==>
        Fits(old(files).Keys, old(dirs), Differing(was, now)) &&
        forall p <- Differing(was, now) :: ManifestReadable(objs, now[p])
      ensures ok ==>
        Valid() && files == Overlaid(old(files), Rendered(now), Differing(was, now)) &&
        dirs == old(dirs) + AllDirs(Differing(was, now))
    {
      hide AllDirs, Fits, Overlaid, Render, Dirs, WellFormed;
      ghost var all := Differing(was, now);
      ghost var done: set<string> := {};
      var todo := now.Keys;
      OverlayNone(files, Rendered(now));
      NothingWritten(dirs);
      assert all * done == {};
      while todo != {}
        invariant todo !! done && todo + done == now.Keys
        invariant Valid() && files == Overlaid(old(files), Rendered(now), all * done) &&
          dirs == old(dirs) + AllDirs(all * done)
        invariant forall p <- all * done :: ManifestReadable(objs, now[p])
        decreases todo
      {
        var p :| p in todo;
        todo := todo - {p};
        ghost var before := done;
        done := done + {p};
        if p in was && was[p] == now[p] {
          assert all * done == all * before;
          continue;
        }
        assert all * done == all * before + {p};
        OverlayMore(old(files), Rendered(now), all * before, p);
        FitsMore(old(files).Keys, old(dirs), all * before, p, all);
        assert old(dirs) + AllDirs(all * before) + Dirs(p) == old(dirs) + AllDirs(all * done);
        if ManifestId(now[p]) !in objs {
          return false;
        }
        var written := MaterializeFile(objs, p, now[p]);
        if !written {
          return false;
        }
      }
      assert all * done == all;
      OverlayKeys(old(files), Rendered(now), all);
      FitsNow(old(files).Keys, old(dirs), all);
      return true;
    }

    method WriteBlobs(objs: set<ObjId>, was: map<string, string>, now: map<string, string>) returns (ok: bool)
      requires Valid()
      modifies this
      ensures ok <==> Fits(old(files).Keys, old(dirs), PresentBlobs(objs, was, now))
      ensures ok ==>
        Valid() && files == Overlaid(old(files), now, PresentBlobs(objs, was, now)) &&
        dirs == old(dirs) + AllDirs(PresentBlobs(objs, was, now))
    {
      hide AllDirs, Fits, Overlaid, Render, Dirs, WellFormed;
      ghost var all := PresentBlobs(objs, was, now);
      ghost var done: set<string> := {};
      var todo := now.Keys;
      OverlayNone(files, now);
      NothingWritten(dirs);
      assert all * done == {};
      while todo != {}
        invariant todo !! done && todo + done == now.Keys
        invariant Valid() && files == Overlaid(old(files), now, all * done) && dirs == old(dirs) + AllDirs(all * done)
        decreases todo
      {
        var p :| p in todo;
        todo := todo - {p};
        ghost var before := done;
        done := done + {p};
        if (p in was && was[p] == now[p]) || BlobId(now[p]) !in objs {
          assert all * done == all * before;
          continue;
        }
        assert all * done == all * before + {p};
        OverlayMore(old(files), now, all * before, p);
        FitsMore(old(files).Keys, old(dirs), all * before, p, all);
        assert old(dirs) + AllDirs(all * before) + Dirs(p) == old(dirs) + AllDirs(all * done);
        var written := WriteBlob(p, now[p]);
        if !written {
          return false;
        }
      }
      assert all * done == all;
      OverlayKeys(old(files), now, all);
      FitsNow(old(files).Keys, old(dirs), all);
      return true;
    }

    /** Write what differs from the old tree, then delete what the new view lacks. */
    method MaterializeTree(objs: set<ObjId>, tree: Tree, oldTree: Option<Tree>, sparse: Option<set<string>>)
      returns (ok: bool)
      requires Valid()
      modifies this
      ensures var was, now := OldLeaves(objs, oldTree), View(Leaves(objs, tree), sparse);
        && (ok ==>
          Valid() && files == After(objs, old(files), was, now) &&
          dirs == AfterDirs(objs, old(files).Keys, old(dirs), was, now))
        && (Succeeds(objs, old(files).Keys, old(dirs), was, now) ==> ok)
        && (ok && ClashFree(was.Keys) ==> Succeeds(objs, old(files).Keys, old(dirs), was, now))
    {
      hide Flatten, AllDirs, ClashFree, Differing, PresentBlobs, Overlaid, Succeeds, After, View, Leaves, OldLeaves,
        ManifestLeaves, BlobLeaves,
        ManifestReadable, Fits, KeptDirs, Changed, WellFormed;
      var newFlat := FlattenTree(objs, tree, "");
      var newManifests := ManifestsOf(newFlat);
      var newBlobs := BlobsOf(newFlat);
      if sparse.Some? {
        newManifests := FilterSparse(newManifests, sparse.value);
        newBlobs := FilterSparse(newBlobs, sparse.value);
      }
      var oldManifests: map<string, Manifest>, oldBlobs: map<string, string> := map[], map[];
      if oldTree.Some? {
        var oldFlat := FlattenTree(objs, oldTree.value, "");
        oldManifests := ManifestsOf(oldFlat);
        oldBlobs := BlobsOf(oldFlat);
      }
      ghost var was, now := OldLeaves(objs, oldTree), View(Leaves(objs, tree), sparse);
      KindsOfView(objs, tree, sparse);
      KindsOfOld(objs, oldTree);
      KeysByKind(was);
      KeysByKind(now);
      AfterByKind(objs, files, was, now);
      KeysByKinds(objs, files, was, now);
      SucceedsByKind(objs, files.Keys, dirs, was, now);
      AllDirsMono(was.Keys - now.Keys, was.Keys);
      var wrote := WriteManifests(objs, oldManifests, newManifests);
      if !wrote {
        return false;
      }
      wrote := WriteBlobs(objs, oldBlobs, newBlobs);
      if !wrote {
        return false;
      }
      ghost var written := Changed(objs, was, now);
      assert files.Keys == old(files).Keys + written && dirs == old(dirs) + AllDirs(written);
      assert (oldManifests.Keys + oldBlobs.Keys) - (newManifests.Keys + newBlobs.Keys) == was.Keys - now.Keys;
      ok := RemoveAll((oldManifests.Keys + oldBlobs.Keys) - (newManifests.Keys + newBlobs.Keys));
    }
  }

  lemma NothingWritten(dirs: set<string>)
    ensures dirs + AllDirs({}) == dirs
  {
  }

  lemma FitsNow(files: set<string>, dirs: set<string>, all: set<string>)
    requires WellFormed(files + all, dirs + AllDirs(all))
    ensures Fits(files, dirs, all)
  {
  }

  /** The directory of a path; "" is the root. */
  function ParentOf(p: string): (d: string)
    ensures |d| <= |p| && (p != "" ==> |d| < |p|)
  {
    ParentBefore(p, |p|)
  }

  function ParentBefore(p: string, n: nat): (d: string)
    requires n <= |p|
    ensures |d| <= n && (n > 0 ==> |d| < n)
  {
    if n == 0 then ""
    else if p[n - 1] == '/' then p[..n - 1]
    else ParentBefore(p, n - 1)
  }

  /** The directories of `p` no longer than `n`. */
  function UpTo(p: string, n: nat): set<string> {
    set d <- Dirs(p) | |d| <= n
  }

  lemma {:induction false} ParentBeforeIs(p: string, n: nat)
    requires n <= |p|
    ensures var d := ParentBefore(p, n);
      && (d == "" || d in Dirs(p))
      && forall c <- Dirs(p) | |c| < n :: |c| <= |d|
  {
    if n > 0 {
      if p[n - 1] != '/' {
        ParentBeforeIs(p, n - 1);
        assert forall c <- Dirs(p) :: p[|c|] == '/';
      }
    }
  }

  /** The parent of a path, or of one of its directories, is the next directory up. */
  lemma ParentIsLast(p: string, x: string)
    requires x == p || x in Dirs(p)
    ensures var d := ParentOf(x);
      && (d == "" || d in Dirs(p))
      && UpTo(p, |d|) == (if x == p then Dirs(p) else UpTo(p, |x|) - {x})
  {
    var d := ParentOf(x);
    ParentBeforeIs(x, |x|);
    if d != "" && x != p {
      DirsTrans(p, x, d);
    }
    forall c | c in Dirs(p) && |c| <= |x| && c != x ensures |c| <= |d| {
      if x != p {
        DirsNested(p, x, c);
      }
    }
  }

  /** Nothing lies below the directory but the path to `p`. */
  ghost predicate Lonely(files: set<string>, dirs: set<string>, p: string, d: string) {
    !Holds(d, files + (dirs - Dirs(p)))
  }

  /** Of `all`, the directories of `p` longer than `parent` are gone, and each had nothing else in it. */
  ghost predicate Cleaning(files: set<string>, all: set<string>, dirs: set<string>, p: string, parent: string) {
    && (parent == "" || parent in Dirs(p))
    && files !! all && Dirs(p) <= all && dirs == all - (Dirs(p) - UpTo(p, |parent|))
    && forall d <- Dirs(p) | |d| > |parent| :: Lonely(files, all, p, d)
  }

  lemma CleanupStarts(files: set<string>, dirs: set<string>, p: string)
    requires WellFormed(files + {p}, dirs)
    ensures Cleaning(files, dirs, dirs, p, ParentOf(p))
  {
    ParentIsLast(p, p);
    AllDirsMore(files, p);
    assert dirs == dirs - (Dirs(p) - UpTo(p, |ParentOf(p)|));
    assert forall d <- Dirs(p) :: d in UpTo(p, |ParentOf(p)|);
  }

  lemma CleanupStep(files: set<string>, all: set<string>, dirs: set<string>, p: string, parent: string)
    requires Cleaning(files, all, dirs, p, parent) && parent != ""
    requires forall x <- files + dirs :: !(parent + "/" <= x)
    ensures Cleaning(files, all, dirs - {parent}, p, ParentOf(parent))
  {
    var next := ParentOf(parent);
    ParentIsLast(p, parent);
    assert parent in UpTo(p, |parent|);
    assert dirs - {parent} == all - (Dirs(p) - UpTo(p, |next|));
    forall d | d in Dirs(p) && |d| > |next| ensures Lonely(files, all, p, d) {
      if |d| <= |parent| {
        assert d in UpTo(p, |parent|) && d !in UpTo(p, |next|);
        assert d == parent;
        assert files + (all - Dirs(p)) <= files + dirs;
      }
    }
  }

  lemma CleanupEnds(files: set<string>, all: set<string>, dirs: set<string>, p: string, parent: string)
    requires Cleaning(files, all, dirs, p, parent) && p !in files
    requires parent == "" || exists x :: x in files + dirs && parent + "/" <= x
    ensures dirs == KeptDirs(files + {p}, all, {p})
  {
    OnePath(p);
    assert files + {p} - {p} == files;
    if parent != "" {
      var x :| x in files + dirs && parent + "/" <= x;
      assert |x| > |parent|;
      assert x !in Dirs(p);
      forall d | d in Dirs(p) && |d| <= |parent| ensures Holds(d, files + (all - Dirs(p))) {
        DirsNested(p, parent, d);
        if d != parent {
          DirsIff(parent, d);
          Below(d, parent, x);
        }
      }
    }
    forall d | d in all ensures d in dirs <==> d in KeptDirs(files + {p}, all, {p}) {
      if d in Dirs(p) {
        DirsIff(p, d);
        if |d| > |parent| {
          assert Lonely(files, all, p, d);
        }
      }
    }
  }

  /** Deleting files that do not clash never removes a directory among their names. */
  lemma GoneDir(files: set<string>, dirs: set<string>, gone: set<string>, names: set<string>, p: string)
    requires gone <= names && p in names
    ensures KeptDirs(files, dirs, gone) <= dirs
    ensures ClashFree(names) && p in dirs ==> p in KeptDirs(files, dirs, gone)
  {
    AllDirsMono(gone, names);
  }

  // ----- Laws -----

  /** The working files that an unhindered checkout needs to find: what it will not write is as the new tree has it. */
  ghost predicate Intact(objs: set<ObjId>, work: map<string, string>, was: map<string, LeafTarget>,
      now: map<string, LeafTarget>) {
    && (forall p <- now | p !in Changed(objs, was, now) :: p in work && work[p] == Content(now[p]))
    && (forall p <- work :: p in was || p in now)
  }

  ghost predicate BlobsPresent(objs: set<ObjId>, leaves: map<string, LeafTarget>) {
    forall p <- leaves | leaves[p].BlobTarget? :: BlobId(leaves[p].blob) in objs
  }

  /**
   A checkout from scratch of a tree built from staged files: the files of the sparse set, except missing
   blobs, each with the bytes of its blob or with the lines of its rows.
   */
  lemma FreshCheckout(objs: set<ObjId>, root: Tree, staged: map<string, Leaf>, sparse: Option<set<string>>, p: string)
    requires Built(objs, root, staged) && forall q <- staged :: !StartsWith(q, "/")
    ensures var files := After(objs, map[], map[], View(Leaves(objs, root), sparse));
      && (p in files <==>
        p in staged && (staged[p].target.BlobTarget? ==> BlobId(staged[p].target.blob) in objs) &&
        (sparse.Some? ==>
          p in sparse.value || exists s <- sparse.value :: s != "" && s[|s| - 1] == '/' && s <= p))
      && (p in files ==>
        match staged[p].target
        case BlobTarget(b) => files[p] == b
        case ManifestTarget(m) =>
          (forall e <- m.entries :: '\n' !in e.row.text) ==> Lines(files[p]) == Texts(m.entries))
  {
    RoundTrip(objs, root, staged);
    hide Flatten, Built, Lines, Texts;
    if p in staged && staged[p].target.ManifestTarget? {
      var m := staged[p].target.manifest;
      if forall e <- m.entries :: '\n' !in e.row.text {
        RenderLines(m.entries);
      }
    }
    assert Leaves(objs, root).Keys == staged.Keys && (p in staged ==> Leaves(objs, root)[p] == staged[p].target);
  }

  /**
   What any checkout does to one path: it leaves alone what neither tree has and what both have alike,
   deletes what only the old tree has, and writes the rest.
   */
  lemma CheckoutAt(objs: set<ObjId>, work: map<string, string>, was: map<string, LeafTarget>,
      now: map<string, LeafTarget>, p: string)
    ensures var files := After(objs, work, was, now);
      && ((p in was && p in now && was[p] == now[p]) || (p !in was && p !in now) ==>
        (p in files <==> p in work) && (p in files ==> files[p] == work[p]))
      && (p in was && p !in now ==> p !in files)
      && (p in now && !(p in was && was[p] == now[p]) && (now[p].BlobTarget? ==> BlobId(now[p].blob) in objs) ==>
        p in files && files[p] == Content(now[p]))
  {
  }

  /**
   The incremental checkout leaves exactly the new view if and only if the files it relies on are as they should
   be.
   */
  lemma IncrementalExactIff(objs: set<ObjId>, work: map<string, string>, was: map<string, LeafTarget>,
      now: map<string, LeafTarget>)
    ensures After(objs, work, was, now) == Contents(now) <==> Intact(objs, work, was, now)
  {
    hide Changed;
    var after, written := After(objs, work, was, now), Changed(objs, was, now);
    ChangedInside(objs, was, now);
    if after == Contents(now) {
      forall p | p in now && p !in written ensures p in work && work[p] == Content(now[p]) {
        assert p in Contents(now) && after[p] == Contents(now)[p];
      }
      forall p | p in work ensures p in was || p in now {
        assert p in after || p in was;
      }
    }
  }

  lemma ChangedInside(objs: set<ObjId>, was: map<string, LeafTarget>, now: map<string, LeafTarget>)
    ensures Changed(objs, was, now) <= now.Keys
    ensures BlobsPresent(objs, now) ==> forall p <- now :: p in Changed(objs, was, now) <==> !Same(was, now, p)
  {
  }

  /**
   From the old tree under some sparse set to the new one under the same: incremental and from-scratch checkout
   agree, directories included.
   */
  lemma IncrementalIsFull(objs: set<ObjId>, before: Tree, after: Tree, sparse: Option<set<string>>)
    requires BlobsPresent(objs, View(Leaves(objs, after), sparse))
    ensures var was, now := Leaves(objs, before), View(Leaves(objs, after), sparse);
      var here := View(was, sparse);
      && After(objs, Contents(here), was, now) == After(objs, map[], map[], now) == Contents(now)
      && AfterDirs(objs, here.Keys, AllDirs(here.Keys), was, now) == AfterDirs(objs, {}, {}, map[], now) ==
        AllDirs(now.Keys)
  {
    hide Flatten, After, AllDirs, KeptDirs;
    var was, now := Leaves(objs, before), View(Leaves(objs, after), sparse);
    var here := View(was, sparse);
    IncrementalExactIff(objs, Contents(here), was, now);
    IncrementalExactIff(objs, map[], map[], now);
    ChangedInside(objs, was, now);
    ChangedInside(objs, map[], now);
    TidyAfter(objs, here.Keys, was, now);
    NothingWritten({});
    assert {} + AllDirs({}) == AllDirs({});
    TidyAfter(objs, {}, map[], now);
  }

  /** A checkout leaves no empty directory where there was none. */
  lemma TidyAfter(objs: set<ObjId>, files: set<string>, was: map<string, LeafTarget>, now: map<string, LeafTarget>)
    requires files <= was.Keys && now.Keys <= files + Changed(objs, was, now)
    ensures AfterDirs(objs, files, AllDirs(files), was, now) == AllDirs(now.Keys)
  {
    hide AllDirs, KeptDirs, Changed;
    var written := Changed(objs, was, now);
    ChangedInside(objs, was, now);
    AllDirsUnion(files, written);
    var gone := (was.Keys - now.Keys) * (files + written);
    TidyStaysTidy(files + written, gone);
    assert files + written - gone == now.Keys;
  }

  ghost predicate ManifestsReadable(objs: set<ObjId>, leaves: map<string, LeafTarget>) {
    forall p <- leaves | leaves[p].ManifestTarget? :: ManifestReadable(objs, leaves[p].manifest)
  }

  /**
   From a clean working copy, sparse or not, the switch raises nothing exactly when among the paths on
   disk and the new ones none is a directory of another, and none of their directories is an old path to delete.
   */
  lemma CleanSwitchIff(objs: set<ObjId>, was: map<string, LeafTarget>, next: map<string, LeafTarget>,
      sparse: Option<set<string>>)
    requires BlobsPresent(objs, View(next, sparse)) && ManifestsReadable(objs, View(next, sparse))
    ensures var here, now := View(was, sparse), View(next, sparse);
      var paths := here.Keys + now.Keys;
      Succeeds(objs, here.Keys, AllDirs(here.Keys), was, now) <==>
        ClashFree(paths) && (was.Keys - now.Keys) !! AllDirs(paths)
  {
    hide AllDirs, Changed, ManifestReadable;
    var here, now := View(was, sparse), View(next, sparse);
    var written := Changed(objs, was, now);
    ChangedInside(objs, was, now);
    AllDirsUnion(here.Keys, written);
    assert here.Keys + written == here.Keys + now.Keys;
  }

  /** Without a sparse set: exactly when no path of one tree is a directory of the other. */
  lemma FullSwitchIff(objs: set<ObjId>, was: map<string, LeafTarget>, now: map<string, LeafTarget>)
    requires BlobsPresent(objs, now) && ManifestsReadable(objs, now)
    ensures Succeeds(objs, was.Keys, AllDirs(was.Keys), was, now) <==> ClashFree(was.Keys + now.Keys)
  {
    hide AllDirs;
    CleanSwitchIff(objs, was, now, None);
  }

  /** Files that came to be below an old file, and files that take the place of a directory, both stop the switch. */
  lemma FileMeetsDirectory(objs: set<ObjId>, was: map<string, LeafTarget>, next: map<string, LeafTarget>,
      sparse: Option<set<string>>, p: string, d: string)
    requires BlobsPresent(objs, View(next, sparse)) && ManifestsReadable(objs, View(next, sparse))
    requires d in Dirs(p)
    requires var here, now := View(was, sparse), View(next, sparse);
      (p in now && d in here) || (p in here && d in now)
    ensures var here, now := View(was, sparse), View(next, sparse);
      !Succeeds(objs, here.Keys, AllDirs(here.Keys), was, now)
  {
    var here, now := View(was, sparse), View(next, sparse);
    assert p in here.Keys + now.Keys && d in AllDirs(here.Keys + now.Keys);
    CleanSwitchIff(objs, was, next, sparse);
  }

  /**
   Under a sparse set so does an old file that is not even on disk, when the new tree has a directory in its
   place.
   */
  lemma HiddenFileBlocks(objs: set<ObjId>, was: map<string, LeafTarget>, next: map<string, LeafTarget>,
      sparse: set<string>, p: string, d: string)
    requires BlobsPresent(objs, View(next, Some(sparse))) && ManifestsReadable(objs, View(next, Some(sparse)))
    requires d in was && !InSparseSet(d, sparse)
    requires p in next && InSparseSet(p, sparse) && d in Dirs(p)
    ensures var here, now := View(was, Some(sparse)), View(next, Some(sparse));
      d !in here && !Succeeds(objs, here.Keys, AllDirs(here.Keys), was, now)
  {
    var here, now := View(was, Some(sparse)), View(next, Some(sparse));
    assert p in here.Keys + now.Keys && d in AllDirs(here.Keys + now.Keys);
    CleanSwitchIff(objs, was, next, Some(sparse));
  }

  /** An input of that kind: old file "d" outside the set, new file "d/x" inside it. */
  lemma HiddenFileBlocksExample(blob: string)
    ensures var was: map<string, LeafTarget> := map["d" := BlobTarget(blob)];
      var next: map<string, LeafTarget> := map["d/x" := BlobTarget(blob)];
      var now := View(next, Some({"d/"}));
      && View(was, Some({"d/"})) == map[] && now == next
      && !Succeeds({BlobId(blob)}, {}, {}, was, now)
  {
    var was: map<string, LeafTarget> := map["d" := BlobTarget(blob)];
    var next: map<string, LeafTarget> := map["d/x" := BlobTarget(blob)];
    var sparse := {"d/"};
    assert "d/" in sparse && EndsWithSlash("d/") && "d/" <= "d/x";
    assert !InSparseSet("d", sparse);
    assert View(was, Some(sparse)) == map[] && View(next, Some(sparse)) == next;
    DirsIff("d/x", "d");
    HiddenFileBlocks({BlobId(blob)}, was, next, sparse, "d/x", "d");
    NothingWritten({});
    assert AllDirs(View(was, Some(sparse)).Keys) == {};
  }
}
