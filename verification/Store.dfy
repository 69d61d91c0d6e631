/** The object store: a mutable map from the objects present to their modification times. */
module Store {
  import opened Objects

  class ObjectStore {
    var files: map<ObjId, int>
    /** The temporary files that interrupted writes left behind. */
    var tmp: map<string, int>

    constructor ()
      ensures files == map[] && tmp == map[]
    {
      files, tmp := map[], map[];
    }

    function Objs(): set<ObjId>
      reads this
    {
      files.Keys
    }

    /** Writing an object that exists changes nothing, not even its modification time. */
    method Write(o: ObjId, now: int)
      modifies this`files
      ensures files == Written(old(files), o, now)
    {
      if o in files {
        return;
      }
      files := files[o := now];
    }

    /** Hash all items first, then write each missing one once. */
    method WriteBatch(items: seq<ObjId>, now: int)
      modifies this`files
      ensures files == WrittenAll(old(files), items, now)
    {
      var toWrite: seq<ObjId> := [];
      for i := 0 to |items|
        invariant files == old(files)
        invariant forall o :: o in toWrite <==> o in items[..i] && o !in files
      {
        var o := items[i];
        assert items[..i + 1] == items[..i] + [o];
        if o in toWrite {
          continue;
        }
        if o in files {
          continue;
        }
        toWrite := toWrite + [o];
      }
      assert items[..|items|] == items;
      for i := 0 to |toWrite|
        invariant files == WrittenAll(old(files), toWrite[..i], now)
      {
        assert toWrite[..i + 1][..i] == toWrite[..i];
        Write(toWrite[i], now);
      }
      assert toWrite[..|toWrite|] == toWrite;
      WrittenAllMeaning(old(files), toWrite, now);
      WrittenAllMeaning(old(files), items, now);
    }
  }

  function Written(files: map<ObjId, int>, o: ObjId, now: int): map<ObjId, int> {
    if o in files then files else files[o := now]
  }

  /** Writing the items one after the other. */
  function WrittenAll(files: map<ObjId, int>, items: seq<ObjId>, now: int): map<ObjId, int> {
    if items == [] then files else Written(WrittenAll(files, items[..|items| - 1], now), items[|items| - 1], now)
  }

  lemma {:induction false} WrittenAllMeaning(files: map<ObjId, int>, items: seq<ObjId>, now: int)
    ensures var f := WrittenAll(files, items, now);
      && f.Keys == files.Keys + (set o <- items)
      && forall o <- f :: f[o] == if o in files then files[o] else now
  {
    if items != [] {
      var init, o := items[..|items| - 1], items[|items| - 1];
      WrittenAllMeaning(files, init, now);
      assert items == init + [o];
      assert (set x <- items) == (set x <- init) + {o};
    }
  }
}
