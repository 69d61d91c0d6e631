/** Uploading what the server lacks: batches by count and size, type by type, commits last. */
module Push {
  import opened Objects
  import opened Wire

  const BATCH_SIZE: nat := 100
  const MAX_BATCH_BYTES: nat := 10 * 1024 * 1024
  const MAX_BATCH_EXISTS: nat := 10000

  const UPLOAD_ORDER: seq<Bytes> := [ROWS, MANIFESTS, SIDECARS, BLOBS, TREES, COMMITS]

  /** The client's objects by type and hash. */
  type Local = map<(Bytes, Bytes), Bytes>

  /** The items for those hashes that can be read, in order; missing ones are passed over with a warning. */
  function Items(local: Local, objType: Bytes, hashes: seq<Bytes>): seq<Item> {
    if hashes == [] then [] else
      var h := hashes[|hashes| - 1];
      Items(local, objType, hashes[..|hashes| - 1]) +
      if (objType, h) in local then [Item(h, local[(objType, h)])] else []
  }

  function DataBytes(items: seq<Item>): nat {
    if items == [] then 0 else DataBytes(items[..|items| - 1]) + |items[|items| - 1].data|
  }

  function Concat(batches: seq<seq<Item>>): seq<Item> {
    if batches == [] then [] else Concat(batches[..|batches| - 1]) + batches[|batches| - 1]
  }

  predicate Full(b: seq<Item>) {
    |b| >= BATCH_SIZE || DataBytes(b) >= MAX_BATCH_BYTES
  }

  /** A batch is not empty and was not full before its last item. */
  predicate Cut(b: seq<Item>) {
    b != [] && !Full(b[..|b| - 1])
  }

  /** All batches are cut as soon as they are full, and only the last may fall short. */
  ghost predicate WellCut(batches: seq<seq<Item>>) {
    && (forall b <- batches :: Cut(b))
    && (forall k | 0 <= k < |batches| - 1 :: Full(batches[k]))
  }

  /** What becomes of a request: answered, or the connection breaks before or after the server has handled it. */
  datatype Fate = Answered | LostBefore | LostAfter

  /** The fates of the two attempts at a batch; the second is made only when the first fails. */
  datatype Fates = Fates(binary: Fate, json: Fate)

  /** Some attempt is answered; the binary format is out when a length does not fit. */
  predicate Delivered(items: seq<Item>, fates: Fates) {
    (Sized(items) && fates.binary.Answered?) || fates.json.Answered?
  }

  /** Some attempt gets as far as the server. */
  predicate Reaches(items: seq<Item>, fates: Fates) {
    (Sized(items) && !fates.binary.LostBefore?) || !fates.json.LostBefore?
  }

  /** Send one batch, in the binary format or, when that fails in any way, as JSON. */
  method UploadBatch(server: ByteStore, sha: Bytes -> Bytes, objType: Bytes, items: seq<Item>, fates: Fates)
    returns (ok: bool)
    requires ValidType(objType) && HashText(items) && |items| <= BATCH_SIZE
    modifies server
    ensures ok <==> Delivered(items, fates)
    ensures ok ==> Reaches(items, fates)
    ensures server.objects == old(server.objects) +
      if Reaches(items, fates) then Stored(objType, Accepted(sha, items)) else {}
    ensures var fits := forall i <- items :: |i.data| < 0x1_0000_0000;
      && (ok <==> (fits && fates.binary == Answered) || fates.json == Answered)
      && var arrives := (fits && fates.binary != LostBefore) || fates.json != LostBefore;
      forall o :: o in server.objects <==>
        o in old(server.objects) ||
        (arrives && o.0 == objType && exists i <- items :: i.data == o.1 && sha(i.data) == i.hash)
  {
    SizedMeaning(items);
    AcceptedMeaning(sha, items);
    hide ValidType, Ascii, Utf8, Accepted, Answer, Adds, Decode, Sized;
    var body := UploadBatchBin(objType, items);
    TypeFits(objType);
    if body.Some? && !fates.binary.LostBefore? {
      BatchAnswered(sha, objType, items);
      var r := BatchUploadBin(server, sha, body.value);
      if r.Reply? && fates.binary.Answered? {
        return true;
      }
    }
    if fates.json.LostBefore? {
      return false;
    }
    var r := BatchUploadJson(server, sha, objType, items);
    return r.Reply? && fates.json.Answered?;
  }

  lemma SizedMeaning(items: seq<Item>)
    ensures Sized(items) <==> forall i <- items :: |i.data| < 0x1_0000_0000
  {
  }

  lemma TypeFits(objType: Bytes)
    requires ValidType(objType)
    ensures |objType| < 256
  {
    ValidTypeShort(objType);
  }

  /** An encodable batch gets a reply, and what it adds are its correctly hashed items. */
  lemma BatchAnswered(sha: Bytes -> Bytes, objType: Bytes, items: seq<Item>)
    requires ValidType(objType) && HashText(items) && |items| <= MAX_BATCH_ITEMS && Sized(items)
    ensures var body := Encode(objType, items);
      body.Some? && Answer(sha, body.value).Reply? && Adds(sha, body.value) == Stored(objType, Accepted(sha, items))
  {
    hide ValidType, Utf8, Accepted, Stored, Decode, Encode, Ascii, Readable;
    RoundTrip(objType, items);
    forall i | i in items ensures Utf8(i.hash) { AsciiUtf8(i.hash); }
    ReadableAll(items);
  }

  lemma AcceptedConcat(sha: Bytes -> Bytes, objType: Bytes, a: seq<Item>, b: seq<Item>)
    ensures Stored(objType, Accepted(sha, a + b)) ==
      Stored(objType, Accepted(sha, a)) + Stored(objType, Accepted(sha, b))
  {
    AcceptedMeaning(sha, a);
    AcceptedMeaning(sha, b);
    AcceptedMeaning(sha, a + b);
  }

  /** Where the upload loop stands: `sent` batches are on the server, `batch` is being filled. */
  ghost predicate Batching(local: Local, objType: Bytes, done: seq<Bytes>, sent: seq<seq<Item>>, batch: seq<Item>,
      batchBytes: nat, uploaded: nat) {
    && Concat(sent) + batch == Items(local, objType, done)
    && (forall b <- sent :: Cut(b) && Full(b))
    && !Full(batch) && batchBytes == DataBytes(batch) && uploaded == |Concat(sent)|
  }

  lemma FillStep(local: Local, objType: Bytes, done: seq<Bytes>, sent: seq<seq<Item>>, batch: seq<Item>,
      batchBytes: nat, uploaded: nat, h: Bytes)
    requires Batching(local, objType, done, sent, batch, batchBytes, uploaded)
    ensures (objType, h) !in local ==> Batching(local, objType, done + [h], sent, batch, batchBytes, uploaded)
    ensures (objType, h) in local ==>
      var item := Item(h, local[(objType, h)]);
      var more := batch + [item];
      && Cut(more) && |more| <= BATCH_SIZE && Concat(sent) + more == Items(local, objType, done + [h])
      && DataBytes(more) == batchBytes + |item.data|
      && (Full(more) ==> Batching(local, objType, done + [h], sent + [more], [], 0, uploaded + |more|))
      && (!Full(more) ==> Batching(local, objType, done + [h], sent, more, DataBytes(more), uploaded))
  {
    assert (done + [h])[..|done|] == done;
    if (objType, h) in local {
      var item := Item(h, local[(objType, h)]);
      var more := batch + [item];
      assert more[..|batch|] == batch;
      assert (sent + [more])[..|sent|] == sent;
      assert Concat(sent) + batch + [item] == Concat(sent) + more;
      assert Concat(sent) + more + [] == Concat(sent) + more;
    }
  }

  ghost predicate HashesText(hashes: seq<Bytes>) {
    forall h <- hashes :: |h| == HASH_BYTES && Ascii(h)
  }

  lemma {:induction false} ItemsText(local: Local, objType: Bytes, hashes: seq<Bytes>)
    requires HashesText(hashes)
    ensures HashText(Items(local, objType, hashes))
  {
    hide Ascii;
    if hashes != [] {
      assert hashes[|hashes| - 1] in hashes && forall h <- hashes[..|hashes| - 1] :: h in hashes;
      ItemsText(local, objType, hashes[..|hashes| - 1]);
    }
  }

  lemma {:induction false} ItemsPrefix(local: Local, objType: Bytes, hashes: seq<Bytes>, i: nat)
    requires i <= |hashes|
    ensures Items(local, objType, hashes[..i]) <= Items(local, objType, hashes)
    decreases |hashes| - i
  {
    if i < |hashes| {
      ItemsPrefix(local, objType, hashes, i + 1);
      assert hashes[..i + 1][..i] == hashes[..i];
    } else {
      assert hashes[..i] == hashes;
    }
  }

  /** The batch being filled is made of items to upload. */
  lemma BatchInside(local: Local, objType: Bytes, hashes: seq<Bytes>, i: nat, sent: seq<seq<Item>>, batch: seq<Item>)
    requires i <= |hashes| && HashesText(hashes)
    requires Concat(sent) + batch == Items(local, objType, hashes[..i])
    ensures HashText(batch)
  {
    hide Ascii, Items, Concat;
    ItemsText(local, objType, hashes);
    ItemsPrefix(local, objType, hashes, i);
    var all := Items(local, objType, hashes);
    var part := Items(local, objType, hashes[..i]);
    assert part == all[..|part|];
    assert forall x <- batch :: x in part && x in all;
  }

  lemma WellCutEnds(sent: seq<seq<Item>>, batch: seq<Item>)
    requires (forall b <- sent :: Cut(b) && Full(b)) && (batch != [] ==> Cut(batch))
    ensures WellCut(if batch == [] then sent else sent + [batch])
    ensures Concat(if batch == [] then sent else sent + [batch]) == Concat(sent) + batch
  {
    assert (sent + [batch])[..|sent|] == sent;
    assert forall k | 0 <= k < |sent| :: sent[k] in sent;
  }

  lemma ShorterNotFull(b: seq<Item>)
    requires !Full(b) && b != []
    ensures Cut(b)
  {
  }

  ghost predicate Begins(part: seq<Item>, all: seq<Item>) {
    part <= all
  }

  /** All batches are delivered, when they are numbered from `first` on. */
  ghost predicate Through(net: nat -> Fates, first: nat, batches: seq<seq<Item>>) {
    forall k: nat | k < |batches| :: Delivered(batches[k], net(first + k))
  }

  lemma ThroughMore(net: nat -> Fates, first: nat, batches: seq<seq<Item>>, batch: seq<Item>)
    ensures Through(net, first, batches + [batch]) <==>
      Through(net, first, batches) && Delivered(batch, net(first + |batches|))
  {
    var more := batches + [batch];
    assert more[|batches|] == batch;
    assert forall k: nat | k < |batches| :: more[k] == batches[k];
    hide Delivered;
  }

  /**
   Upload the items of one type in batches; the first has number `first`, the next free number is `next`,
   and `batches` are those tried.
   */
  method UploadType(server: ByteStore, sha: Bytes -> Bytes, local: Local, objType: Bytes, hashes: seq<Bytes>,
      net: nat -> Fates, first: nat)
    returns (ok: bool, uploaded: nat, next: nat, ghost batches: seq<seq<Item>>)
    requires ValidType(objType) && HashesText(hashes)
    modifies server
    ensures next == first + |batches| && (ok <==> Through(net, first, batches))
    ensures WellCut(batches) && Begins(Concat(batches), Items(local, objType, hashes))
    ensures ok ==> Concat(batches) == Items(local, objType, hashes) && uploaded == |Concat(batches)|
    ensures ok ==> server.objects == old(server.objects) + Stored(objType, Accepted(sha, Items(local, objType, hashes)))
    ensures old(server.objects) <= server.objects <= old(server.objects) +
      Stored(objType, Accepted(sha, Items(local, objType, hashes)))
  {
    hide ValidType, Ascii, Batching, Full, Cut, Concat, Items, Accepted, Stored, DataBytes, WellCut, HashesText,
      HashText, Through, Delivered, Reaches, Begins;
    AllBegins(Items(local, objType, hashes));
    NoneLost(net, first);
    var batch: seq<Item>, batchBytes: nat := [], 0;
    ok, uploaded, next, batches := true, 0, first, [];
    BatchingStarts(sha, local, objType);
    for i := 0 to |hashes|
      invariant Batching(local, objType, hashes[..i], batches, batch, batchBytes, uploaded)
      invariant next == first + |batches| && Through(net, first, batches)
      invariant server.objects == old(server.objects) + Stored(objType, Accepted(sha, Concat(batches)))
    {
      var h := hashes[i];
      FillStep(local, objType, hashes[..i], batches, batch, batchBytes, uploaded, h);
      assert hashes[..i + 1] == hashes[..i] + [h];
      if (objType, h) !in local {
        continue;
      }
      var data := local[(objType, h)];
      batch := batch + [Item(h, data)];
      batchBytes := batchBytes + |data|;
      if |batch| >= BATCH_SIZE || batchBytes >= MAX_BATCH_BYTES {
        FullIs(batch);
        SentStep(sha, local, objType, hashes, i + 1, batches, batch);
        SentSoFar(local, objType, hashes, i + 1, batches, batch);
        ThroughMore(net, first, batches, batch);
        var sent := UploadBatch(server, sha, objType, batch, net(next));
        next := next + 1;
        batches := batches + [batch];
        if !sent {
          return false, uploaded, next, batches;
        }
        uploaded := uploaded + |batch|;
        batch, batchBytes := [], 0;
      } else {
        FullIs(batch);
      }
    }
    assert hashes[..|hashes|] == hashes;
    BatchingEnds(local, objType, hashes, batches, batch, batchBytes, uploaded);
    SentStep(sha, local, objType, hashes, |hashes|, batches, batch);
    if batch != [] {
      ThroughMore(net, first, batches, batch);
      var sent := UploadBatch(server, sha, objType, batch, net(next));
      next := next + 1;
      batches := batches + [batch];
      if !sent {
        return false, uploaded, next, batches;
      }
      uploaded := uploaded + |batch|;
    }
  }

  /** A full batch on its way: those tried so far are well cut. */
  lemma SentSoFar(local: Local, objType: Bytes, hashes: seq<Bytes>, i: nat, sent: seq<seq<Item>>, batch: seq<Item>)
    requires i <= |hashes| && Concat(sent) + batch == Items(local, objType, hashes[..i])
    requires (forall b <- sent :: Cut(b) && Full(b)) && batch != [] && Cut(batch)
    ensures WellCut(sent + [batch]) && Begins(Concat(sent + [batch]), Items(local, objType, hashes))
  {
    hide Items, Full, Cut, Concat;
    WellCutEnds(sent, batch);
    ItemsPrefix(local, objType, hashes, i);
  }

  lemma AllBegins(all: seq<Item>)
    ensures Begins(all, all)
  {
  }

  lemma FullIs(b: seq<Item>)
    ensures Full(b) <==> |b| >= BATCH_SIZE || DataBytes(b) >= MAX_BATCH_BYTES
  {
  }

  lemma BatchingStarts(sha: Bytes -> Bytes, local: Local, objType: Bytes)
    ensures Batching(local, objType, [], [], [], 0, 0)
    ensures Concat([]) == [] && Stored(objType, Accepted(sha, [])) == {}
  {
  }

  lemma BatchingEnds(local: Local, objType: Bytes, hashes: seq<Bytes>, sent: seq<seq<Item>>, batch: seq<Item>,
      batchBytes: nat, uploaded: nat)
    requires Batching(local, objType, hashes, sent, batch, batchBytes, uploaded)
    ensures |batch| <= BATCH_SIZE && uploaded == |Concat(sent)|
    ensures var all := if batch == [] then sent else sent + [batch];
      WellCut(all) && Concat(all) == Items(local, objType, hashes)
    ensures Concat(sent) + batch == Items(local, objType, hashes)
  {
    if batch != [] {
      ShorterNotFull(batch);
    }
    WellCutEnds(sent, batch);
  }

  /** Sending one more batch. */
  lemma SentStep(sha: Bytes -> Bytes, local: Local, objType: Bytes, hashes: seq<Bytes>, i: nat,
      sent: seq<seq<Item>>, batch: seq<Item>)
    requires i <= |hashes| && HashesText(hashes)
    requires Concat(sent) + batch == Items(local, objType, hashes[..i])
    ensures HashText(batch)
    ensures Concat(sent + [batch]) == Items(local, objType, hashes[..i])
    ensures Stored(objType, Accepted(sha, Concat(sent + [batch]))) ==
      Stored(objType, Accepted(sha, Concat(sent))) + Stored(objType, Accepted(sha, batch))
    ensures Stored(objType, Accepted(sha, Concat(sent + [batch]))) <=
      Stored(objType, Accepted(sha, Items(local, objType, hashes)))
  {
    hide Ascii, Items, Accepted, Stored;
    assert (sent + [batch])[..|sent|] == sent;
    BatchInside(local, objType, hashes, i, sent, batch);
    AcceptedConcat(sha, objType, Concat(sent), batch);
    ItemsPrefix(local, objType, hashes, i);
    var part, all := Items(local, objType, hashes[..i]), Items(local, objType, hashes);
    assert all == part + all[|part|..];
    AcceptedConcat(sha, objType, part, all[|part|..]);
  }

  // ----- All types -----

  /** The hashes of one type that the server says it lacks. */
  function Absent(objects: set<(Bytes, Bytes)>, sha: Bytes -> Bytes, objType: Bytes, hashes: seq<Bytes>): seq<Bytes> {
    if hashes == [] then [] else
      var h := hashes[|hashes| - 1];
      Absent(objects, sha, objType, hashes[..|hashes| - 1]) + if Exists(objects, sha, objType, h) then [] else [h]
  }

  /** The server holds an object of the type under the hash. */
  predicate Exists(objects: set<(Bytes, Bytes)>, sha: Bytes -> Bytes, objType: Bytes, h: Bytes) {
    exists o <- objects :: o.0 == objType && sha(o.1) == h
  }

  /** Ask which hashes exist and keep the others; too long a list is refused. */
  method ToUpload(server: ByteStore, sha: Bytes -> Bytes, objType: Bytes, hashes: seq<Bytes>)
    returns (r: Option<seq<Bytes>>)
    ensures r == if |hashes| > MAX_BATCH_EXISTS then None else Some(Absent(server.objects, sha, objType, hashes))
    ensures r.Some? ==>
      forall h :: h in r.value <==> h in hashes && forall o <- server.objects | o.0 == objType :: sha(o.1) != h
  {
    AbsentMeaning(server.objects, sha, objType, hashes);
    if |hashes| > MAX_BATCH_EXISTS {
      return None;
    }
    var absent: seq<Bytes> := [];
    for i := 0 to |hashes|
      invariant absent == Absent(server.objects, sha, objType, hashes[..i])
    {
      assert hashes[..i + 1][..i] == hashes[..i];
      if !Exists(server.objects, sha, objType, hashes[i]) {
        absent := absent + [hashes[i]];
      }
    }
    assert hashes[..|hashes|] == hashes;
    return Some(absent);
  }

  lemma {:induction false} AbsentMeaning(objects: set<(Bytes, Bytes)>, sha: Bytes -> Bytes, objType: Bytes,
      hashes: seq<Bytes>)
    ensures forall h :: h in Absent(objects, sha, objType, hashes) <==>
      h in hashes && forall o <- objects | o.0 == objType :: sha(o.1) != h
  {
    if hashes != [] {
      AbsentMeaning(objects, sha, objType, hashes[..|hashes| - 1]);
      assert hashes == hashes[..|hashes| - 1] + [hashes[|hashes| - 1]];
    }
  }

  lemma {:induction false} ItemsMeaning(local: Local, objType: Bytes, hashes: seq<Bytes>)
    ensures forall i :: i in Items(local, objType, hashes) <==>
      i.hash in hashes && (objType, i.hash) in local && i.data == local[(objType, i.hash)]
  {
    if hashes != [] {
      ItemsMeaning(local, objType, hashes[..|hashes| - 1]);
      assert hashes == hashes[..|hashes| - 1] + [hashes[|hashes| - 1]];
    }
  }

  /** The client's objects have the hashes they are filed under. */
  ghost predicate HonestStore(local: Local, sha: Bytes -> Bytes) {
    forall k <- local :: sha(local[k]) == k.1
  }

  /** What the upload of one type adds. */
  function TypeAdds(objects: set<(Bytes, Bytes)>, sha: Bytes -> Bytes, local: Local, objType: Bytes,
      hashes: seq<Bytes>): set<(Bytes, Bytes)> {
    Stored(objType, Accepted(sha, Items(local, objType, Absent(objects, sha, objType, hashes))))
  }

  /** What the first `n` types of an upload order add. */
  function Arrived(objects: set<(Bytes, Bytes)>, sha: Bytes -> Bytes, local: Local, wanted: map<Bytes, seq<Bytes>>,
      order: seq<Bytes>, n: nat): set<(Bytes, Bytes)>
    requires n <= |order| && Covering(wanted, order)
  {
    if n == 0 then {} else
      Arrived(objects, sha, local, wanted, order, n - 1) +
        TypeAdds(objects, sha, local, order[n - 1], wanted[order[n - 1]])
  }

  /** Hashes are given for every type of the order. */
  ghost predicate Covering(wanted: map<Bytes, seq<Bytes>>, order: seq<Bytes>) {
    forall t <- order :: t in wanted && HashesText(wanted[t])
  }

  ghost predicate Distinct(order: seq<Bytes>) {
    forall i, j | 0 <= i < j < |order| :: order[i] != order[j]
  }

  /** Some list is too long to ask about. */
  ghost predicate TooLong(wanted: map<Bytes, seq<Bytes>>, order: seq<Bytes>)
    requires Covering(wanted, order)
  {
    exists t <- order :: |wanted[t]| > MAX_BATCH_EXISTS
  }

  datatype Outcome = Done | Refused | Lost

  /** Find out what is missing of every type, before anything is sent. */
  method PlanUploads(server: ByteStore, sha: Bytes -> Bytes, wanted: map<Bytes, seq<Bytes>>, order: seq<Bytes>)
    returns (plan: Option<map<Bytes, seq<Bytes>>>)
    requires Covering(wanted, order)
    ensures plan.None? <==> TooLong(wanted, order)
    ensures plan.Some? ==> forall t <- order ::
      t in plan.value && plan.value[t] == Absent(server.objects, sha, t, wanted[t])
  {
    hide Absent, HashesText;
    var toUpload: map<Bytes, seq<Bytes>> := map[];
    for i := 0 to |order|
      invariant forall t <- order[..i] :: t in wanted && |wanted[t]| <= MAX_BATCH_EXISTS
      invariant forall t <- order[..i] ::
        t in toUpload && t in wanted && toUpload[t] == Absent(server.objects, sha, t, wanted[t])
    {
      var objType := order[i];
      assert objType in order && order[..i + 1] == order[..i] + [objType];
      var absent := ToUpload(server, sha, objType, wanted[objType]);
      if absent.None? {
        return None;
      }
      toUpload := toUpload[objType := absent.value];
    }
    assert order[..|order|] == order;
    return Some(toUpload);
  }

  /** A new object of the k-th type is on the server only together with everything of the types before. */
  ghost predicate InOrder(before: set<(Bytes, Bytes)>, after: set<(Bytes, Bytes)>, sha: Bytes -> Bytes,
      local: Local, wanted: map<Bytes, seq<Bytes>>, order: seq<Bytes>)
    requires Covering(wanted, order)
  {
    forall k, o | 0 <= k < |order| && o in after && o !in before && o.0 == order[k] ::
      Arrived(before, sha, local, wanted, order, k) <= after
  }

  /** Upload everything wanted that the server lacks, one type after the other. */
  method UploadInOrder(server: ByteStore, sha: Bytes -> Bytes, local: Local, wanted: map<Bytes, seq<Bytes>>,
      order: seq<Bytes>, net: nat -> Fates)
    returns (outcome: Outcome, uploaded: nat, ghost tried: seq<seq<Item>>)
    requires Covering(wanted, order) && Distinct(order) && forall t <- order :: ValidType(t)
    modifies server
    ensures outcome == Refused <==> TooLong(wanted, order)
    ensures outcome == Refused ==> server.objects == old(server.objects)
    ensures outcome == Lost <==> !Through(net, 0, tried)
    ensures Begins(Concat(tried), WantedItems(old(server.objects), sha, local, wanted, order, |order|))
    ensures outcome == Done ==>
      && server.objects == old(server.objects) + Arrived(old(server.objects), sha, local, wanted, order, |order|)
      && Concat(tried) == WantedItems(old(server.objects), sha, local, wanted, order, |order|)
      && uploaded == |Concat(tried)|
    ensures old(server.objects) <= server.objects <= old(server.objects) +
      Arrived(old(server.objects), sha, local, wanted, order, |order|)
    ensures InOrder(old(server.objects), server.objects, sha, local, wanted, order)
  {
    ghost var objects := server.objects;
    hide *;
    var requests := 0;
    uploaded, tried := 0, [];
    UploadingStarts(objects, sha, local, wanted, order, net);
    assert forall t <- order :: t in wanted by { CoveringHas(wanted, order); }
    var plan := PlanUploads(server, sha, wanted, order);
    if plan.None? {
      outcome := Refused;
      return;
    }
    for i := 0 to |order|
      invariant Uploading(objects, server.objects, sha, local, wanted, order, i, net, tried, uploaded)
      invariant requests == |tried|
    {
      CoveringHas(wanted, order);
      assert order[i] in order;
      var sent;
      sent, uploaded, requests, tried := UploadNext(server, sha, local, objects, wanted, order, i, plan.value[order[i]],
        net, tried, uploaded, requests);
      if !sent {
        outcome := Lost;
        return;
      }
    }
    UploadingEnds(objects, server.objects, sha, local, wanted, order, net, tried, uploaded);
    AllBegins(Concat(tried));
    outcome := Done;
  }

  /** Where the upload stands after the first `i` types. */
  ghost predicate Uploading(objects: set<(Bytes, Bytes)>, now: set<(Bytes, Bytes)>, sha: Bytes -> Bytes, local: Local,
      wanted: map<Bytes, seq<Bytes>>, order: seq<Bytes>, i: nat, net: nat -> Fates, tried: seq<seq<Item>>,
      uploaded: nat)
    requires i <= |order| && Covering(wanted, order)
  {
    && now == objects + Arrived(objects, sha, local, wanted, order, i)
    && Through(net, 0, tried) && uploaded == |Concat(tried)|
    && Concat(tried) == WantedItems(objects, sha, local, wanted, order, i)
  }

  lemma UploadingStarts(objects: set<(Bytes, Bytes)>, sha: Bytes -> Bytes, local: Local,
      wanted: map<Bytes, seq<Bytes>>, order: seq<Bytes>, net: nat -> Fates)
    requires Covering(wanted, order)
    ensures Uploading(objects, objects, sha, local, wanted, order, 0, net, [], 0) && Through(net, 0, [])
    ensures Begins(Concat([]), WantedItems(objects, sha, local, wanted, order, |order|))
    ensures InOrder(objects, objects, sha, local, wanted, order)
    ensures objects <= objects + Arrived(objects, sha, local, wanted, order, |order|)
  {
    hide Arrived, InOrder, WantedItems;
    ArrivedStarts(objects, sha, local, wanted, order);
    WantedStarts(objects, sha, local, wanted, order);
    NoneLost(net, 0);
  }

  /** One more type, whether all of it got through or not. */
  lemma UploadingNext(objects: set<(Bytes, Bytes)>, before: set<(Bytes, Bytes)>, now: set<(Bytes, Bytes)>,
      sha: Bytes -> Bytes, local: Local, wanted: map<Bytes, seq<Bytes>>, order: seq<Bytes>, i: nat,
      net: nat -> Fates, tried: seq<seq<Item>>, uploaded: nat, batches: seq<seq<Item>>, sent: bool)
    requires i < |order| && Covering(wanted, order) && Distinct(order) && order[i] in wanted
    requires Uploading(objects, before, sha, local, wanted, order, i, net, tried, uploaded)
    requires before <= now <= before + TypeAdds(objects, sha, local, order[i], wanted[order[i]])
    requires Begins(Concat(batches), Items(local, order[i], Absent(objects, sha, order[i], wanted[order[i]])))
    requires sent ==>
      && now == before + TypeAdds(objects, sha, local, order[i], wanted[order[i]])
      && Concat(batches) == Items(local, order[i], Absent(objects, sha, order[i], wanted[order[i]]))
    requires sent <==> Through(net, |tried|, batches)
    ensures objects <= now <= objects + Arrived(objects, sha, local, wanted, order, |order|)
    ensures InOrder(objects, now, sha, local, wanted, order)
    ensures Begins(Concat(tried + batches), WantedItems(objects, sha, local, wanted, order, |order|))
    ensures sent <==> Through(net, 0, tried + batches)
    ensures sent ==> Uploading(objects, now, sha, local, wanted, order, i + 1, net, tried + batches,
                               uploaded + |Concat(batches)|)
  {
    hide Covering, Distinct, TypeAdds, Items, Absent, Through, InOrder, Arrived, WantedItems, Concat, Begins;
    ThroughOn(net, tried, batches);
    TriedMore(objects, sha, local, wanted, order, i, tried, batches);
    ConcatJoin(tried, batches);
    SentMore(objects, now, sha, local, wanted, order, i);
  }

  lemma UploadingEnds(objects: set<(Bytes, Bytes)>, now: set<(Bytes, Bytes)>, sha: Bytes -> Bytes, local: Local,
      wanted: map<Bytes, seq<Bytes>>, order: seq<Bytes>, net: nat -> Fates, tried: seq<seq<Item>>, uploaded: nat)
    requires Covering(wanted, order) && Distinct(order)
    requires Uploading(objects, now, sha, local, wanted, order, |order|, net, tried, uploaded)
    ensures now == objects + Arrived(objects, sha, local, wanted, order, |order|) && objects <= now
    ensures InOrder(objects, now, sha, local, wanted, order)
    ensures Through(net, 0, tried) && uploaded == |Concat(tried)|
    ensures Concat(tried) == WantedItems(objects, sha, local, wanted, order, |order|)
  {
    hide Covering, Distinct, InOrder, Arrived, WantedItems, Concat, Through;
    SentAll(objects, now, sha, local, wanted, order);
  }

  lemma WantedStarts(objects: set<(Bytes, Bytes)>, sha: Bytes -> Bytes, local: Local,
      wanted: map<Bytes, seq<Bytes>>, order: seq<Bytes>)
    requires Covering(wanted, order)
    ensures WantedItems(objects, sha, local, wanted, order, 0) == []
  {
  }

  /** The upload of the planned objects of the `i`th type. */
  method UploadNext(server: ByteStore, sha: Bytes -> Bytes, local: Local, ghost objects: set<(Bytes, Bytes)>,
      ghost wanted: map<Bytes, seq<Bytes>>, order: seq<Bytes>, i: nat, absent: seq<Bytes>, net: nat -> Fates,
      ghost tried0: seq<seq<Item>>, uploaded0: nat, requests0: nat)
    returns (sent: bool, uploaded: nat, requests: nat, ghost tried: seq<seq<Item>>)
    requires i < |order| && Covering(wanted, order) && Distinct(order) && order[i] in wanted && ValidType(order[i])
    requires HashesText(wanted[order[i]]) && absent == Absent(objects, sha, order[i], wanted[order[i]])
    requires Uploading(objects, server.objects, sha, local, wanted, order, i, net, tried0, uploaded0)
    requires requests0 == |tried0|
    modifies server
    ensures requests == |tried| && (sent <==> Through(net, 0, tried))
    ensures sent ==> Uploading(objects, server.objects, sha, local, wanted, order, i + 1, net, tried, uploaded)
    ensures Begins(Concat(tried), WantedItems(objects, sha, local, wanted, order, |order|))
    ensures objects <= server.objects <= objects + Arrived(objects, sha, local, wanted, order, |order|)
    ensures InOrder(objects, server.objects, sha, local, wanted, order)
  {
    hide *;
    ghost var before := server.objects;
    AbsentText(objects, sha, order[i], wanted[order[i]]);
    ghost var batches;
    var count;
    sent, count, requests, batches := UploadType(server, sha, local, order[i], absent, net, requests0);
    tried, uploaded := tried0 + batches, uploaded0 + count;
    TypeAddsIs(objects, sha, local, order[i], wanted[order[i]]);
    UploadingNext(objects, before, server.objects, sha, local, wanted, order, i, net, tried0, uploaded0, batches, sent);
  }

  lemma TypeAddsIs(objects: set<(Bytes, Bytes)>, sha: Bytes -> Bytes, local: Local, objType: Bytes, hashes: seq<Bytes>)
    ensures TypeAdds(objects, sha, local, objType, hashes) ==
      Stored(objType, Accepted(sha, Items(local, objType, Absent(objects, sha, objType, hashes))))
  {
  }

  lemma NoneLost(net: nat -> Fates, first: nat)
    ensures Through(net, first, []) && Concat([]) == []
  {
  }

  lemma ThroughOn(net: nat -> Fates, tried: seq<seq<Item>>, batches: seq<seq<Item>>)
    requires Through(net, 0, tried)
    ensures Through(net, |tried|, batches) <==> Through(net, 0, tried + batches)
  {
    var all := tried + batches;
    hide Delivered;
    assert forall k: nat | k < |tried| :: all[k] == tried[k] && 0 + k == k;
    assert forall k: nat | k < |batches| :: all[|tried| + k] == batches[k];
    if Through(net, 0, all) {
      forall k: nat | k < |batches| ensures Delivered(batches[k], net(|tried| + k)) {
        assert Delivered(all[|tried| + k], net(0 + (|tried| + k)));
      }
    }
    if Through(net, |tried|, batches) {
      forall k: nat | k < |all| ensures Delivered(all[k], net(0 + k)) {
        if k < |tried| {
          assert Delivered(tried[k], net(0 + k));
        } else {
          assert Delivered(batches[k - |tried|], net(|tried| + (k - |tried|)));
        }
      }
    }
  }

  lemma {:induction false} ConcatJoin(a: seq<seq<Item>>, b: seq<seq<Item>>)
    ensures Concat(a + b) == Concat(a) + Concat(b)
    decreases |b|
  {
    if b == [] {
      assert a + b == a;
    } else {
      var rest := b[..|b| - 1];
      ConcatJoin(a, rest);
      assert (a + b)[..|a + b| - 1] == a + rest;
    }
  }

  /** The items of the first `n` types that the server lacks, in the order of their upload. */
  function WantedItems(objects: set<(Bytes, Bytes)>, sha: Bytes -> Bytes, local: Local,
      wanted: map<Bytes, seq<Bytes>>, order: seq<Bytes>, n: nat): seq<Item>
    requires n <= |order| && Covering(wanted, order)
  {
    if n == 0 then [] else
      WantedItems(objects, sha, local, wanted, order, n - 1) +
        Items(local, order[n - 1], Absent(objects, sha, order[n - 1], wanted[order[n - 1]]))
  }

  lemma {:induction false} WantedPrefix(objects: set<(Bytes, Bytes)>, sha: Bytes -> Bytes, local: Local,
      wanted: map<Bytes, seq<Bytes>>, order: seq<Bytes>, i: nat, j: nat)
    requires i <= j <= |order| && Covering(wanted, order)
    ensures Begins(WantedItems(objects, sha, local, wanted, order, i),
                   WantedItems(objects, sha, local, wanted, order, j))
    decreases j
  {
    hide Items, Absent, HashesText;
    if i < j {
      WantedPrefix(objects, sha, local, wanted, order, i, j - 1);
    }
  }

  /** Another type's batches continue the items tried so far. */
  lemma TriedMore(objects: set<(Bytes, Bytes)>, sha: Bytes -> Bytes, local: Local, wanted: map<Bytes, seq<Bytes>>,
      order: seq<Bytes>, i: nat, tried: seq<seq<Item>>, batches: seq<seq<Item>>)
    requires i < |order| && Covering(wanted, order) && order[i] in wanted
    requires Concat(tried) == WantedItems(objects, sha, local, wanted, order, i)
    requires Begins(Concat(batches), Items(local, order[i], Absent(objects, sha, order[i], wanted[order[i]])))
    ensures Begins(Concat(tried + batches), WantedItems(objects, sha, local, wanted, order, |order|))
    ensures Concat(batches) == Items(local, order[i], Absent(objects, sha, order[i], wanted[order[i]])) ==>
      Concat(tried + batches) == WantedItems(objects, sha, local, wanted, order, i + 1)
  {
    hide Items, Absent, HashesText, Concat, WantedItems, Covering, Begins;
    ConcatJoin(tried, batches);
    WantedNext(objects, sha, local, wanted, order, i);
    WantedPrefix(objects, sha, local, wanted, order, i + 1, |order|);
    var part := Items(local, order[i], Absent(objects, sha, order[i], wanted[order[i]]));
    PrefixInside(Concat(tried), Concat(batches), part, WantedItems(objects, sha, local, wanted, order, |order|));
  }

  lemma PrefixInside(a: seq<Item>, b: seq<Item>, part: seq<Item>, all: seq<Item>)
    requires Begins(b, part) && Begins(a + part, all)
    ensures Begins(a + b, all)
  {
  }

  lemma WantedNext(objects: set<(Bytes, Bytes)>, sha: Bytes -> Bytes, local: Local, wanted: map<Bytes, seq<Bytes>>,
      order: seq<Bytes>, i: nat)
    requires i < |order| && Covering(wanted, order) && order[i] in wanted
    ensures WantedItems(objects, sha, local, wanted, order, i + 1) ==
      WantedItems(objects, sha, local, wanted, order, i) +
        Items(local, order[i], Absent(objects, sha, order[i], wanted[order[i]]))
  {
    hide Items, Absent, HashesText;
  }

  lemma CoveringHas(wanted: map<Bytes, seq<Bytes>>, order: seq<Bytes>)
    requires Covering(wanted, order)
    ensures forall t <- order :: t in wanted && HashesText(wanted[t])
  {
  }

  lemma ArrivedOne(objects: set<(Bytes, Bytes)>, sha: Bytes -> Bytes, local: Local, wanted: map<Bytes, seq<Bytes>>,
      order: seq<Bytes>, i: nat)
    requires i < |order| && Covering(wanted, order)
    ensures order[i] in wanted
    ensures Arrived(objects, sha, local, wanted, order, i + 1) ==
      Arrived(objects, sha, local, wanted, order, i) + TypeAdds(objects, sha, local, order[i], wanted[order[i]])
  {
    hide TypeAdds, HashesText;
  }

  lemma SentMore(objects: set<(Bytes, Bytes)>, now: set<(Bytes, Bytes)>, sha: Bytes -> Bytes, local: Local,
      wanted: map<Bytes, seq<Bytes>>, order: seq<Bytes>, i: nat)
    requires i < |order| && Covering(wanted, order) && Distinct(order)
    requires var before := objects + Arrived(objects, sha, local, wanted, order, i);
      before <= now <= before + TypeAdds(objects, sha, local, order[i], wanted[order[i]])
    ensures objects <= now <= objects + Arrived(objects, sha, local, wanted, order, |order|)
    ensures InOrder(objects, now, sha, local, wanted, order)
    ensures var before := objects + Arrived(objects, sha, local, wanted, order, i);
      now == before + TypeAdds(objects, sha, local, order[i], wanted[order[i]])
      ==> now == objects + Arrived(objects, sha, local, wanted, order, i + 1)
  {
    hide Arrived, HashesText, TypeAdds, InOrder, Distinct, Covering;
    ArrivedOne(objects, sha, local, wanted, order, i);
    ArrivedGrows(objects, sha, local, wanted, order, i + 1, |order|);
    StoppedInOrder(objects, now, sha, local, wanted, order, i);
  }

  lemma InOrderEmpty(before: set<(Bytes, Bytes)>, after: set<(Bytes, Bytes)>, sha: Bytes -> Bytes, local: Local,
      wanted: map<Bytes, seq<Bytes>>, order: seq<Bytes>)
    requires order == [] && Covering(wanted, order)
    ensures InOrder(before, after, sha, local, wanted, order)
  {
  }

  lemma SentAll(objects: set<(Bytes, Bytes)>, now: set<(Bytes, Bytes)>, sha: Bytes -> Bytes, local: Local,
      wanted: map<Bytes, seq<Bytes>>, order: seq<Bytes>)
    requires Covering(wanted, order) && Distinct(order)
    requires now == objects + Arrived(objects, sha, local, wanted, order, |order|)
    ensures InOrder(objects, now, sha, local, wanted, order)
  {
    hide Arrived, HashesText, InOrder, Distinct, Covering;
    if order == [] {
      InOrderEmpty(objects, now, sha, local, wanted, order);
    } else {
      ArrivedGrows(objects, sha, local, wanted, order, |order| - 1, |order|);
      StoppedInOrder(objects, now, sha, local, wanted, order, |order| - 1);
    }
  }

  lemma ArrivedStarts(objects: set<(Bytes, Bytes)>, sha: Bytes -> Bytes, local: Local,
      wanted: map<Bytes, seq<Bytes>>, order: seq<Bytes>)
    requires Covering(wanted, order)
    ensures Arrived(objects, sha, local, wanted, order, 0) == {}
    ensures InOrder(objects, objects, sha, local, wanted, order)
    ensures objects <= objects + Arrived(objects, sha, local, wanted, order, |order|)
  {
  }

  lemma AbsentText(objects: set<(Bytes, Bytes)>, sha: Bytes -> Bytes, objType: Bytes, hashes: seq<Bytes>)
    requires HashesText(hashes)
    ensures HashesText(Absent(objects, sha, objType, hashes))
  {
    hide Ascii;
    AbsentMeaning(objects, sha, objType, hashes);
  }

  lemma {:induction false} ArrivedGrows(objects: set<(Bytes, Bytes)>, sha: Bytes -> Bytes, local: Local,
      wanted: map<Bytes, seq<Bytes>>, order: seq<Bytes>, i: nat, j: nat)
    requires i <= j <= |order| && Covering(wanted, order)
    ensures Arrived(objects, sha, local, wanted, order, i) <= Arrived(objects, sha, local, wanted, order, j)
    decreases j
  {
    hide TypeAdds, HashesText;
    if i < j {
      ArrivedGrows(objects, sha, local, wanted, order, i, j - 1);
    }
  }

  lemma {:induction false} ArrivedTypes(objects: set<(Bytes, Bytes)>, sha: Bytes -> Bytes, local: Local,
      wanted: map<Bytes, seq<Bytes>>, order: seq<Bytes>, n: nat)
    requires n <= |order| && Covering(wanted, order)
    ensures forall o <- Arrived(objects, sha, local, wanted, order, n) :: o.0 in order[..n]
    decreases n
  {
    hide Accepted, Items, Absent, HashesText;
    if n > 0 {
      ArrivedTypes(objects, sha, local, wanted, order, n - 1);
      assert order[..n] == order[..n - 1] + [order[n - 1]];
    }
  }

  /** Wherever the upload stops, the order is kept. */
  lemma StoppedInOrder(before: set<(Bytes, Bytes)>, after: set<(Bytes, Bytes)>, sha: Bytes -> Bytes, local: Local,
      wanted: map<Bytes, seq<Bytes>>, order: seq<Bytes>, i: nat)
    requires i < |order| && Covering(wanted, order) && Distinct(order)
    requires Arrived(before, sha, local, wanted, order, i) <= after <= before +
      Arrived(before, sha, local, wanted, order, i + 1)
    ensures InOrder(before, after, sha, local, wanted, order)
  {
    hide Arrived, HashesText;
    ArrivedTypes(before, sha, local, wanted, order, i + 1);
    forall k, o | 0 <= k < |order| && o in after && o !in before && o.0 == order[k]
      ensures Arrived(before, sha, local, wanted, order, k) <= after
    {
      assert o.0 in order[..i + 1];
      ArrivedGrows(before, sha, local, wanted, order, if k <= i then k else i, i);
    }
  }

  /** The order of a push. */
  lemma UploadOrderGood()
    ensures forall t <- UPLOAD_ORDER :: ValidType(t)
    ensures Distinct(UPLOAD_ORDER)
    ensures |UPLOAD_ORDER| == 6 && UPLOAD_ORDER[5] == COMMITS
  {
    assert BLOBS[0] != TREES[0];
  }

  /** Push: rows, manifests, sidecars, blobs, trees, and last the commits. */
  method PushObjects(server: ByteStore, sha: Bytes -> Bytes, local: Local, wanted: map<Bytes, seq<Bytes>>,
      net: nat -> Fates)
    returns (outcome: Outcome, uploaded: nat, ghost tried: seq<seq<Item>>)
    requires Covering(wanted, UPLOAD_ORDER)
    modifies server
    ensures outcome == Refused <==> TooLong(wanted, UPLOAD_ORDER)
    ensures outcome == Lost <==> !Through(net, 0, tried)
    ensures Begins(Concat(tried), WantedItems(old(server.objects), sha, local, wanted, UPLOAD_ORDER, |UPLOAD_ORDER|))
    ensures outcome == Done ==>
      && server.objects == old(server.objects) +
        Arrived(old(server.objects), sha, local, wanted, UPLOAD_ORDER, |UPLOAD_ORDER|)
      && Concat(tried) == WantedItems(old(server.objects), sha, local, wanted, UPLOAD_ORDER, |UPLOAD_ORDER|)
      && uploaded == |Concat(tried)|
    ensures InOrder(old(server.objects), server.objects, sha, local, wanted, UPLOAD_ORDER)
  {
    hide Covering, TooLong, Arrived, InOrder, ValidType, Distinct, Through, Concat, WantedItems, Begins;
    UploadOrderGood();
    outcome, uploaded, tried := UploadInOrder(server, sha, local, wanted, UPLOAD_ORDER, net);
  }

  /** Just what an upload adds: the wanted objects that the client holds under their hash and the server lacked. */
  lemma ArrivedMeaning(objects: set<(Bytes, Bytes)>, sha: Bytes -> Bytes, local: Local,
      wanted: map<Bytes, seq<Bytes>>, order: seq<Bytes>, n: nat, o: (Bytes, Bytes))
    requires n <= |order| && Covering(wanted, order)
    ensures o in Arrived(objects, sha, local, wanted, order, n) <==>
      && o.0 in order[..n] && o.0 in wanted && sha(o.1) in wanted[o.0]
      && (o.0, sha(o.1)) in local && local[(o.0, sha(o.1))] == o.1
      && forall x <- objects | x.0 == o.0 :: sha(x.1) != sha(o.1)
    decreases n
  {
    hide TypeAdds, HashesText;
    if n > 0 {
      ArrivedMeaning(objects, sha, local, wanted, order, n - 1, o);
      assert order[..n] == order[..n - 1] + [order[n - 1]];
      CoveringHas(wanted, order);
      TypeAddsMeaning(objects, sha, local, order[n - 1], wanted[order[n - 1]], o);
    }
  }

  lemma TypeAddsMeaning(objects: set<(Bytes, Bytes)>, sha: Bytes -> Bytes, local: Local, objType: Bytes,
      hashes: seq<Bytes>, o: (Bytes, Bytes))
    ensures o in TypeAdds(objects, sha, local, objType, hashes) <==>
      && o.0 == objType && sha(o.1) in hashes && (objType, sha(o.1)) in local && local[(objType, sha(o.1))] == o.1
      && forall x <- objects | x.0 == objType :: sha(x.1) != sha(o.1)
  {
    var absent := Absent(objects, sha, objType, hashes);
    var items := Items(local, objType, absent);
    AbsentMeaning(objects, sha, objType, hashes);
    ItemsMeaning(local, objType, absent);
    AcceptedMeaning(sha, items);
    hide Absent, Items, Accepted;
    if o.0 == objType && (objType, sha(o.1)) in local && local[(objType, sha(o.1))] == o.1 && sha(o.1) in absent {
      assert Item(sha(o.1), o.1) in Accepted(sha, items);
    }
  }

  /** After a push every wanted object the client holds is on the server. */
  lemma PushArrives(objects: set<(Bytes, Bytes)>, sha: Bytes -> Bytes, local: Local, wanted: map<Bytes, seq<Bytes>>,
      order: seq<Bytes>, t: Bytes, h: Bytes)
    requires HonestStore(local, sha) && Covering(wanted, order) && t in order
    requires h in wanted[t] && (t, h) in local
    ensures exists o <- objects + Arrived(objects, sha, local, wanted, order, |order|) :: o.0 == t && sha(o.1) == h
  {
    assert order[..|order|] == order;
    OneArrives(objects, sha, local, wanted, order, |order|, t, h);
  }

  lemma OneArrives(objects: set<(Bytes, Bytes)>, sha: Bytes -> Bytes, local: Local, wanted: map<Bytes, seq<Bytes>>,
      order: seq<Bytes>, n: nat, t: Bytes, h: Bytes)
    requires HonestStore(local, sha) && Covering(wanted, order) && n <= |order| && t in order[..n]
    requires t in wanted && h in wanted[t] && (t, h) in local
    ensures exists o <- objects + Arrived(objects, sha, local, wanted, order, n) :: o.0 == t && sha(o.1) == h
  {
    var o := (t, local[(t, h)]);
    ArrivedMeaning(objects, sha, local, wanted, order, n, o);
    hide Arrived;
    assert sha(o.1) == h;
    if o !in Arrived(objects, sha, local, wanted, order, n) {
      var x :| x in objects && x.0 == t && sha(x.1) == h;
      assert x in objects + Arrived(objects, sha, local, wanted, order, n);
    } else {
      assert o in objects + Arrived(objects, sha, local, wanted, order, n);
    }
  }

  /**
   Commits come last: however a push ends, once it has added a commit to the server, all the wanted rows,
   manifests, sidecars, blobs and trees that the client holds are there.
   */
  lemma CommitsLast(before: set<(Bytes, Bytes)>, after: set<(Bytes, Bytes)>, sha: Bytes -> Bytes, local: Local,
      wanted: map<Bytes, seq<Bytes>>, c: (Bytes, Bytes), t: Bytes, h: Bytes)
    requires HonestStore(local, sha) && Covering(wanted, UPLOAD_ORDER) && before <= after
    requires InOrder(before, after, sha, local, wanted, UPLOAD_ORDER)
    requires c in after && c !in before && c.0 == COMMITS
    requires t in [ROWS, MANIFESTS, SIDECARS, BLOBS, TREES] && t in wanted && h in wanted[t] && (t, h) in local
    ensures exists o <- after :: o.0 == t && sha(o.1) == h
  {
    hide Arrived, Covering, HonestStore;
    UploadOrderGood();
    var arrived := Arrived(before, sha, local, wanted, UPLOAD_ORDER, 5);
    assert UPLOAD_ORDER[..5] == [ROWS, MANIFESTS, SIDECARS, BLOBS, TREES];
    assert arrived <= after;
    OneArrives(before, sha, local, wanted, UPLOAD_ORDER, 5, t, h);
    var o :| o in before + arrived && o.0 == t && sha(o.1) == h;
    assert o in after;
  }
}
