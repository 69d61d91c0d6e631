/** The binary batch upload, client encoder and server decoder, and the JSON form it falls back to. */
module Wire {
  import opened Objects

  type Byte = b: int | 0 <= b < 256

  type Bytes = seq<Byte>

  /** An object as uploaded: the hash the client states, in ASCII, and the data. */
  datatype Item = Item(hash: Bytes, data: Bytes)

  const HASH_BYTES: nat := 64
  const MAX_BATCH_ITEMS: nat := 200
  const FOUR_BYTES: nat := 0x1_0000_0000

  // ----- Numbers and text -----

  /** Python's n.to_bytes(4, "big"). */
  function ToBytes4(n: nat): (s: Bytes)
    requires n < FOUR_BYTES
    ensures |s| == 4 && FromBytes(s) == n
  {
    var third, second, first := n / 256, n / 256 / 256, n / 256 / 256 / 256;
    var s: Bytes := [first, second % 256, third % 256, n % 256];
    FromFour(s);
    assert second == first * 256 + second % 256 && third == second * 256 + third % 256;
    s
  }

  /** Python's int.from_bytes(s, "big"); nothing counts as zero. */
  function FromBytes(s: Bytes): nat {
    if s == [] then 0 else FromBytes(s[..|s| - 1]) * 256 + s[|s| - 1]
  }

  lemma FromFour(s: Bytes)
    requires |s| == 4
    ensures FromBytes(s) == ((s[0] as int * 256 + s[1]) * 256 + s[2]) * 256 + s[3] < FOUR_BYTES
  {
    var a, b, c := s[..1], s[..2], s[..3];
    assert a[..0] == [] && b[..1] == a && c[..2] == b;
    assert FromBytes(a) == s[0];
    assert FromBytes(b) == s[0] as int * 256 + s[1];
    assert FromBytes(c) == (s[0] as int * 256 + s[1]) * 256 + s[2];
  }

  /** Four bytes are the encoding of their number. */
  lemma FromTo4(s: Bytes)
    requires |s| == 4
    ensures FromBytes(s) < FOUR_BYTES && ToBytes4(FromBytes(s)) == s
  {
    FromFour(s);
    var b, c := s[0] as int * 256 + s[1], (s[0] as int * 256 + s[1]) * 256 + s[2];
    LastDigit(c, s[3]);
    LastDigit(b, s[2]);
    LastDigit(s[0] as int, s[1]);
  }

  lemma LastDigit(a: nat, b: Byte)
    ensures (a * 256 + b) / 256 == a && (a * 256 + b) % 256 == b
  {
  }

  predicate Continues(b: Byte) {
    0x80 <= b < 0xC0
  }

  /** The bytes are well-formed UTF-8, as strict decoding demands. */
  predicate Utf8(s: Bytes)
    decreases |s|
  {
    s == []
    || (s[0] < 0x80 && Utf8(s[1..]))
    || (|s| >= 2 && 0xC2 <= s[0] < 0xE0 && Continues(s[1]) && Utf8(s[2..]))
    || (|s| >= 3 && 0xE0 <= s[0] < 0xF0 && Continues(s[1]) && Continues(s[2])
        && (s[0] == 0xE0 ==> s[1] >= 0xA0) && (s[0] == 0xED ==> s[1] < 0xA0) && Utf8(s[3..]))
    || (|s| >= 4 && 0xF0 <= s[0] < 0xF5 && Continues(s[1]) && Continues(s[2]) && Continues(s[3])
        && (s[0] == 0xF0 ==> s[1] >= 0x90) && (s[0] == 0xF4 ==> s[1] < 0x90) && Utf8(s[4..]))
  }

  predicate Ascii(s: Bytes) {
    forall b <- s :: b < 0x80
  }

  lemma {:induction false} AsciiUtf8(s: Bytes)
    requires Ascii(s)
    ensures Utf8(s)
  {
    if s != [] {
      assert s[0] in s && forall b <- s[1..] :: b in s;
      AsciiUtf8(s[1..]);
    }
  }

  // The names of the object types, in ASCII.
  const COMMITS: Bytes := [99, 111, 109, 109, 105, 116, 115]
  const TREES: Bytes := [116, 114, 101, 101, 115]
  const MANIFESTS: Bytes := [109, 97, 110, 105, 102, 101, 115, 116, 115]
  const ROWS: Bytes := [114, 111, 119, 115]
  const SIDECARS: Bytes := [115, 105, 100, 101, 99, 97, 114, 115]
  const BLOBS: Bytes := [98, 108, 111, 98, 115]

  predicate ValidType(t: Bytes) {
    t in [COMMITS, TREES, MANIFESTS, ROWS, SIDECARS, BLOBS]
  }

  lemma ValidTypeShort(t: Bytes)
    requires ValidType(t)
    ensures |t| < 256 && Ascii(t)
  {
  }

  // ----- Encoder -----

  predicate Encodable(objType: Bytes, items: seq<Item>) {
    |objType| < 256 && |items| < FOUR_BYTES && Sized(items)
  }

  predicate Sized(items: seq<Item>) {
    forall i <- items :: |i.data| < FOUR_BYTES
  }

  function EncodeItem(i: Item): Bytes
    requires |i.data| < FOUR_BYTES
  {
    i.hash + ToBytes4(|i.data|) + i.data
  }

  function EncodeItems(items: seq<Item>): Bytes
    requires Sized(items)
  {
    if items == [] then [] else
      assert forall i <- items[..|items| - 1] :: i in items;
      assert items[|items| - 1] in items;
      EncodeItems(items[..|items| - 1]) + EncodeItem(items[|items| - 1])
  }

  function Header(objType: Bytes, count: nat): Bytes
    requires |objType| < 256 && count < FOUR_BYTES
  {
    [|objType|] + objType + ToBytes4(count)
  }

  function Encode(objType: Bytes, items: seq<Item>): Option<Bytes> {
    if Encodable(objType, items) then Some(Header(objType, |items|) + EncodeItems(items)) else None
  }

  /** Build the request body; None when a length does not fit and the source raises. */
  method UploadBatchBin(objType: Bytes, items: seq<Item>) returns (body: Option<Bytes>)
    ensures body == Encode(objType, items)
  {
    hide EncodeItems, ToBytes4, FromBytes, EncodeItem, Encodable, Header, Encode;
    EncodeIs(objType, items);
    if |objType| >= 256 {
      return None;
    }
    var buf: Bytes := [|objType|];
    buf := buf + objType;
    if |items| >= FOUR_BYTES {
      return None;
    }
    buf := buf + ToBytes4(|items|);
    ghost var header := buf;
    EncodeNone();
    for k := 0 to |items|
      invariant Sized(items[..k]) && buf == header + EncodeItems(items[..k])
    {
      var item := items[k];
      if |item.data| >= FOUR_BYTES {
        assert item in items;
        return None;
      }
      EncodeNext(items, k);
      buf := buf + item.hash;
      buf := buf + ToBytes4(|item.data|);
      buf := buf + item.data;
    }
    assert items[..|items|] == items;
    return Some(buf);
  }

  lemma EncodeIs(objType: Bytes, items: seq<Item>)
    ensures Encode(objType, items) ==
      if |objType| < 256 && |items| < FOUR_BYTES && Sized(items) then
        Some([|objType|] + objType + ToBytes4(|items|) + EncodeItems(items))
      else None
  {
    hide EncodeItems, ToBytes4;
  }

  lemma EncodeNone()
    ensures Sized([]) && EncodeItems([]) == []
  {
  }

  lemma EncodeNext(items: seq<Item>, k: nat)
    requires k < |items| && Sized(items[..k]) && |items[k].data| < FOUR_BYTES
    ensures Sized(items[..k + 1])
    ensures EncodeItems(items[..k + 1]) ==
      EncodeItems(items[..k]) + items[k].hash + ToBytes4(|items[k].data|) + items[k].data
  {
    hide ToBytes4;
    var upTo := items[..k + 1];
    assert upTo == items[..k] + [items[k]] && upTo[..|upTo| - 1] == items[..k];
  }

  // ----- Decoder -----

  function Clamp(i: nat, n: nat): (r: nat)
    ensures r <= i && r <= n && (i <= n ==> r == i)
  {
    if i <= n then i else n
  }

  /** Python's body[i : i + n]: a slice running off the end is cut short. */
  function Slice(body: Bytes, i: nat, n: nat): (s: Bytes)
    ensures |s| <= n && (i + n <= |body| ==> |s| == n)
  {
    body[Clamp(i, |body|)..Clamp(i + n, |body|)]
  }

  function DataLength(body: Bytes, offset: nat): nat {
    FromBytes(Slice(body, offset + HASH_BYTES, 4))
  }

  function ParseItem(body: Bytes, offset: nat): Item {
    Item(Slice(body, offset, HASH_BYTES), Slice(body, offset + HASH_BYTES + 4, DataLength(body, offset)))
  }

  function Next(body: Bytes, offset: nat): nat {
    offset + HASH_BYTES + 4 + DataLength(body, offset)
  }

  /** The next `n` items and where reading stops. */
  function ParseItems(body: Bytes, offset: nat, n: nat): (r: (seq<Item>, nat))
    ensures |r.0| == n
    decreases n
  {
    if n == 0 then ([], offset) else
      var (rest, end) := ParseItems(body, Next(body, offset), n - 1);
      ([ParseItem(body, offset)] + rest, end)
  }

  datatype Decoded = Empty | BadText | BadType | TooMany(count: nat) | Items(objType: Bytes, items: seq<Item>, end: nat)

  function Decode(body: Bytes): Decoded {
    if body == [] then Empty else
      var objType := Slice(body, 1, body[0]);
      var start: nat := 1 + body[0] as nat;
      if !Utf8(objType) then BadText
      else if !ValidType(objType) then BadType
      else
        var count := FromBytes(Slice(body, start, 4));
        if count > MAX_BATCH_ITEMS then TooMany(count) else
          var (items, end) := ParseItems(body, start + 4, count);
          Items(objType, items, end)
  }

  datatype Mismatch = Mismatch(claimed: Bytes, computed: Bytes)

  datatype Response = ServerError | BadRequest | Reply(accepted: nat, errors: seq<Mismatch>)

  /** The items up to the first whose hash is not text. */
  function Readable(items: seq<Item>): seq<Item> {
    if items == [] || !Utf8(items[0].hash) then [] else [items[0]] + Readable(items[1..])
  }

  function Accepted(sha: Bytes -> Bytes, items: seq<Item>): seq<Item> {
    if items == [] then [] else
      var last := items[|items| - 1];
      Accepted(sha, items[..|items| - 1]) + if sha(last.data) == last.hash then [last] else []
  }

  function Mismatches(sha: Bytes -> Bytes, items: seq<Item>): seq<Mismatch> {
    if items == [] then [] else
      var last := items[|items| - 1];
      Mismatches(sha, items[..|items| - 1]) +
        if sha(last.data) == last.hash then [] else [Mismatch(last.hash, sha(last.data))]
  }

  function Stored(objType: Bytes, items: seq<Item>): set<(Bytes, Bytes)> {
    set i <- items :: (objType, i.data)
  }

  function AnswerItems(sha: Bytes -> Bytes, items: seq<Item>): Response {
    if |Readable(items)| < |items| then ServerError else Reply(|Accepted(sha, items)|, Mismatches(sha, items))
  }

  /** The answer to a body. */
  function Answer(sha: Bytes -> Bytes, body: Bytes): Response {
    match Decode(body)
    case Empty => ServerError
    case BadText => ServerError
    case BadType => BadRequest
    case TooMany(_) => BadRequest
    case Items(_, items, _) => AnswerItems(sha, items)
  }

  /** What a body adds to the store. */
  function Adds(sha: Bytes -> Bytes, body: Bytes): set<(Bytes, Bytes)> {
    match Decode(body)
    case Items(objType, items, _) => Stored(objType, Accepted(sha, Readable(items)))
    case _ => {}
  }

  /** The server's store at the level of bytes: typed data, found by the hash of the data. */
  class ByteStore {
    var objects: set<(Bytes, Bytes)>

    constructor ()
      ensures objects == {}
    {
      objects := {};
    }

    method Write(objType: Bytes, data: Bytes)
      modifies this
      ensures objects == old(objects) + {(objType, data)}
    {
      objects := objects + {(objType, data)};
    }
  }

  method BatchUploadBin(store: ByteStore, sha: Bytes -> Bytes, body: Bytes) returns (r: Response)
    modifies store
    ensures r == Answer(sha, body)
    ensures store.objects == old(store.objects) + Adds(sha, body)
  {
    hide Utf8, ValidType, Slice, FromBytes, ParseItems, AnswerItems, Accepted, Stored, Readable;
    if body == [] {
      return ServerError;
    }
    var offset: nat := 0;
    var objTypeLen: nat := body[offset];
    offset := offset + 1;
    var objType := Slice(body, offset, objTypeLen);
    if !Utf8(objType) {
      return ServerError;
    }
    offset := offset + objTypeLen;
    if !ValidType(objType) {
      return BadRequest;
    }
    var itemCount := FromBytes(Slice(body, offset, 4));
    offset := offset + 4;
    if itemCount > MAX_BATCH_ITEMS {
      return BadRequest;
    }
    r := ReceiveItems(store, sha, objType, body, offset, itemCount);
  }

  /** The loop over the items. */
  method ReceiveItems(store: ByteStore, sha: Bytes -> Bytes, objType: Bytes, body: Bytes, start: nat, count: nat)
    returns (r: Response)
    modifies store
    ensures var items := ParseItems(body, start, count).0;
      && r == AnswerItems(sha, items)
      && store.objects == old(store.objects) + Stored(objType, Accepted(sha, Readable(items)))
  {
    hide Receiving, Accepted, Mismatches, Stored, ParseItems, Utf8, Slice, FromBytes, Readable;
    var offset: nat := start;
    var accepted: nat, errors: seq<Mismatch> := 0, [];
    ghost var done: seq<Item> := [];
    ReceivingStarts(sha, body, start, count);
    for k := 0 to count
      invariant Receiving(sha, body, start, count, done, offset, accepted, errors) && |done| == k
      invariant store.objects == old(store.objects) + Stored(objType, Accepted(sha, done))
    {
      ghost var item := ParseItem(body, offset);
      var hashHex := Slice(body, offset, HASH_BYTES);
      if !Utf8(hashHex) {
        ReceivingStops(sha, body, start, count, done, offset, accepted, errors);
        return ServerError;
      }
      ReceivingStep(sha, body, start, count, done, offset, accepted, errors);
      AddsStep(sha, objType, done, item);
      offset := offset + HASH_BYTES;
      var dataLen := FromBytes(Slice(body, offset, 4));
      offset := offset + 4;
      var data := Slice(body, offset, dataLen);
      offset := offset + dataLen;
      done := done + [item];
      var computed := sha(data);
      if computed != hashHex {
        errors := errors + [Mismatch(hashHex, computed)];
        continue;
      }
      store.Write(objType, data);
      accepted := accepted + 1;
    }
    ReceivingEnds(sha, body, start, count, done, offset, accepted, errors);
    return Reply(accepted, errors);
  }

  /** The items parsed so far are text, judged, and followed in the body by the rest. */
  ghost predicate Receiving(sha: Bytes -> Bytes, body: Bytes, start: nat, count: nat, done: seq<Item>, offset: nat,
      accepted: nat, errors: seq<Mismatch>)
  {
    && |done| <= count
    && ParseItems(body, start, count).0 == done + ParseItems(body, offset, count - |done|).0
    && (forall i <- done :: Utf8(i.hash))
    && accepted == |Accepted(sha, done)| && errors == Mismatches(sha, done)
  }

  lemma ReceivingStarts(sha: Bytes -> Bytes, body: Bytes, start: nat, count: nat)
    ensures Receiving(sha, body, start, count, [], start, 0, []) && Accepted(sha, []) == []
    ensures forall t: Bytes :: Stored(t, []) == {}
  {
  }

  lemma ReceivingStep(sha: Bytes -> Bytes, body: Bytes, start: nat, count: nat, done: seq<Item>, offset: nat,
      accepted: nat, errors: seq<Mismatch>)
    requires Receiving(sha, body, start, count, done, offset, accepted, errors) && |done| < count
    requires Utf8(ParseItem(body, offset).hash)
    ensures var item := ParseItem(body, offset);
      var ok := sha(item.data) == item.hash;
      Receiving(sha, body, start, count, done + [item], Next(body, offset), accepted + (if ok then 1 else 0),
                if ok then errors else errors + [Mismatch(item.hash, sha(item.data))])
  {
    hide Utf8, ParseItem, Next;
    var item := ParseItem(body, offset);
    JudgeOne(sha, done, item);
    hide Accepted, Mismatches;
    var rest := ParseItems(body, Next(body, offset), count - |done| - 1).0;
    assert done + ([item] + rest) == done + [item] + rest;
  }

  lemma JudgeOne(sha: Bytes -> Bytes, done: seq<Item>, item: Item)
    ensures var ok := sha(item.data) == item.hash;
      && Accepted(sha, done + [item]) == Accepted(sha, done) + (if ok then [item] else [])
      && Mismatches(sha, done + [item]) ==
        Mismatches(sha, done) + (if ok then [] else [Mismatch(item.hash, sha(item.data))])
  {
    assert (done + [item])[..|done|] == done;
  }

  lemma AddsStep(sha: Bytes -> Bytes, objType: Bytes, done: seq<Item>, item: Item)
    ensures Stored(objType, Accepted(sha, done + [item])) ==
      Stored(objType, Accepted(sha, done)) + if sha(item.data) == item.hash then {(objType, item.data)} else {}
  {
    JudgeOne(sha, done, item);
    StoredOne(objType, Accepted(sha, done), item);
  }

  lemma ReceivingStops(sha: Bytes -> Bytes, body: Bytes, start: nat, count: nat, done: seq<Item>, offset: nat,
      accepted: nat, errors: seq<Mismatch>)
    requires Receiving(sha, body, start, count, done, offset, accepted, errors) && |done| < count
    requires !Utf8(ParseItem(body, offset).hash)
    ensures Readable(ParseItems(body, start, count).0) == done
    ensures |ParseItems(body, start, count).0| == count
  {
    hide Utf8, ParseItem, Next;
    ReadableStops(done, ParseItem(body, offset), ParseItems(body, Next(body, offset), count - |done| - 1).0);
  }

  lemma ReceivingEnds(sha: Bytes -> Bytes, body: Bytes, start: nat, count: nat, done: seq<Item>, offset: nat,
      accepted: nat, errors: seq<Mismatch>)
    requires Receiving(sha, body, start, count, done, offset, accepted, errors) && |done| == count
    ensures ParseItems(body, start, count).0 == done == Readable(done)
    ensures |ParseItems(body, start, count).0| == count
    ensures accepted == |Accepted(sha, done)| && errors == Mismatches(sha, done)
  {
    assert done + [] == done;
    ReadableAll(done);
  }

  /**
   The other upload format: the same list of items as JSON with base64 data, which is taken to decode to
   what was encoded.
   */
  method BatchUploadJson(store: ByteStore, sha: Bytes -> Bytes, objType: Bytes, items: seq<Item>) returns (r: Response)
    modifies store
    ensures r ==
      if ValidType(objType) && |items| <= MAX_BATCH_ITEMS then Reply(|Accepted(sha, items)|, Mismatches(sha, items))
      else BadRequest
    ensures store.objects == old(store.objects) + if r.Reply? then Stored(objType, Accepted(sha, items)) else {}
  {
    hide ValidType;
    if !ValidType(objType) || |items| > MAX_BATCH_ITEMS {
      return BadRequest;
    }
    var accepted: nat, errors: seq<Mismatch> := 0, [];
    for k := 0 to |items|
      invariant accepted == |Accepted(sha, items[..k])| && errors == Mismatches(sha, items[..k])
      invariant store.objects == old(store.objects) + Stored(objType, Accepted(sha, items[..k]))
    {
      assert items[..k + 1] == items[..k] + [items[k]];
      JudgeOne(sha, items[..k], items[k]);
      AddsStep(sha, objType, items[..k], items[k]);
      var computed := sha(items[k].data);
      if computed != items[k].hash {
        errors := errors + [Mismatch(items[k].hash, computed)];
        continue;
      }
      store.Write(objType, items[k].data);
      accepted := accepted + 1;
    }
    assert items[..|items|] == items;
    return Reply(accepted, errors);
  }

  lemma StoredOne(objType: Bytes, items: seq<Item>, item: Item)
    ensures Stored(objType, items + [item]) == Stored(objType, items) + {(objType, item.data)}
  {
  }

  lemma {:induction false} ReadableAll(items: seq<Item>)
    requires forall i <- items :: Utf8(i.hash)
    ensures Readable(items) == items
  {
    hide Utf8;
    if items != [] {
      assert items[0] in items && forall i <- items[1..] :: i in items;
      ReadableAll(items[1..]);
    }
  }

  lemma {:induction false} ReadableStops(done: seq<Item>, item: Item, rest: seq<Item>)
    requires forall i <- done :: Utf8(i.hash)
    requires !Utf8(item.hash)
    ensures Readable(done + ([item] + rest)) == done
  {
    hide Utf8;
    if done != [] {
      assert done[0] in done && forall i <- done[1..] :: i in done;
      ReadableStops(done[1..], item, rest);
      assert (done + ([item] + rest))[1..] == done[1..] + ([item] + rest);
    }
  }

  // ----- Round trip -----

  /** Every stated hash is 64 ASCII bytes. */
  predicate HashText(items: seq<Item>) {
    forall i <- items :: |i.hash| == HASH_BYTES && Ascii(i.hash)
  }

  lemma EncodeLast(init: seq<Item>, last: Item)
    requires Sized(init) && |last.data| < FOUR_BYTES
    ensures Sized(init + [last]) && EncodeItems(init + [last]) == EncodeItems(init) + EncodeItem(last)
  {
    hide EncodeItem;
    assert (init + [last])[..|init|] == init;
  }

  lemma SizedParts(a: seq<Item>, b: seq<Item>)
    ensures Sized(a + b) <==> Sized(a) && Sized(b)
  {
    assert forall i <- a :: i in a + b;
    assert forall i <- b :: i in a + b;
  }

  lemma EncodeOne(item: Item)
    requires |item.data| < FOUR_BYTES
    ensures Sized([item]) && EncodeItems([item]) == EncodeItem(item)
  {
    EncodeNone();
    EncodeLast([], item);
    assert [] + [item] == [item];
  }

  lemma {:induction false} EncodeFront(item: Item, rest: seq<Item>)
    requires |item.data| < FOUR_BYTES && Sized(rest)
    ensures Sized([item] + rest) && EncodeItems([item] + rest) == EncodeItem(item) + EncodeItems(rest)
    decreases |rest|
  {
    hide EncodeItem, EncodeItems, Sized;
    EncodeOne(item);
    if rest == [] {
      EncodeNone();
      assert [item] + rest == [item];
    } else {
      var init, last := rest[..|rest| - 1], rest[|rest| - 1];
      assert rest == init + [last];
      SizedParts(init, [last]);
      SizedLast(last);
      EncodeFront(item, init);
      EncodeLast(init, last);
      EncodeLast([item] + init, last);
      assert [item] + rest == [item] + init + [last];
    }
  }

  lemma SizedLast(item: Item)
    ensures Sized([item]) <==> |item.data| < FOUR_BYTES
  {
    assert item in [item];
  }

  /** Parsing one item out of the middle of a body. */
  lemma ParseEncodedItem(pre: Bytes, item: Item, post: Bytes)
    requires |item.hash| == HASH_BYTES && |item.data| < FOUR_BYTES
    ensures var body := pre + EncodeItem(item) + post;
      ParseItem(body, |pre|) == item && Next(body, |pre|) == |pre + EncodeItem(item)|
  {
    var body, i := pre + EncodeItem(item) + post, |pre|;
    var length := ToBytes4(|item.data|);
    assert body[i..i + 64] == item.hash;
    assert body[i + 64..i + 68] == length;
    assert body[i + 68..i + 68 + |item.data|] == item.data;
  }

  lemma {:induction false} ParseEncodedItems(pre: Bytes, items: seq<Item>)
    requires Sized(items) && HashText(items)
    ensures var body := pre + EncodeItems(items);
      ParseItems(body, |pre|, |items|) == (items, |body|)
    decreases |items|
  {
    hide ParseItem, Next, FromBytes, EncodeItem, EncodeItems;
    EncodeNone();
    if items == [] {
      assert pre + [] == pre;
    } else {
      var item, rest := items[0], items[1..];
      assert items == [item] + rest && item in items;
      assert forall i <- rest :: i in items;
      EncodeFront(item, rest);
      ParseEncodedItem(pre, item, EncodeItems(rest));
      var pre' := pre + EncodeItem(item);
      assert pre + EncodeItems(items) == pre' + EncodeItems(rest);
      ParseEncodedItems(pre', rest);
    }
  }

  /** Decoding an encoded upload gives back its type and items and stops at the end of the body. */
  lemma RoundTrip(objType: Bytes, items: seq<Item>)
    requires ValidType(objType) && |items| < FOUR_BYTES && Sized(items) && HashText(items)
    ensures Encode(objType, items).Some?
    ensures var body := Encode(objType, items).value;
      Decode(body) == if |items| > MAX_BATCH_ITEMS then TooMany(|items|) else Items(objType, items, |body|)
  {
    hide ValidType, Utf8, FromBytes, ParseItems, EncodeItems, ToBytes4;
    ValidTypeShort(objType);
    AsciiUtf8(objType);
    var header := Header(objType, |items|);
    var body := header + EncodeItems(items);
    assert body[0] == |objType| && body[1..1 + |objType|] == objType;
    assert body[1 + |objType|..5 + |objType|] == ToBytes4(|items|);
    ParseEncodedItems(header, items);
  }

  lemma {:induction false} AllAccepted(sha: Bytes -> Bytes, items: seq<Item>)
    requires forall k | 0 <= k < |items| :: sha(items[k].data) == items[k].hash
    ensures Accepted(sha, items) == items && Mismatches(sha, items) == []
  {
    if items != [] {
      var init, last := items[..|items| - 1], items[|items| - 1];
      AllAccepted(sha, init);
      assert items == init + [last];
      JudgeOne(sha, init, last);
    }
  }

  /** A batch of correctly hashed objects within the limit is stored whole and without errors. */
  lemma UploadStoresAll(sha: Bytes -> Bytes, objType: Bytes, items: seq<Item>)
    requires ValidType(objType) && |items| <= MAX_BATCH_ITEMS && Sized(items) && HashText(items)
    requires forall i <- items :: sha(i.data) == i.hash
    ensures var body := Encode(objType, items);
      && body.Some?
      && Answer(sha, body.value) == Reply(|items|, [])
      && Adds(sha, body.value) == Stored(objType, items)
  {
    hide Utf8, ValidType, Decode, Encode, Accepted, Mismatches, Stored, Readable, Ascii;
    RoundTrip(objType, items);
    forall i | i in items ensures Utf8(i.hash) { AsciiUtf8(i.hash); }
    ReadableAll(items);
    AllAccepted(sha, items);
  }

  lemma {:induction false} AcceptedMeaning(sha: Bytes -> Bytes, items: seq<Item>)
    ensures forall i :: i in Accepted(sha, items) <==> i in items && sha(i.data) == i.hash
    ensures |Accepted(sha, items)| + |Mismatches(sha, items)| == |items|
  {
    if items != [] {
      AcceptedMeaning(sha, items[..|items| - 1]);
      assert items == items[..|items| - 1] + [items[|items| - 1]];
    }
  }

  /**
   Whatever the bytes, only objects of a known type whose data has the stated hash are ever added, and a reply
   accounts for every item.
   */
  lemma OnlyHonestAdded(sha: Bytes -> Bytes, body: Bytes)
    ensures var d := Decode(body);
      forall o <- Adds(sha, body) :: d.Items? && ValidType(o.0) && exists i <- d.items ::
        i.data == o.1 && sha(i.data) == i.hash
    ensures var d, r := Decode(body), Answer(sha, body);
      r.Reply? ==> (d.Items? && r.accepted + |r.errors| == |d.items|)
  {
    hide Decode, Accepted, Mismatches, Readable, ValidType;
    if Decode(body).Items? {
      var items := Decode(body).items;
      DecodeItems(body);
      AcceptedMeaning(sha, items);
      AcceptedMeaning(sha, Readable(items));
      ReadableInside(items);
    }
  }

  lemma {:induction false} ReadableInside(items: seq<Item>)
    ensures forall i <- Readable(items) :: i in items
  {
    hide Utf8;
    if items != [] {
      ReadableInside(items[1..]);
    }
  }

  // ----- The other way round: a body read exactly is the encoding of what it decodes to -----

  lemma {:induction false} ParseAdvances(body: Bytes, offset: nat, n: nat)
    ensures ParseItems(body, offset, n).1 >= offset
    decreases n
  {
    if n > 0 {
      ParseAdvances(body, Next(body, offset), n - 1);
    }
  }

  lemma ParsedItemEncodes(body: Bytes, offset: nat)
    requires Next(body, offset) <= |body|
    ensures var item := ParseItem(body, offset);
      |item.data| < FOUR_BYTES && EncodeItem(item) == body[offset..Next(body, offset)]
  {
    var length := body[offset + 64..offset + 68];
    FromTo4(length);
    hide ToBytes4, FromBytes;
    var end := offset + 68 + FromBytes(length);
    assert body[offset..end] == body[offset..offset + 64] + length + body[offset + 68..end];
  }

  lemma {:induction false} ParsedItemsEncode(body: Bytes, offset: nat, n: nat)
    requires ParseItems(body, offset, n).1 == |body|
    ensures var items := ParseItems(body, offset, n).0;
      offset <= |body| && Sized(items) && EncodeItems(items) == body[offset..]
    decreases n
  {
    hide ParseItem, Next, FromBytes;
    if n == 0 {
      assert body[offset..] == [];
    } else {
      var next := Next(body, offset);
      var item, rest := ParseItem(body, offset), ParseItems(body, next, n - 1).0;
      ParsedItemsEncode(body, next, n - 1);
      NextLater(body, offset);
      ParsedItemEncodes(body, offset);
      EncodeFront(item, rest);
      assert body[offset..] == body[offset..next] + body[next..];
    }
  }

  lemma NextLater(body: Bytes, offset: nat)
    ensures Next(body, offset) >= offset + 68
  {
  }

  /** The parts a decoded body consists of. */
  lemma DecodeItems(body: Bytes)
    requires Decode(body).Items?
    ensures var d := Decode(body);
      && body != [] && ValidType(d.objType) && d.objType == Slice(body, 1, body[0])
      && var start: nat := 1 + body[0] as nat;
      var count := FromBytes(Slice(body, start, 4));
      count <= MAX_BATCH_ITEMS && (d.items, d.end) == ParseItems(body, start + 4, count)
  {
    hide ParseItems, Utf8, ValidType, FromBytes, Slice;
  }

  /** A body consumed exactly is the one encoding of its type and items. */
  lemma ExactBodyEncodes(body: Bytes)
    requires Decode(body).Items? && Decode(body).end == |body|
    ensures Encode(Decode(body).objType, Decode(body).items) == Some(body)
  {
    hide ParseItems, Decode, ValidType, FromBytes, EncodeItems, ToBytes4, Ascii;
    DecodeItems(body);
    var n := body[0] as nat;
    var count := FromBytes(Slice(body, 1 + n, 4));
    ParseAdvances(body, 5 + n, count);
    ParsedItemsEncode(body, 5 + n, count);
    var bytes := body[1 + n..5 + n];
    assert bytes == Slice(body, 1 + n, 4) && body[1..1 + n] == Slice(body, 1, n);
    FromTo4(bytes);
    assert body == [body[0]] + body[1..1 + n] + bytes + body[5 + n..];
  }

  /**
   The answer to any bytes: an error of the server when there is no length, the type or a hash is not text; a
   refusal of unknown types and of more than 200 items; otherwise a reply.
   */
  lemma AnswerMeaning(sha: Bytes -> Bytes, body: Bytes)
    ensures if body == [] then Answer(sha, body) == ServerError else
      var start: nat := 1 + body[0] as nat;
      var objType := if 1 >= |body| then [] else if start <= |body| then body[1..start] else body[1..];
      var head := if start >= |body| then [] else if start + 4 <= |body| then body[start..start + 4] else body[start..];
      var count := FromBytes(head);
      if !Utf8(objType) then Answer(sha, body) == ServerError
      else if !ValidType(objType) || count > 200 then Answer(sha, body) == BadRequest
      else
        var items := ParseItems(body, start + 4, count).0;
        if forall i <- items :: Utf8(i.hash) then Answer(sha, body).Reply? else Answer(sha, body) == ServerError
  {
    hide *;
    if body == [] {
      EmptyAnswer(sha);
    } else {
      var start: nat := 1 + body[0] as nat;
      SliceIs(body, 1, body[0]);
      SliceIs(body, start, 4);
      AnswerBySlices(sha, body);
    }
  }

  lemma EmptyAnswer(sha: Bytes -> Bytes)
    ensures Answer(sha, []) == ServerError
  {
  }

  lemma AnswerBySlices(sha: Bytes -> Bytes, body: Bytes)
    requires body != []
    ensures var objType, start: nat := Slice(body, 1, body[0]), 1 + body[0] as nat;
      var count := FromBytes(Slice(body, start, 4));
      if !Utf8(objType) then Answer(sha, body) == ServerError
      else if !ValidType(objType) || count > 200 then Answer(sha, body) == BadRequest
      else
        var items := ParseItems(body, start + 4, count).0;
        if forall i <- items :: Utf8(i.hash) then Answer(sha, body).Reply? else Answer(sha, body) == ServerError
  {
    hide *;
    var objType, start: nat := Slice(body, 1, body[0]), 1 + body[0] as nat;
    var count := FromBytes(Slice(body, start, 4));
    DecodeBySlices(body);
    AnswerByCases(sha, body);
    if Utf8(objType) && ValidType(objType) && count <= 200 {
      AnswerItemsMeaning(sha, ParseItems(body, start + 4, count).0);
    }
  }

  lemma DecodeBySlices(body: Bytes)
    requires body != []
    ensures var objType, start: nat := Slice(body, 1, body[0]), 1 + body[0] as nat;
      var count := FromBytes(Slice(body, start, 4));
      if !Utf8(objType) then Decode(body) == BadText
      else if !ValidType(objType) then Decode(body) == BadType
      else if count > 200 then Decode(body) == TooMany(count)
      else
        Decode(body).Items? && Decode(body).items == ParseItems(body, start + 4, count).0
  {
    hide Utf8, FromBytes, ParseItems, Slice, ValidType;
  }

  lemma AnswerByCases(sha: Bytes -> Bytes, body: Bytes)
    ensures var d := Decode(body);
      && (d.BadText? ==> Answer(sha, body) == ServerError)
      && (d.BadType? || d.TooMany? ==> Answer(sha, body) == BadRequest)
      && (d.Items? ==> Answer(sha, body) == AnswerItems(sha, d.items))
  {
    hide Decode, AnswerItems;
  }

  lemma AnswerItemsMeaning(sha: Bytes -> Bytes, items: seq<Item>)
    ensures if forall i <- items :: Utf8(i.hash) then AnswerItems(sha, items).Reply?
            else AnswerItems(sha, items) == ServerError
  {
    ReadableIff(items);
    hide Utf8, Readable, Accepted, Mismatches;
  }

  lemma SliceIs(body: Bytes, i: nat, n: nat)
    ensures Slice(body, i, n) == if i >= |body| then [] else if i + n <= |body| then body[i..i + n] else body[i..]
  {
  }

  lemma {:induction false} ReadableIff(items: seq<Item>)
    ensures |Readable(items)| <= |items|
    ensures |Readable(items)| == |items| <==> forall i <- items :: Utf8(i.hash)
  {
    hide Utf8;
    if items != [] {
      ReadableIff(items[1..]);
      assert items == [items[0]] + items[1..];
    }
  }

  /** Every badly hashed item is reported with the hash it claimed and the hash it has. */
  lemma {:induction false} MismatchesMeaning(sha: Bytes -> Bytes, items: seq<Item>)
    ensures forall m :: m in Mismatches(sha, items) <==>
      exists i <- items :: sha(i.data) != i.hash && m == Mismatch(i.hash, sha(i.data))
  {
    if items != [] {
      var init, last := items[..|items| - 1], items[|items| - 1];
      MismatchesMeaning(sha, init);
      assert items == init + [last];
    }
  }

  /** What is added: the correctly hashed data of the items before the first hash that is not text. */
  lemma AddsMeaning(sha: Bytes -> Bytes, body: Bytes, o: (Bytes, Bytes))
    requires Decode(body).Items?
    ensures var d := Decode(body);
      o in Adds(sha, body) <==>
        o.0 == d.objType && exists k | 0 <= k < |d.items| ::
          d.items[k].data == o.1 && sha(o.1) == d.items[k].hash && forall j | 0 <= j <= k :: Utf8(d.items[j].hash)
  {
    var items := Decode(body).items;
    AcceptedMeaning(sha, Readable(items));
    AcceptedAt(sha, items, o.1);
    hide Utf8, Decode, Accepted, Readable;
  }

  /** Which data comes from a readable and correctly hashed item. */
  lemma AcceptedAt(sha: Bytes -> Bytes, items: seq<Item>, data: Bytes)
    ensures (exists i <- Readable(items) :: i.data == data && sha(data) == i.hash) <==>
      exists k | 0 <= k < |items| ::
        items[k].data == data && sha(data) == items[k].hash && forall j | 0 <= j <= k :: Utf8(items[j].hash)
  {
    ReadablePrefix(items);
    hide Utf8, Readable;
    var part := Readable(items);
    if k :| 0 <= k < |items| && items[k].data == data && sha(data) == items[k].hash
              && forall j | 0 <= j <= k :: Utf8(items[j].hash) {
      assert k < |part| && part[k] == items[k] && items[k] in part;
    }
    if i :| i in part && i.data == data && sha(data) == i.hash {
      var k :| 0 <= k < |part| && part[k] == i;
      assert items[k] == i;
      forall j | 0 <= j <= k ensures Utf8(items[j].hash) {
        assert part[j] == items[j] && part[j] in part;
      }
    }
  }

  lemma {:induction false} ReadablePrefix(items: seq<Item>)
    ensures Readable(items) <= items && forall i <- Readable(items) :: Utf8(i.hash)
    ensures |Readable(items)| < |items| ==> !Utf8(items[|Readable(items)|].hash)
  {
    hide Utf8;
    if items != [] && Utf8(items[0].hash) {
      ReadablePrefix(items[1..]);
      assert items == [items[0]] + items[1..];
    }
  }
}
