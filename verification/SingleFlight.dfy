/**
 The bounded summary cache: threads that ask for the same key at once share one computation.

 `SummaryCache` is the state behind the lock, with one method per critical section.  The state machine
 below interleaves any number of threads, each between its critical sections doing nothing but wait
 for an event or compute.
 */
module SingleFlight {
  import opened Objects

  const MAX: nat := 20_000

  type Key = (string, string)
  type Value = string
  type Event = nat

  /** An OrderedDict, oldest entry first. */
  type Cache = seq<(Key, Value)>

  function Get(c: Cache, k: Key): Option<Value> {
    if c == [] then None else if c[0].0 == k then Some(c[0].1) else Get(c[1..], k)
  }

  function Without(c: Cache, k: Key): Cache {
    if c == [] then [] else (if c[0].0 == k then [] else [c[0]]) + Without(c[1..], k)
  }

  /** Assignment keeps the position of a key that is already there. */
  function Put(c: Cache, k: Key, v: Value): Cache {
    if c == [] then [(k, v)] else if c[0].0 == k then [(k, v)] + c[1..] else [c[0]] + Put(c[1..], k, v)
  }

  ghost predicate DistinctKeys(c: Cache) {
    forall i, j | 0 <= i < j < |c| :: c[i].0 != c[j].0
  }

  function Evicted(c: Cache): Cache {
    if |c| > MAX then c[|c| - MAX..] else c
  }

  /** The state behind the lock.  Events are numbered; `fired` holds those that have been set. */
  datatype Shared = Shared(cache: Cache, inFlight: map<Key, Event>, fired: set<Event>, next: Event)

  datatype Entry = Hit(value: Value) | Lead(event: Event) | Follow(event: Event)

  function Enter(s: Shared, k: Key, refresh: bool): (Shared, Entry) {
    var hit := if refresh then None else Get(s.cache, k);
    if hit.Some? then (s.(cache := Without(s.cache, k) + [(k, hit.value)]), Hit(hit.value))
    else
      var s' := s.(cache := if refresh then Without(s.cache, k) else s.cache);
      if k in s.inFlight then (s', Follow(s.inFlight[k]))
      else (s'.(inFlight := s.inFlight[k := s.next], next := s.next + 1), Lead(s.next))
  }

  /** Take the event registered for the key, if any, and set it. */
  function Release(s: Shared, k: Key): Shared {
    if k in s.inFlight then s.(inFlight := s.inFlight - {k}, fired := s.fired + {s.inFlight[k]}) else s
  }

  function Publish(s: Shared, k: Key, v: Value): Shared {
    Release(s.(cache := Evicted(Put(s.cache, k, v))), k)
  }

  /** Forget entries and registered events, setting none. */
  function Cleared(s: Shared): Shared {
    s.(cache := [], inFlight := map[])
  }

  // ----- The critical sections -----

  class SummaryCache {
    var cache: Cache
    var inFlight: map<Key, Event>
    var fired: set<Event>
    var next: Event

    constructor ()
      ensures View() == Shared([], map[], {}, 0)
    {
      cache, inFlight, fired, next := [], map[], {}, 0;
    }

    function View(): Shared
      reads this
    {
      Shared(cache, inFlight, fired, next)
    }

    method Look(k: Key) returns (v: Option<Value>)
      ensures v == Get(cache, k)
    {
      for i := 0 to |cache|
        invariant Get(cache[i..], k) == Get(cache, k)
      {
        if cache[i].0 == k {
          return Some(cache[i].1);
        }
        assert cache[i..][1..] == cache[i + 1..];
      }
      return None;
    }

    method EnterLock(k: Key, refresh: bool) returns (r: Entry)
      modifies this
      ensures (View(), r) == Enter(old(View()), k, refresh)
    {
      if refresh {
        cache := Without(cache, k);
      } else {
        var hit := Look(k);
        if hit.Some? {
          cache := Without(cache, k);
          cache := cache + [(k, hit.value)];
          return Hit(hit.value);
        }
      }
      if k in inFlight {
        return Follow(inFlight[k]);
      }
      inFlight := inFlight[k := next];
      r := Lead(next);
      next := next + 1;
    }

    method Clear()
      modifies this
      ensures View() == Cleared(old(View()))
    {
      cache := [];
      inFlight := map[];
    }

    method SetRegistered(k: Key)
      modifies this
      ensures View() == Release(old(View()), k)
    {
      if k in inFlight {
        var waiter := inFlight[k];
        inFlight := inFlight - {k};
        fired := fired + {waiter};
      }
    }

    method PublishSummary(k: Key, v: Value)
      modifies this
      ensures View() == Publish(old(View()), k, v)
    {
      cache := Put(cache, k, v);
      ghost var all := cache;
      while |cache| > MAX
        invariant |cache| <= |all| && cache == all[|all| - |cache|..]
        invariant |cache| < |all| ==> |cache| >= MAX
        invariant inFlight == old(inFlight) && fired == old(fired) && next == old(next)
      {
        cache := cache[1..];
      }
      SetRegistered(k);
    }
  }

  // ----- Threads -----

  datatype Pc = Start | Waiting(event: Event) | Computing(lead: Option<Event>) | Returned(value: Value) | Raised

  datatype Thread = Thread(key: Key, refresh: bool, pc: Pc)

  datatype State = State(shared: Shared, threads: map<nat, Thread>)

  datatype Step =
    | Spawn(t: nat, key: Key, refresh: bool)
    | Begin(t: nat)
    | Wake(t: nat)
    | Succeed(t: nat)
    | Fail(t: nat)
    | Clear

  const INIT := State(Shared([], map[], {}, 0), map[])

  function At(s: State, t: nat, shared: Shared, pc: Pc): State
    requires t in s.threads
  {
    State(shared, s.threads[t := s.threads[t].(pc := pc)])
  }

  predicate Enabled(s: State, step: Step) {
    match step
    case Spawn(t, _, _) => t !in s.threads
    case Begin(t) => t in s.threads && s.threads[t].pc.Start?
    case Wake(t) => t in s.threads && s.threads[t].pc.Waiting? && s.threads[t].pc.event in s.shared.fired
    case Succeed(t) => t in s.threads && s.threads[t].pc.Computing?
    case Fail(t) => t in s.threads && s.threads[t].pc.Computing?
    case Clear => true
  }

  /** `compute` is what an uncached computation of a key yields when it does not fail. */
  function Apply(compute: Key -> Value, s: State, step: Step): State
    requires Enabled(s, step)
  {
    match step
    case Spawn(t, k, refresh) => s.(threads := s.threads[t := Thread(k, refresh, Start)])
    case Begin(t) =>
      var th := s.threads[t];
      var (shared, entry) := Enter(s.shared, th.key, th.refresh);
      At(s, t, shared, match entry
                       case Hit(v) => Returned(v)
                       case Lead(e) => Computing(Some(e))
                       case Follow(e) => Waiting(e))
    case Wake(t) =>
      var v := Get(s.shared.cache, s.threads[t].key);
      At(s, t, s.shared, if v.Some? then Returned(v.value) else Computing(None))
    case Succeed(t) =>
      var th := s.threads[t];
      At(s, t, Publish(s.shared, th.key, compute(th.key)), Returned(compute(th.key)))
    case Fail(t) => At(s, t, Release(s.shared, s.threads[t].key), Raised)
    case Clear => s.(shared := Cleared(s.shared))
  }

  predicate Finished(th: Thread) {
    th.pc.Returned? || th.pc.Raised?
  }

  // ----- Invariant -----

  ghost predicate CacheOk(compute: Key -> Value, c: Cache) {
    && |c| <= MAX
    && DistinctKeys(c)
    && (forall x <- c :: x.1 == compute(x.0))
  }

  /** A registered event is unset and its leader is still computing that key. */
  ghost predicate Registered(s: State, k: Key, e: Event) {
    && e !in s.shared.fired && e < s.shared.next
    && exists t <- s.threads :: s.threads[t].key == k && s.threads[t].pc == Computing(Some(e))
  }

  /** The event registered for the thread's key is `e`. */
  predicate Awaited(s: State, th: Thread, e: Event) {
    e in s.shared.fired || (th.key in s.shared.inFlight && s.shared.inFlight[th.key] == e)
  }

  /** `calm` says that the cache has not been cleared: only then is every unset event sure to be registered. */
  ghost predicate ThreadOk(compute: Key -> Value, calm: bool, s: State, th: Thread) {
    match th.pc
    case Start => true
    case Waiting(e) =>
      && e < s.shared.next && (calm ==> Awaited(s, th, e))
      && forall k <- s.shared.inFlight :: s.shared.inFlight[k] == e ==> k == th.key
    case Computing(None) => true
    case Computing(Some(e)) => e < s.shared.next && (calm ==> Awaited(s, th, e))
    case Returned(v) => v == compute(th.key)
    case Raised => true
  }

  ghost predicate Inv(compute: Key -> Value, calm: bool, s: State) {
    && CacheOk(compute, s.shared.cache)
    && (forall e <- s.shared.fired :: e < s.shared.next)
    && (forall k <- s.shared.inFlight :: Registered(s, k, s.shared.inFlight[k]))
    && (forall t <- s.threads :: ThreadOk(compute, calm, s, s.threads[t]))
    && (forall t, u | t in s.threads && u in s.threads && t != u
                        && s.threads[t].pc.Computing? && s.threads[t].pc.lead.Some? ::
          s.threads[u].pc != s.threads[t].pc)
  }

  // ----- The cache operations keep the cache in order -----

  lemma {:induction false} GetOk(compute: Key -> Value, c: Cache, k: Key)
    requires forall x <- c :: x.1 == compute(x.0)
    ensures Get(c, k).Some? ==> Get(c, k).value == compute(k)
    ensures Get(c, k).None? <==> forall x <- c :: x.0 != k
  {
    if c != [] { GetOk(compute, c[1..], k); }
  }

  lemma {:induction false} WithoutOk(c: Cache, k: Key)
    requires DistinctKeys(c)
    ensures var w := Without(c, k);
      && |w| <= |c| && (forall x <- w :: x in c && x.0 != k)
      && DistinctKeys(w)
      && (Get(c, k).Some? ==> |w| < |c|)
  {
    if c != [] { WithoutOk(c[1..], k); }
  }

  lemma {:induction false} PutOk(c: Cache, k: Key, v: Value)
    requires DistinctKeys(c)
    ensures var p := Put(c, k, v);
      && |p| <= |c| + 1 && (forall x <- p :: (x in c && x.0 != k) || x == (k, v))
      && DistinctKeys(p)
  {
    if c != [] { PutOk(c[1..], k, v); }
  }

  lemma TouchKeepsCache(compute: Key -> Value, c: Cache, k: Key, v: Value)
    requires CacheOk(compute, c) && Get(c, k) == Some(v)
    ensures CacheOk(compute, Without(c, k) + [(k, v)])
  {
    WithoutOk(c, k);
    GetOk(compute, c, k);
  }

  lemma PublishKeepsCache(compute: Key -> Value, c: Cache, k: Key)
    requires CacheOk(compute, c)
    ensures CacheOk(compute, Evicted(Put(c, k, compute(k))))
  {
    PutOk(c, k, compute(k));
    var p := Put(c, k, compute(k));
    assert forall x <- Evicted(p) :: x in p;
  }

  // ----- What a lookup finds after the cache operations -----

  lemma {:induction false} PutLookup(c: Cache, k: Key, v: Value, q: Key)
    ensures Get(Put(c, k, v), q) == if q == k then Some(v) else Get(c, q)
    ensures Get(c, k).None? ==> Put(c, k, v) == c + [(k, v)]
    ensures Get(c, k).Some? ==> |Put(c, k, v)| == |c|
  {
    if c != [] { PutLookup(c[1..], k, v, q); }
  }

  lemma {:induction false} WithoutLookup(c: Cache, k: Key, q: Key)
    ensures Get(Without(c, k), q) == if q == k then None else Get(c, q)
  {
    if c != [] {
      WithoutLookup(c[1..], k, q);
      var rest := Without(c[1..], k);
      assert ([c[0]] + rest)[1..] == rest && [] + rest == rest;
    }
  }

  lemma {:induction false} AppendLookup(c: Cache, x: (Key, Value), q: Key)
    ensures Get(c + [x], q) == if Get(c, q).Some? then Get(c, q) else if q == x.0 then Some(x.1) else None
  {
    if c != [] {
      AppendLookup(c[1..], x, q);
      assert (c + [x])[1..] == c[1..] + [x];
    }
  }

  lemma {:induction false} AbsentLookup(c: Cache, q: Key)
    requires forall x <- c :: x.0 != q
    ensures Get(c, q).None?
  {
    if c != [] { AbsentLookup(c[1..], q); }
  }

  lemma TouchLookup(c: Cache, k: Key, v: Value, q: Key)
    requires Get(c, k) == Some(v)
    ensures Get(Without(c, k) + [(k, v)], q) == Get(c, q)
  {
    WithoutLookup(c, k, q);
    AppendLookup(Without(c, k), (k, v), q);
  }

  lemma EvictedLookup(c: Cache, k: Key, v: Value, q: Key)
    requires DistinctKeys(c) && |c| <= MAX
    ensures Get(Evicted(Put(c, k, v)), q) ==
      if q == k then Some(v)
      else if |c| == MAX && Get(c, k).None? && q == c[0].0 then None
      else Get(c, q)
  {
    PutLookup(c, k, v, q);
    if |c| == MAX && Get(c, k).None? {
      var p := c + [(k, v)];
      assert p[|p| - MAX..] == c[1..] + [(k, v)];
      AppendLookup(c[1..], (k, v), q);
      AppendLookup(c[1..], (k, v), k);
      assert forall x <- c[1..] :: x in c && x.0 != c[0].0;
      AbsentLookup(c[1..], c[0].0);
      NotLater(c, k);
    }
  }

  lemma NotLater(c: Cache, k: Key)
    requires c != [] && Get(c, k).None?
    ensures Get(c[1..], k).None? && c[0].0 != k
  {
  }

  /** A key is found exactly where the cache has a pair for it; the first such pair counts. */
  lemma {:induction false} GetMeaning(c: Cache, k: Key)
    ensures Get(c, k).None? <==> forall x <- c :: x.0 != k
    ensures Get(c, k).Some? ==>
      exists i | 0 <= i < |c| :: c[i] == (k, Get(c, k).value) && forall j | 0 <= j < i :: c[j].0 != k
  {
    if c != [] && c[0].0 != k {
      GetMeaning(c[1..], k);
      assert c == [c[0]] + c[1..];
      if Get(c, k).Some? {
        var i :| 0 <= i < |c[1..]| && c[1..][i] == (k, Get(c, k).value) && forall j | 0 <= j < i :: c[1..][j].0 != k;
        assert c[i + 1] == (k, Get(c, k).value);
        assert forall j | 0 <= j < i + 1 :: j == 0 || c[j] == c[1..][j - 1];
      }
    }
  }

  /**
   A request is answered from the cache exactly when it does not ask for a refresh and the key is there.
   A hit changes no lookup and makes the key the youngest; a refresh forgets the key and nothing else.
   */
  lemma HitLookup(s: Shared, k: Key, refresh: bool, q: Key)
    ensures var (s', r) := Enter(s, k, refresh);
      && (r.Hit? <==> !refresh && Get(s.cache, k).Some?)
      && (r.Hit? ==>
        && Get(s.cache, k) == Some(r.value) && Get(s'.cache, q) == Get(s.cache, q)
        && s'.cache != [] && s'.cache[|s'.cache| - 1] == (k, r.value))
      && (!r.Hit? ==> Get(s'.cache, q) == if refresh && q == k then None else Get(s.cache, q))
  {
    WithoutLookup(s.cache, k, q);
    if !refresh && Get(s.cache, k).Some? {
      TouchLookup(s.cache, k, Get(s.cache, k).value, q);
    }
  }

  /**
   Publishing makes its key found; of the others only the oldest is lost, and only when a full cache gets
   a new key.  The next request for the key is then answered from the cache.
   */
  lemma PublishLookup(s: Shared, k: Key, v: Value, q: Key)
    requires DistinctKeys(s.cache) && |s.cache| <= MAX
    ensures Get(Publish(s, k, v).cache, q) ==
      if q == k then Some(v)
      else if |s.cache| == MAX && Get(s.cache, k).None? && q == s.cache[0].0 then None
      else Get(s.cache, q)
    ensures Enter(Publish(s, k, v), k, false).1 == Hit(v)
  {
    EvictedLookup(s.cache, k, v, q);
    EvictedLookup(s.cache, k, v, k);
    hide Evicted, Put;
  }

  /** A key that is already there keeps its place, and a new one is the youngest. */
  lemma {:induction false} PutPlace(c: Cache, k: Key, v: Value)
    ensures var p := Put(c, k, v);
      if Get(c, k).Some? then |p| == |c| && forall i | 0 <= i < |c| :: p[i].0 == c[i].0 else p == c + [(k, v)]
  {
    if c != [] && c[0].0 != k {
      PutPlace(c[1..], k, v);
    }
  }

  /** Releasing sets the event registered for the key and no other, and leaves the other registrations. */
  lemma ReleaseMeaning(s: Shared, k: Key)
    ensures var s' := Release(s, k);
      && (forall e :: e in s'.fired <==> e in s.fired || (k in s.inFlight && e == s.inFlight[k]))
      && (forall q :: q in s'.inFlight <==> q in s.inFlight && q != k)
      && (forall q <- s'.inFlight :: s'.inFlight[q] == s.inFlight[q])
      && s'.cache == s.cache && s'.next == s.next
  {
  }

  // ----- Every step keeps the invariant -----

  lemma SpawnKeeps(compute: Key -> Value, calm: bool, s: State, t: nat, k: Key, refresh: bool)
    requires Inv(compute, calm, s) && t !in s.threads
    ensures Inv(compute, calm, Apply(compute, s, Spawn(t, k, refresh)))
  {
    var s' := Apply(compute, s, Spawn(t, k, refresh));
    hide CacheOk;
    forall q | q in s'.shared.inFlight ensures Registered(s', q, s'.shared.inFlight[q]) {
      StillRegistered(s, s', q, t);
    }
  }

  /** An entry stays registered while its leader is another thread. */
  lemma StillRegistered(s: State, s': State, k: Key, t: nat)
    requires k in s.shared.inFlight && Registered(s, k, s.shared.inFlight[k])
    requires k in s'.shared.inFlight && s'.shared.inFlight[k] == s.shared.inFlight[k]
    requires s.shared.inFlight[k] !in s'.shared.fired && s.shared.next <= s'.shared.next
    requires forall u <- s.threads | u != t :: u in s'.threads && s'.threads[u] == s.threads[u]
    requires t in s.threads ==> !s.threads[t].pc.Computing? || s.threads[t].key != k
    ensures Registered(s', k, s'.shared.inFlight[k])
  {
    var u :| u in s.threads && s.threads[u].key == k && s.threads[u].pc == Computing(Some(s.shared.inFlight[k]));
    assert u != t && s'.threads[u] == s.threads[u];
  }

  /** What entering does to the shared state, by outcome. */
  lemma EnterMeaning(compute: Key -> Value, s: Shared, k: Key, refresh: bool)
    requires CacheOk(compute, s.cache)
    ensures var (s', r) := Enter(s, k, refresh);
      && CacheOk(compute, s'.cache) && s'.fired == s.fired
      && match r
         case Hit(v) => v == compute(k) && s'.inFlight == s.inFlight && s'.next == s.next
         case Follow(e) => k in s.inFlight && e == s.inFlight[k] && s'.inFlight == s.inFlight && s'.next == s.next
         case Lead(e) => k !in s.inFlight && e == s.next && s'.inFlight == s.inFlight[k := e] && s'.next == e + 1
  {
    var hit := if refresh then None else Get(s.cache, k);
    GetOk(compute, s.cache, k);
    WithoutOk(s.cache, k);
    if hit.Some? { TouchKeepsCache(compute, s.cache, k, hit.value); }
  }

  lemma BeginKeeps(compute: Key -> Value, calm: bool, s: State, t: nat)
    requires Inv(compute, calm, s) && t in s.threads && s.threads[t].pc.Start?
    ensures Inv(compute, calm, Apply(compute, s, Begin(t)))
  {
    hide CacheOk, Enter, Get, Without, Registered;
    var th := s.threads[t];
    var s' := Apply(compute, s, Begin(t));
    EnterMeaning(compute, s.shared, th.key, th.refresh);
    forall u | u in s'.threads ensures ThreadOk(compute, calm, s', s'.threads[u]) {
      if u != t { assert ThreadOk(compute, calm, s, s.threads[u]); }
      if u == t && s'.threads[t].pc.Waiting? {
        FollowOk(compute, calm, s, th.key);
      }
    }
    forall q | q in s'.shared.inFlight ensures Registered(s', q, s'.shared.inFlight[q]) {
      if q in s.shared.inFlight {
        RegisteredUnset(s, q);
        StillRegistered(s, s', q, t);
      } else {
        NewlyRegistered(s', q, t);
      }
    }
  }

  /** An event is registered for one key only. */
  lemma FollowOk(compute: Key -> Value, calm: bool, s: State, k: Key)
    requires Inv(compute, calm, s) && k in s.shared.inFlight
    ensures s.shared.inFlight[k] < s.shared.next
    ensures forall q <- s.shared.inFlight :: s.shared.inFlight[q] == s.shared.inFlight[k] ==> q == k
  {
    assert Registered(s, k, s.shared.inFlight[k]);
    forall q | q in s.shared.inFlight && q != k ensures s.shared.inFlight[q] != s.shared.inFlight[k] {
      DistinctEvents(compute, calm, s, q, k);
    }
  }

  lemma RegisteredUnset(s: State, k: Key)
    requires k in s.shared.inFlight && Registered(s, k, s.shared.inFlight[k])
    ensures s.shared.inFlight[k] !in s.shared.fired
  {
  }

  lemma NewlyRegistered(s: State, k: Key, t: nat)
    requires k in s.shared.inFlight && s.shared.inFlight[k] !in s.shared.fired && s.shared.inFlight[k] < s.shared.next
    requires t in s.threads && s.threads[t].key == k && s.threads[t].pc == Computing(Some(s.shared.inFlight[k]))
    ensures Registered(s, k, s.shared.inFlight[k])
  {
  }

  lemma WakeKeeps(compute: Key -> Value, calm: bool, s: State, t: nat)
    requires Inv(compute, calm, s) && Enabled(s, Wake(t))
    ensures Inv(compute, calm, Apply(compute, s, Wake(t)))
  {
    var s' := Apply(compute, s, Wake(t));
    GetOk(compute, s.shared.cache, s.threads[t].key);
    hide CacheOk;
    forall u | u in s'.threads ensures ThreadOk(compute, calm, s', s'.threads[u]) {
      if u != t { assert ThreadOk(compute, calm, s, s.threads[u]); }
    }
    forall q | q in s'.shared.inFlight ensures Registered(s', q, s'.shared.inFlight[q]) {
      StillRegistered(s, s', q, t);
    }
  }

  /** A computation ends, well or badly: the event registered for its key is set. */
  lemma ReleaseKeeps(compute: Key -> Value, calm: bool, s: State, t: nat, cache: Cache, pc: Pc)
    requires Inv(compute, calm, s) && t in s.threads && s.threads[t].pc.Computing? && CacheOk(compute, cache)
    requires pc == Raised || pc == Returned(compute(s.threads[t].key))
    ensures Inv(compute, calm, At(s, t, Release(s.shared.(cache := cache), s.threads[t].key), pc))
  {
    var k := s.threads[t].key;
    var s' := At(s, t, Release(s.shared.(cache := cache), k), pc);
    hide CacheOk;
    forall q | q in s.shared.inFlight
      ensures s.shared.inFlight[q] < s.shared.next && s.shared.inFlight[q] !in s.shared.fired
    {
      assert Registered(s, q, s.shared.inFlight[q]);
    }
    forall u | u in s'.threads ensures ThreadOk(compute, calm, s', s'.threads[u]) {
      if u != t { assert ThreadOk(compute, calm, s, s.threads[u]); }
    }
    forall q | q in s'.shared.inFlight ensures Registered(s', q, s'.shared.inFlight[q]) {
      if k in s.shared.inFlight { DistinctEvents(compute, calm, s, q, k); }
      StillRegistered(s, s', q, t);
    }
  }

  lemma DistinctEvents(compute: Key -> Value, calm: bool, s: State, p: Key, q: Key)
    requires Inv(compute, calm, s) && p in s.shared.inFlight && q in s.shared.inFlight && p != q
    ensures s.shared.inFlight[p] != s.shared.inFlight[q]
  {
    assert Registered(s, p, s.shared.inFlight[p]) && Registered(s, q, s.shared.inFlight[q]);
  }

  lemma ClearKeeps(compute: Key -> Value, calm: bool, s: State)
    requires Inv(compute, calm, s)
    ensures Inv(compute, false, Apply(compute, s, Clear))
  {
    var s' := Apply(compute, s, Clear);
    forall u | u in s'.threads ensures ThreadOk(compute, false, s', s'.threads[u]) {
      assert ThreadOk(compute, calm, s, s.threads[u]);
    }
  }

  lemma ApplyKeeps(compute: Key -> Value, calm: bool, s: State, step: Step)
    requires Inv(compute, calm, s) && Enabled(s, step)
    ensures Inv(compute, calm && !step.Clear?, Apply(compute, s, step))
  {
    match step
    case Spawn(t, k, refresh) => SpawnKeeps(compute, calm, s, t, k, refresh);
    case Begin(t) => BeginKeeps(compute, calm, s, t);
    case Wake(t) => WakeKeeps(compute, calm, s, t);
    case Succeed(t) =>
      PublishKeepsCache(compute, s.shared.cache, s.threads[t].key);
      ReleaseKeeps(compute, calm, s, t, Evicted(Put(s.shared.cache, s.threads[t].key, compute(s.threads[t].key))),
        Returned(compute(s.threads[t].key)));
    case Fail(t) =>
      assert s.shared.(cache := s.shared.cache) == s.shared;
      ReleaseKeeps(compute, calm, s, t, s.shared.cache, Raised);
    case Clear => ClearKeeps(compute, calm, s);
  }

  // ----- Results over all runs -----

  /**
   One computation serves all: right after a thread has computed a key, every thread that asks for the
   key without a refresh, and every follower that wakes for it, returns that summary without computing.
   */
  lemma OneComputationServes(compute: Key -> Value, calm: bool, s: State, t: nat, u: nat)
    requires Inv(compute, calm, s) && Enabled(s, Succeed(t))
    requires t != u && u in s.threads && s.threads[u].key == s.threads[t].key
    ensures var s' := Apply(compute, s, Succeed(t));
      && s'.threads[t].pc == Returned(compute(s.threads[t].key))
      && (s.threads[u].pc.Start? && !s.threads[u].refresh ==>
        Apply(compute, s', Begin(u)).threads[u].pc == Returned(compute(s.threads[t].key)))
      && (s.threads[u].pc.Waiting? && Enabled(s', Wake(u)) ==>
        Apply(compute, s', Wake(u)).threads[u].pc == Returned(compute(s.threads[t].key)))
      && (s.threads[u].pc.Waiting? && s.threads[t].pc.lead == Some(s.threads[u].pc.event) && calm ==>
        Enabled(s', Wake(u)))
  {
    var k := s.threads[t].key;
    PublishLookup(s.shared, k, compute(k), k);
    assert ThreadOk(compute, calm, s, s.threads[t]);
    hide Evicted, Put, Get;
  }

  /** After a clear whoever asks first for a key computes it; no thread moves and no event is set by the clear. */
  lemma ClearForgets(compute: Key -> Value, s: State, t: nat)
    requires Enabled(s, Begin(t))
    ensures var s' := Apply(compute, s, Clear);
      && s'.threads == s.threads && s'.shared.fired == s.shared.fired
      && (forall k: Key :: Get(s'.shared.cache, k).None?)
      && Apply(compute, s', Begin(t)).threads[t].pc == Computing(Some(s.shared.next))
  {
  }

  /** A failed computation serves nobody: a follower that it wakes without a cached value computes itself. */
  lemma FailureWakes(compute: Key -> Value, s: State, t: nat, u: nat)
    requires Enabled(s, Fail(t)) && t != u && u in s.threads && s.threads[u].pc.Waiting?
    requires s.threads[t].key in s.shared.inFlight && s.shared.inFlight[s.threads[t].key] == s.threads[u].pc.event
    ensures var s' := Apply(compute, s, Fail(t));
      && s'.threads[t].pc == Raised && s'.shared.cache == s.shared.cache && Enabled(s', Wake(u))
      && (Get(s.shared.cache, s.threads[u].key).None? ==>
        Apply(compute, s', Wake(u)).threads[u].pc == Computing(None))
  {
  }


  ghost predicate Run(compute: Key -> Value, states: seq<State>, steps: seq<Step>) {
    && |states| == |steps| + 1 && states[0] == INIT
    && forall i | 0 <= i < |steps| ::
      Enabled(states[i], steps[i]) && states[i + 1] == Apply(compute, states[i], steps[i])
  }

  predicate Calm(steps: seq<Step>) {
    forall step <- steps :: !step.Clear?
  }

  lemma {:induction false} RunInv(compute: Key -> Value, states: seq<State>, steps: seq<Step>, i: nat)
    requires Run(compute, states, steps) && i < |states|
    ensures Inv(compute, Calm(steps[..i]), states[i])
    decreases i
  {
    if i > 0 {
      RunInv(compute, states, steps, i - 1);
      hide Inv, Enabled, Apply;
      assert steps[..i] == steps[..i - 1] + [steps[i - 1]];
      ApplyKeeps(compute, Calm(steps[..i - 1]), states[i - 1], steps[i - 1]);
    }
  }

  /**
   Whatever a thread returns, from the cache or computed, is the direct computation; the cache is within its
   bound.
   */
  lemma ResultsCorrect(compute: Key -> Value, states: seq<State>, steps: seq<Step>, i: nat, t: nat)
    requires Run(compute, states, steps) && i < |states|
    ensures |states[i].shared.cache| <= MAX
    ensures t in states[i].threads && states[i].threads[t].pc.Returned? ==>
              states[i].threads[t].pc.value == compute(states[i].threads[t].key)
  {
    RunInv(compute, states, steps, i);
    if t in states[i].threads {
      assert ThreadOk(compute, Calm(steps[..i]), states[i], states[i].threads[t]);
    }
  }

  /** At most one thread at a time leads the computation of a key under an event still unset, while nobody clears. */
  lemma OneLeader(compute: Key -> Value, s: State, t: nat, u: nat)
    requires Inv(compute, true, s) && t in s.threads && u in s.threads && s.threads[t].key == s.threads[u].key
    requires s.threads[t].pc.Computing? && s.threads[t].pc.lead.Some? && s.threads[t].pc.lead.value !in s.shared.fired
    requires s.threads[u].pc.Computing? && s.threads[u].pc.lead.Some? && s.threads[u].pc.lead.value !in s.shared.fired
    ensures t == u
  {
    assert ThreadOk(compute, true, s, s.threads[t]) && ThreadOk(compute, true, s, s.threads[u]);
  }

  // ----- Who is stranded -----

  /** The thread waits for an event that is neither set nor registered, so that nobody will set it. */
  predicate Stranded(s: State, t: nat) {
    && t in s.threads && s.threads[t].pc.Waiting?
    && s.threads[t].pc.event < s.shared.next && s.threads[t].pc.event !in s.shared.fired
    && forall k <- s.shared.inFlight :: s.shared.inFlight[k] != s.threads[t].pc.event
  }

  /** The thread waits for an event that is not set. */
  predicate Blocked(s: State, t: nat) {
    t in s.threads && s.threads[t].pc.Waiting? && s.threads[t].pc.event !in s.shared.fired
  }

  /** A stranded thread stays where it is, whatever happens. */
  lemma StrandedStep(compute: Key -> Value, s: State, step: Step, t: nat)
    requires Enabled(s, step) && Stranded(s, t)
    ensures var s' := Apply(compute, s, step); Stranded(s', t) && s'.threads[t] == s.threads[t]
  {
    hide Without, Put, Evicted;
  }

  lemma {:induction false} StrandedForever(compute: Key -> Value, states: seq<State>, steps: seq<Step>, i: nat,
      j: nat, t: nat)
    requires Run(compute, states, steps) && i <= j < |states| && Stranded(states[i], t)
    ensures Stranded(states[j], t) && states[j].threads[t] == states[i].threads[t]
    decreases j
  {
    hide Enabled, Apply, Stranded;
    if i < j {
      StrandedForever(compute, states, steps, i, j - 1, t);
      StrandedStep(compute, states[j - 1], steps[j - 1], t);
    }
    StrandedIsThere(states[j], t);
  }

  lemma StrandedIsThere(s: State, t: nat)
    ensures Stranded(s, t) ==> t in s.threads && s.threads[t].pc.Waiting?
  {
  }

  /** A clear strands exactly the threads that are waiting for an event not yet set. */
  lemma ClearStrandsIff(compute: Key -> Value, calm: bool, s: State, t: nat)
    requires Inv(compute, calm, s)
    ensures Stranded(Apply(compute, s, Clear), t) <==> Blocked(s, t)
  {
    if t in s.threads {
      assert ThreadOk(compute, calm, s, s.threads[t]);
    }
  }

  /** No other step strands a thread. */
  lemma OnlyClearStrands(compute: Key -> Value, calm: bool, s: State, step: Step, t: nat)
    requires Inv(compute, calm, s) && Enabled(s, step) && !step.Clear?
    ensures Stranded(Apply(compute, s, step), t) <==> Stranded(s, t)
  {
    hide CacheOk, Without, Put, Evicted, Get;
    var s' := Apply(compute, s, step);
    if Stranded(s, t) {
      StrandedStep(compute, s, step, t);
    } else if t in s.threads && s.threads[t].pc.Waiting? {
      assert ThreadOk(compute, calm, s, s.threads[t]);
      if s.threads[t].pc.event !in s.shared.fired {
        var k :| k in s.shared.inFlight && s.shared.inFlight[k] == s.threads[t].pc.event;
        assert k in s'.shared.inFlight || s.threads[t].pc.event in s'.shared.fired;
      }
    } else if t in s'.threads && s'.threads[t].pc.Waiting? {
      assert step == Begin(t) && s'.shared.inFlight[s.threads[t].key] == s'.threads[t].pc.event;
    }
  }

  /** Over every run: the stranded threads are those that were waiting for an unset event when the cache was cleared. */
  lemma {:induction false} StrandedIff(compute: Key -> Value, states: seq<State>, steps: seq<Step>, j: nat, t: nat)
    requires Run(compute, states, steps) && j < |states|
    ensures Stranded(states[j], t) <==> exists i | 0 <= i < j :: steps[i].Clear? && Blocked(states[i], t)
    decreases j
  {
    hide Inv, Enabled, Apply, Stranded, Blocked;
    if j == 0 {
      NobodyAtFirst(t);
    } else {
      var k := j - 1;
      StrandedIff(compute, states, steps, k, t);
      RunInv(compute, states, steps, k);
      if steps[k].Clear? {
        ClearStrandsIff(compute, Calm(steps[..k]), states[k], t);
        if Stranded(states[k], t) {
          StrandedStep(compute, states[k], steps[k], t);
        }
      } else {
        OnlyClearStrands(compute, Calm(steps[..k]), states[k], steps[k], t);
      }
    }
  }

  lemma NobodyAtFirst(t: nat)
    ensures !Stranded(INIT, t)
  {
  }

  // ----- Progress -----

  /**
   A waiter's event, while unset, is registered under its key and its leader is still computing, unless it is
   stranded.
   */
  lemma WaiterHasLeader(compute: Key -> Value, calm: bool, s: State, t: nat)
    requires Inv(compute, calm, s) && t in s.threads && s.threads[t].pc.Waiting? && !Stranded(s, t)
    ensures s.threads[t].pc.event in s.shared.fired ||
            exists u <- s.threads :: s.threads[u].key == s.threads[t].key &&
              s.threads[u].pc == Computing(Some(s.threads[t].pc.event))
  {
    assert ThreadOk(compute, calm, s, s.threads[t]);
    if s.threads[t].pc.event !in s.shared.fired {
      var k :| k in s.shared.inFlight && s.shared.inFlight[k] == s.threads[t].pc.event;
      assert Registered(s, k, s.shared.inFlight[k]);
    }
  }

  /** Some thread can take a step. */
  ghost predicate CanMove(s: State) {
    exists step :: Enabled(s, step) && !step.Spawn? && !step.Clear?
  }

  lemma ThreadMoves(compute: Key -> Value, calm: bool, s: State, t: nat)
    requires Inv(compute, calm, s) && t in s.threads && !Finished(s.threads[t]) && !Stranded(s, t)
    ensures CanMove(s)
  {
    match s.threads[t].pc
    case Start => assert Enabled(s, Begin(t));
    case Computing(_) => assert Enabled(s, Succeed(t));
    case Waiting(e) =>
      if e in s.shared.fired {
        assert Enabled(s, Wake(t));
      } else {
        WaiterHasLeader(compute, calm, s, t);
        var u :| u in s.threads && s.threads[u].pc == Computing(Some(e));
        assert Enabled(s, Succeed(u));
      }
  }

  /** Over every run, clears included: nobody can move exactly when all who have not finished are stranded. */
  lemma StuckIff(compute: Key -> Value, states: seq<State>, steps: seq<Step>, i: nat)
    requires Run(compute, states, steps) && i < |states|
    ensures !CanMove(states[i]) <==> forall t <- states[i].threads ::
      Finished(states[i].threads[t]) || Stranded(states[i], t)
  {
    var s := states[i];
    RunInv(compute, states, steps, i);
    if CanMove(s) {
      var step :| Enabled(s, step) && !step.Spawn? && !step.Clear?;
      assert !Finished(s.threads[step.t]) && !Stranded(s, step.t);
    }
    forall t | t in s.threads && !Finished(s.threads[t]) && !Stranded(s, t) ensures CanMove(s) {
      ThreadMoves(compute, Calm(steps[..i]), s, t);
    }
  }

  /** Unless a clear has caught it waiting, an unfinished thread is never in a stuck state. */
  lemma NoDeadlock(compute: Key -> Value, states: seq<State>, steps: seq<Step>, i: nat, t: nat)
    requires Run(compute, states, steps) && i < |states|
    requires t in states[i].threads && !Finished(states[i].threads[t])
    requires !exists j | 0 <= j < i :: steps[j].Clear? && Blocked(states[j], t)
    ensures CanMove(states[i])
  {
    StrandedIff(compute, states, steps, i, t);
    RunInv(compute, states, steps, i);
    ThreadMoves(compute, Calm(steps[..i]), states[i], t);
  }

  // ----- No thread runs on for ever -----

  function Left(pc: Pc): nat {
    match pc
    case Start => 3
    case Waiting(_) => 2
    case Computing(_) => 1
    case Returned(_) => 0
    case Raised => 0
  }

  function Work(threads: map<nat, Thread>, n: nat): nat {
    if n == 0 then 0 else Work(threads, n - 1) + if n - 1 in threads then Left(threads[n - 1].pc) else 0
  }

  lemma {:induction false} WorkUpdate(a: map<nat, Thread>, b: map<nat, Thread>, t: nat, n: nat)
    requires t in a && b.Keys == a.Keys && forall u <- a | u != t :: b[u] == a[u]
    ensures Work(b, n) == Work(a, n) + if t < n then Left(b[t].pc) - Left(a[t].pc) else 0
    decreases n
  {
    if n > 0 { WorkUpdate(a, b, t, n - 1); }
  }

  /** Every step other than the arrival of a new thread uses up work, so it cannot go on for ever. */
  lemma StepsDecrease(compute: Key -> Value, s: State, step: Step, n: nat)
    requires Enabled(s, step) && !step.Spawn? && !step.Clear? && forall t <- s.threads :: t < n
    ensures Work(Apply(compute, s, step).threads, n) < Work(s.threads, n)
  {
    WorkUpdate(s.threads, Apply(compute, s, step).threads, step.t, n);
  }

  lemma {:induction false} WorkSpawn(a: map<nat, Thread>, t: nat, th: Thread, n: nat)
    requires t !in a
    ensures Work(a[t := th], n) == Work(a, n) + if t < n then Left(th.pc) else 0
    decreases n
  {
    if n > 0 { WorkSpawn(a, t, th, n - 1); }
  }

  function Spawns(steps: seq<Step>): nat {
    if steps == [] then 0 else Spawns(steps[..|steps| - 1]) + if steps[|steps| - 1].Spawn? then 1 else 0
  }

  /** The steps other than clears. */
  function Moves(steps: seq<Step>): nat {
    if steps == [] then 0 else Moves(steps[..|steps| - 1]) + if steps[|steps| - 1].Clear? then 0 else 1
  }

  /** Work left, plus steps taken, is at most three per thread and one more for its arrival. */
  lemma {:induction false} WorkBound(compute: Key -> Value, states: seq<State>, steps: seq<Step>, n: nat)
    requires Run(compute, states, steps)
    requires forall i | 0 <= i < |states| :: forall t <- states[i].threads :: t < n
    ensures Work(states[|steps|].threads, n) + Moves(steps) <= 4 * Spawns(steps)
    decreases |steps|
  {
    if steps == [] {
      EmptyWork(n);
    } else {
      var k := |steps| - 1;
      WorkBound(compute, states[..k + 1], steps[..k], n);
      if steps[k].Spawn? {
        WorkSpawn(states[k].threads, steps[k].t, Thread(steps[k].key, steps[k].refresh, Start), n);
      } else if !steps[k].Clear? {
        StepsDecrease(compute, states[k], steps[k], n);
      }
    }
  }

  lemma {:induction false} EmptyWork(n: nat)
    ensures Work(map[], n) == 0
  {
    if n > 0 { EmptyWork(n - 1); }
  }

  ghost function Bound(ids: set<nat>): (n: nat)
    ensures forall t <- ids :: t < n
  {
    if ids == {} then 0 else
      var t :| t in ids;
      var n := Bound(ids - {t});
      assert forall u <- ids :: u == t || u in ids - {t};
      if t < n then n else t + 1
  }

  lemma {:induction false} ThreadsStay(compute: Key -> Value, states: seq<State>, steps: seq<Step>, i: nat)
    requires Run(compute, states, steps) && i < |states|
    ensures states[i].threads.Keys <= states[|steps|].threads.Keys
    decreases |states| - i
  {
    if i < |steps| {
      ThreadsStay(compute, states, steps, i + 1);
    }
  }

  /**
   With `m` threads a run has at most `4 * m` steps besides clears; together with NoDeadlock, every thread that
   no clear strands finishes.
   */
  lemma RunsEnd(compute: Key -> Value, states: seq<State>, steps: seq<Step>)
    requires Run(compute, states, steps)
    ensures Moves(steps) <= 4 * Spawns(steps)
  {
    var n := Bound(states[|steps|].threads.Keys);
    forall i | 0 <= i < |states| ensures forall t <- states[i].threads :: t < n {
      ThreadsStay(compute, states, steps, i);
    }
    WorkBound(compute, states, steps, n);
  }

  // ----- A clear can strand a thread -----

  /** One thread leads, another follows, the cache is cleared, the leader returns: the follower is left alone. */
  lemma ClearStrandsFollower(compute: Key -> Value, k: Key) returns (states: seq<State>, steps: seq<Step>)
    ensures Run(compute, states, steps) && Stranded(states[|steps|], 1) && !CanMove(states[|steps|])
  {
    steps := [Spawn(0, k, false), Spawn(1, k, false), Begin(0), Begin(1), Clear, Succeed(0)];
    var a := Apply(compute, Apply(compute, INIT, Spawn(0, k, false)), Spawn(1, k, false));
    var b := Apply(compute, Apply(compute, a, Begin(0)), Begin(1));
    assert b.threads[0].pc == Computing(Some(0)) && b.threads[1].pc == Waiting(0);
    var c := Apply(compute, Apply(compute, b, Clear), Succeed(0));
    states := [INIT, Apply(compute, INIT, Spawn(0, k, false)), a, Apply(compute, a, Begin(0)), b,
      Apply(compute, b, Clear), c];
    assert c.threads.Keys == {0, 1};
  }
}
