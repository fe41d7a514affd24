/**
 * The relay's fixed-window, per-client rate limiter: a process-wide map
 * from client key to a record holding the number of requests counted in
 * the current window and the instant at which that window ends.
 *
 * The pure functions `Decide` and `NextStore` say what one call answers
 * and what the store holds afterwards; the class `RateLimiter` holds the
 * store and updates it in place, and its methods are proved to follow
 * those functions.  The lemmas state the limiter's promises: counts stay
 * in 1..MaxRequests, only the caller's own record is written, the sweep
 * removes only expired records, and no client is allowed more than
 * MaxRequests calls in one window.
 */
module RateLimit {

  /** Width of one window, in milliseconds. */
  const WindowMs: int := 60 * 1000
  /** Most requests allowed per client in one window. */
  const MaxRequests: int := 10
  /** The store is swept only when it holds more records than this. */
  const SweepThreshold: int := 1000

  /** What the store keeps per client. */
  datatype Record = Record(count: int, resetTime: int)

  /** What one call answers: whether the request may proceed, how many more
      requests the window admits, and how long until the window ends. */
  datatype Verdict = Verdict(allowed: bool, remaining: int, resetIn: int)

  type Store = map<string, Record>

  /** A record whose window has ended. */
  predicate Expired(r: Record, now: int)
  {
    now > r.resetTime
  }

  /** The invariant the limiter keeps: every stored count is in 1..MaxRequests. */
  ghost predicate ValidStore(store: Store)
  {
    forall k :: k in store ==> 1 <= store[k].count <= MaxRequests
  }

  /** The store after deleting every expired record. */
  function Swept(store: Store, now: int): (m: Store)
    ensures m.Keys <= store.Keys
    ensures forall k :: k in store ==> (k in m <==> !Expired(store[k], now))
    ensures forall k :: k in m ==> m[k] == store[k]
  {
    map k | k in store && !Expired(store[k], now) :: store[k]
  }

  /** The housekeeping step: a sweep, but only above the threshold. */
  function Housekept(store: Store, now: int): Store
  {
    if |store| > SweepThreshold then Swept(store, now) else store
  }

  /** The call opens a new window for `key`. */
  predicate OpensWindow(store: Store, key: string, now: int)
  {
    key !in store || Expired(store[key], now)
  }

  /** The answer to a call for `key` at `now`.  The record consulted is the
      one stored before the sweep. */
  function Decide(store: Store, key: string, now: int): Verdict
  {
    if OpensWindow(store, key, now) then
      Verdict(true, MaxRequests - 1, WindowMs)
    else if store[key].count >= MaxRequests then
      Verdict(false, 0, store[key].resetTime - now)
    else
      Verdict(true, MaxRequests - (store[key].count + 1), store[key].resetTime - now)
  }

  /** The store after a call for `key` at `now`. */
  function NextStore(store: Store, key: string, now: int): Store
  {
    var s := Housekept(store, now);
    if OpensWindow(store, key, now) then
      s[key := Record(1, now + WindowMs)]
    else if store[key].count >= MaxRequests then
      s
    else
      s[key := Record(store[key].count + 1, store[key].resetTime)]
  }

  // ---------------------------------------------------------------------
  // One call
  // ---------------------------------------------------------------------

  /** A new window: the record restarts at one with a full window ahead,
      and the call is allowed with MaxRequests - 1 left. */
  lemma NewWindow(store: Store, key: string, now: int)
    requires OpensWindow(store, key, now)
    ensures Decide(store, key, now) == Verdict(true, 9, 60000)
    ensures key in NextStore(store, key, now)
    ensures NextStore(store, key, now)[key] == Record(1, now + 60000)
  {
  }

  /** At the cap inside a live window: denied, nothing left, and the stored
      record is left as it was. */
  lemma CapReached(store: Store, key: string, now: int)
    requires key in store && !Expired(store[key], now) && store[key].count >= MaxRequests
    ensures Decide(store, key, now) == Verdict(false, 0, store[key].resetTime - now)
    ensures key in NextStore(store, key, now) && NextStore(store, key, now)[key] == store[key]
  {
  }

  /** Below the cap inside a live window: the count rises by exactly one,
      the window end is kept, and the answer reports what is left. */
  lemma CountedInWindow(store: Store, key: string, now: int)
    requires key in store && !Expired(store[key], now) && store[key].count < MaxRequests
    ensures var next := NextStore(store, key, now);
      key in next
      && next[key] == Record(store[key].count + 1, store[key].resetTime)
      && Decide(store, key, now) == Verdict(true, MaxRequests - next[key].count, store[key].resetTime - now)
  {
  }

  /** Counts stay in 1..MaxRequests. */
  lemma NextStoreValid(store: Store, key: string, now: int)
    requires ValidStore(store)
    ensures ValidStore(NextStore(store, key, now))
  {
  }

  /** Nothing but the caller's key is written: another client's record is
      either kept as it was or, only when the store was over the threshold
      and that record had expired, deleted. */
  lemma OthersUntouched(store: Store, key: string, now: int, other: string)
    requires other != key && other in store
    ensures var next := NextStore(store, key, now);
      (other in next ==> next[other] == store[other])
      && (other !in next <==> |store| > SweepThreshold && Expired(store[other], now))
  {
  }

  /** No record appears except the caller's. */
  lemma NoNewKeys(store: Store, key: string, now: int)
    ensures NextStore(store, key, now).Keys <= store.Keys + {key}
  {
  }

  /** After every call the caller holds a record whose window ends exactly
      `resetIn` after `now`; so a call made later than that opens a fresh
      window with MaxRequests - 1 left. */
  lemma {:induction false} FreshWindowAfterReset(store: Store, key: string, now: int, later: int)
    requires later > now + Decide(store, key, now).resetIn
    ensures key in NextStore(store, key, now)
    ensures NextStore(store, key, now)[key].resetTime == now + Decide(store, key, now).resetIn
    ensures Decide(NextStore(store, key, now), key, later) == Verdict(true, MaxRequests - 1, WindowMs)
  {
    var next := NextStore(store, key, now);
    if OpensWindow(store, key, now) {
      assert next[key] == Record(1, now + WindowMs);
    } else {
      assert key in Housekept(store, now);
      assert next[key].resetTime == store[key].resetTime;
    }
    assert Expired(next[key], later);
  }

  // ---------------------------------------------------------------------
  // Many calls: at most MaxRequests per client per window
  // ---------------------------------------------------------------------

  /** One call to the limiter: the client's key and the clock reading. */
  datatype Call = Call(key: string, now: int)

  /** The store after a sequence of calls, from any clients, in order. */
  function Replay(store: Store, calls: seq<Call>): Store
    decreases |calls|
  {
    if calls == [] then store
    else Replay(NextStore(store, calls[0].key, calls[0].now), calls[1..])
  }

  /** Other clients' calls never prolong a client's window: once that
      window has ended (or when there is none), the client's next call
      opens a fresh one, whatever other clients did in between. */
  lemma {:induction false} FreshAfterOthers(store: Store, key: string, calls: seq<Call>, later: int)
    requires key in store ==> later > store[key].resetTime
    requires forall i :: 0 <= i < |calls| ==> calls[i].key != key
    ensures Decide(Replay(store, calls), key, later) == Verdict(true, MaxRequests - 1, WindowMs)
    decreases |calls|
  {
    if calls != [] {
      var c := calls[0];
      var next := NextStore(store, c.key, c.now);
      if key in next {
        NoNewKeys(store, c.key, c.now);
        OthersUntouched(store, c.key, c.now, key);
      }
      forall i | 0 <= i < |calls[1..]| ensures calls[1..][i].key != key {
        assert calls[1..][i] == calls[i + 1];
      }
      FreshAfterOthers(next, key, calls[1..], later);
    }
  }

  /** A client's own call followed by any calls of other clients: a call
      the client makes later than `resetIn` after its own opens a fresh
      window with MaxRequests - 1 left. */
  lemma {:induction false} FreshWindowAfterResetDespiteOthers(store: Store, key: string, now: int,
                                                              calls: seq<Call>, later: int)
    requires later > now + Decide(store, key, now).resetIn
    requires forall i :: 0 <= i < |calls| ==> calls[i].key != key
    ensures Decide(Replay(NextStore(store, key, now), calls), key, later)
      == Verdict(true, MaxRequests - 1, WindowMs)
  {
    FreshWindowAfterReset(store, key, now, later);
    FreshAfterOthers(NextStore(store, key, now), key, calls, later);
  }

  /** How many of `calls` made by `key` are allowed. */
  function AllowedFor(store: Store, calls: seq<Call>, key: string): nat
    decreases |calls|
  {
    if calls == [] then 0
    else
      var c := calls[0];
      var mine := if c.key == key && Decide(store, c.key, c.now).allowed then 1 else 0;
      mine + AllowedFor(NextStore(store, c.key, c.now), calls[1..], key)
  }

  /** Inside a live window of `key`, whatever calls other clients make in
      between, the calls of `key` are allowed at most as often as its
      record has room left. */
  lemma {:induction false} WindowCap(store: Store, calls: seq<Call>, key: string)
    requires ValidStore(store) && key in store
    requires forall i :: 0 <= i < |calls| ==> calls[i].now <= store[key].resetTime
    ensures AllowedFor(store, calls, key) <= MaxRequests - store[key].count
    decreases |calls|
  {
    if calls != [] {
      var c := calls[0];
      var next := NextStore(store, c.key, c.now);
      assert !Expired(store[key], c.now);
      assert key in Housekept(store, c.now);
      NextStoreValid(store, c.key, c.now);
      assert key in next && next[key].resetTime == store[key].resetTime;
      if c.key == key && Decide(store, c.key, c.now).allowed {
        assert next[key].count == store[key].count + 1;
      } else {
        assert next[key].count == store[key].count;
      }
      forall i | 0 <= i < |calls[1..]| ensures calls[1..][i].now <= next[key].resetTime {
        assert calls[1..][i] == calls[i + 1];
      }
      WindowCap(next, calls[1..], key);
    }
  }

  /** A client whose window has just opened gets at most MaxRequests calls
      allowed, the opening one included, until that window ends. */
  lemma {:induction false} AtMostMaxPerWindow(store: Store, key: string, now: int, calls: seq<Call>)
    requires ValidStore(store) && OpensWindow(store, key, now)
    requires forall i :: 0 <= i < |calls| ==> calls[i].now <= now + WindowMs
    ensures AllowedFor(store, [Call(key, now)] + calls, key) <= MaxRequests
  {
    var all := [Call(key, now)] + calls;
    assert all[0] == Call(key, now) && all[1..] == calls;
    var next := NextStore(store, key, now);
    NextStoreValid(store, key, now);
    WindowCap(next, calls, key);
  }

  /** Once a client has used up its window, every further call it makes in
      that window is denied. */
  lemma {:induction false} DeniedUntilReset(store: Store, calls: seq<Call>, key: string)
    requires ValidStore(store) && key in store && store[key].count == MaxRequests
    requires forall i :: 0 <= i < |calls| ==> calls[i].now <= store[key].resetTime
    ensures AllowedFor(store, calls, key) == 0
  {
    WindowCap(store, calls, key);
  }

  /** How many of `calls` are made by `key`. */
  function CallsBy(calls: seq<Call>, key: string): (n: nat)
    ensures n <= |calls|
    decreases |calls|
  {
    if calls == [] then 0
    else (if calls[0].key == key then 1 else 0) + CallsBy(calls[1..], key)
  }

  /** The converse of `WindowCap`: while the caller's record has room for
      all of its coming calls, every one of them is allowed, whatever other
      clients do in between and whenever the calls are made. */
  lemma {:induction false} AllAllowedWithinRoom(store: Store, calls: seq<Call>, key: string)
    requires ValidStore(store)
    requires CallsBy(calls, key) <= MaxRequests
    requires key in store ==> store[key].count + CallsBy(calls, key) <= MaxRequests
    ensures AllowedFor(store, calls, key) == CallsBy(calls, key)
    decreases |calls|
  {
    if calls != [] {
      var c := calls[0];
      var next := NextStore(store, c.key, c.now);
      NextStoreValid(store, c.key, c.now);
      if c.key == key {
        assert Decide(store, key, c.now).allowed;
        assert key in next;
        if OpensWindow(store, key, c.now) {
          assert next[key].count == 1;
        } else {
          assert next[key].count == store[key].count + 1;
        }
      } else if key in next {
        NoNewKeys(store, c.key, c.now);
        OthersUntouched(store, c.key, c.now, key);
      }
      AllAllowedWithinRoom(next, calls[1..], key);
    }
  }

  function Min(a: int, b: int): int
  {
    if a <= b then a else b
  }

  /** Inside a live window the caller's record survives every call, keeps
      its window end, and has counted each of its own calls up to the cap. */
  lemma {:induction false} LiveRecordAfter(store: Store, calls: seq<Call>, key: string)
    requires ValidStore(store) && key in store
    requires forall i :: 0 <= i < |calls| ==> calls[i].now <= store[key].resetTime
    ensures var s := Replay(store, calls);
      key in s && s[key].resetTime == store[key].resetTime
      && s[key].count == Min(MaxRequests, store[key].count + CallsBy(calls, key))
    decreases |calls|
  {
    if calls != [] {
      var c := calls[0];
      var next := NextStore(store, c.key, c.now);
      NextStoreValid(store, c.key, c.now);
      assert !Expired(store[key], c.now);
      assert key in Housekept(store, c.now);
      assert key in next && next[key].resetTime == store[key].resetTime;
      assert next[key].count == Min(MaxRequests, store[key].count + (if c.key == key then 1 else 0));
      forall i | 0 <= i < |calls[1..]| ensures calls[1..][i].now <= next[key].resetTime {
        assert calls[1..][i] == calls[i + 1];
      }
      LiveRecordAfter(next, calls[1..], key);
    }
  }

  /** The cap is exact: a client that opens a window and then makes
      MaxRequests - 1 more calls before it ends has all MaxRequests of them
      allowed, whatever other clients do, and a call after those inside the
      same window is denied with a wait of at most one window. */
  lemma {:induction false} CapIsExact(store: Store, key: string, now: int, calls: seq<Call>, later: int)
    requires ValidStore(store) && OpensWindow(store, key, now)
    requires forall i :: 0 <= i < |calls| ==> calls[i].now <= now + WindowMs
    requires CallsBy(calls, key) == MaxRequests - 1
    requires now <= later <= now + WindowMs
    ensures AllowedFor(store, [Call(key, now)] + calls, key) == MaxRequests
    ensures var v := Decide(Replay(store, [Call(key, now)] + calls), key, later);
      !v.allowed && 0 <= v.resetIn <= WindowMs
  {
    var all := [Call(key, now)] + calls;
    assert all[0] == Call(key, now) && all[1..] == calls;
    var next := NextStore(store, key, now);
    NextStoreValid(store, key, now);
    assert key in next && next[key] == Record(1, now + WindowMs);
    AllAllowedWithinRoom(next, calls, key);
    assert AllowedFor(store, all, key) == 1 + AllowedFor(next, calls, key);
    LiveRecordAfter(next, calls, key);
    assert Replay(store, all) == Replay(next, calls);
  }

  // ---------------------------------------------------------------------
  // Waits are at most one window
  // ---------------------------------------------------------------------

  /** No stored window ends more than one window after `now`. */
  ghost predicate WindowsBounded(store: Store, now: int)
  {
    forall k :: k in store ==> store[k].resetTime <= now + WindowMs
  }

  /** With a clock that does not run backwards, the wait a call reports is
      at most one window, and the store it leaves keeps the bound. */
  lemma WaitAtMostWindow(store: Store, key: string, now: int, later: int)
    requires WindowsBounded(store, now) && now <= later
    ensures Decide(store, key, later).resetIn <= WindowMs
    ensures WindowsBounded(NextStore(store, key, later), later)
  {
  }

  /** Along any run of calls whose clock readings never decrease, starting
      from a store that keeps the bound (the empty store does), every call
      reports a wait of at most one window. */
  lemma {:induction false} WaitAtMostWindowAlong(store: Store, now: int, calls: seq<Call>)
    requires WindowsBounded(store, now)
    requires forall i :: 0 <= i < |calls| ==> now <= calls[i].now
    requires forall i, j :: 0 <= i < j < |calls| ==> calls[i].now <= calls[j].now
    ensures forall k :: 0 <= k < |calls| ==>
      Decide(Replay(store, calls[..k]), calls[k].key, calls[k].now).resetIn <= WindowMs
    decreases |calls|
  {
    if calls != [] {
      var c := calls[0];
      var rest := calls[1..];
      WaitAtMostWindow(store, c.key, now, c.now);
      var next := NextStore(store, c.key, c.now);
      forall i | 0 <= i < |rest| ensures c.now <= rest[i].now {
        assert rest[i] == calls[i + 1];
      }
      forall i, j | 0 <= i < j < |rest| ensures rest[i].now <= rest[j].now {
        assert rest[i] == calls[i + 1] && rest[j] == calls[j + 1];
      }
      WaitAtMostWindowAlong(next, c.now, rest);
      forall k | 0 <= k < |calls|
        ensures Decide(Replay(store, calls[..k]), calls[k].key, calls[k].now).resetIn <= WindowMs
      {
        if k == 0 {
          assert calls[..0] == [];
        } else {
          var pre := calls[..k];
          assert pre[0] == c && pre[1..] == rest[..k - 1];
          assert calls[k] == rest[k - 1];
        }
      }
    }
  }

  // ---------------------------------------------------------------------
  // The store, updated in place
  // ---------------------------------------------------------------------

  /** The in-memory store shared by all requests of one function instance. */
  class RateLimiter {
    var store: Store

    ghost predicate Valid()
      reads this
    {
      ValidStore(store)
    }

    constructor ()
      ensures Valid() && store == map[]
    {
      store := map[];
    }

    /** Deletes, one entry at a time, every record whose window has ended. */
    method Sweep(now: int)
      requires Valid()
      modifies this
      ensures Valid()
      ensures store == Swept(old(store), now)
    {
      ghost var start := store;
      var pending := store.Keys;
      while pending != {}
        invariant pending <= start.Keys
        invariant store.Keys <= start.Keys
        invariant forall k :: k in store ==> store[k] == start[k]
        invariant forall k :: k in start ==> (k in store <==> k in pending || !Expired(start[k], now))
        decreases pending
      {
        var k :| k in pending;
        if now > store[k].resetTime {
          store := store - {k};
        }
        pending := pending - {k};
      }
      assert store.Keys == Swept(start, now).Keys;
    }

    /** Counts a request from `clientIP` at `now` and answers whether it
        may proceed. */
    method Check(clientIP: string, now: int) returns (v: Verdict)
      requires Valid()
      modifies this
      ensures Valid()
      ensures v == Decide(old(store), clientIP, now)
      ensures store == NextStore(old(store), clientIP, now)
    {
      var found := clientIP in store;
      var record := if found then store[clientIP] else Record(0, 0);

      if |store| > SweepThreshold {
        Sweep(now);
      }

      if !found || now > record.resetTime {
        store := store[clientIP := Record(1, now + WindowMs)];
        return Verdict(true, MaxRequests - 1, WindowMs);
      }

      if record.count >= MaxRequests {
        return Verdict(false, 0, record.resetTime - now);
      }

      store := store[clientIP := record.(count := record.count + 1)];
      return Verdict(true, MaxRequests - (record.count + 1), record.resetTime - now);
    }
  }
}
