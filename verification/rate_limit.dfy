/** The fixed-window query counter kept in the key-value store: one counter per
    hashed client address, created with a one-day expiry on the first query. */
module RateLimit {
  import opened Wrappers

  const LimitPerDay: nat := 5
  const WindowSeconds: nat := 24 * 60 * 60

  /** A counter key in the store; `ttl` is the seconds left, `None` when no expiry is set. */
  datatype Counter = Counter(count: nat, ttl: Option<nat>)

  type Store = map<string, Counter>

  datatype RateLimitResult = RateLimitResult(allowed: bool, remaining: nat, resetAt: int)

  function Key(ipHash: string): string {
    "rate-limit:" + ipHash
  }

  /** `INCR`: a missing key starts at 1 without expiry. */
  function Incr(store: Store, key: string): (r: Store)
    ensures key in r && r[key].count == (if key in store then store[key].count + 1 else 1)
    ensures key in store ==> r[key].ttl == store[key].ttl
    ensures key !in store ==> r[key].ttl.None?
    ensures forall k :: k != key ==> (k in r <==> k in store) && (k in store ==> r[k] == store[k])
  {
    if key in store then store[key := Counter(store[key].count + 1, store[key].ttl)]
    else store[key := Counter(1, None)]
  }

  /** `EXPIRE key seconds` on an existing key. */
  function Expire(store: Store, key: string, seconds: nat): (r: Store)
    requires key in store
    ensures key in r && r[key] == Counter(store[key].count, Some(seconds))
    ensures forall k :: k != key ==> (k in r <==> k in store) && (k in store ==> r[k] == store[k])
  {
    store[key := Counter(store[key].count, Some(seconds))]
  }

  /** `TTL key`: -2 for a missing key, -1 for a key without expiry. */
  function Ttl(store: Store, key: string): (r: int)
    ensures r >= -2
    ensures r == -2 <==> key !in store
  {
    if key !in store then -2
    else match store[key].ttl
      case None => -1
      case Some(t) => t
  }

  /** `checkRateLimit` at wall-clock time `nowMs`: returns the decision and the new store. */
  function CheckRateLimit(store: Store, ipHash: string, nowMs: int): (r: (RateLimitResult, Store))
    ensures var key := Key(ipHash);
      var count := if key in store then store[key].count + 1 else 1;
      && key in r.1 && r.1[key].count == count
      && (r.0.allowed <==> count <= LimitPerDay)
      && r.0.remaining == (if count >= LimitPerDay then 0 else LimitPerDay - count)
      && (count == 1 ==> r.1[key].ttl == Some(WindowSeconds))
      && (count != 1 ==> r.1[key].ttl == store[key].ttl)
    ensures r.0.remaining < LimitPerDay
    ensures r.0.resetAt >= nowMs
    ensures forall k :: k != Key(ipHash) ==> (k in r.1 <==> k in store) && (k in store ==> r.1[k] == store[k])
  {
    var key := Key(ipHash);
    var s1 := Incr(store, key);
    var count := s1[key].count;
    var s2 := if count == 1 then Expire(s1, key, WindowSeconds) else s1;
    var ttl := Ttl(s2, key);
    var remaining := if LimitPerDay - count > 0 then LimitPerDay - count else 0;
    var result := RateLimitResult(count <= LimitPerDay, remaining, nowMs + (if ttl > 0 then ttl else 0) * 1000);
    (result, s2)
  }

  /** Which of the three store calls reject, each with the client's error message.
      `checkRateLimit` catches none of them, so a rejected call rejects the check. */
  datatype Faults = Faults(incr: Option<string>, expire: Option<string>, ttl: Option<string>)

  const NoFaults := Faults(None, None, None)

  /** The count `INCR` answers with. */
  function CountAfter(store: Store, key: string): nat {
    if key in store then store[key].count + 1 else 1
  }

  /** `checkRateLimit` against a store whose calls may reject. A rejected `INCR`
      changes nothing; a rejected `EXPIRE` leaves the fresh counter in place without
      an expiry; a rejected `TTL` comes after both writes. */
  function TryCheckRateLimit(store: Store, ipHash: string, nowMs: int, faults: Faults): (r: (Result<RateLimitResult, string>, Store))
    ensures r.0.Success? <==> faults.incr.None? && (CountAfter(store, Key(ipHash)) == 1 ==> faults.expire.None?) && faults.ttl.None?
    ensures r.0.Success? ==> (r.0.value, r.1) == CheckRateLimit(store, ipHash, nowMs)
    ensures faults.incr.Some? ==> r == (Failure(faults.incr.value), store)
    ensures faults.incr.None? && CountAfter(store, Key(ipHash)) == 1 && faults.expire.Some? ==>
              r == (Failure(faults.expire.value), Incr(store, Key(ipHash)))
    ensures faults.incr.None? && (CountAfter(store, Key(ipHash)) == 1 ==> faults.expire.None?) && faults.ttl.Some? ==>
              r == (Failure(faults.ttl.value), CheckRateLimit(store, ipHash, nowMs).1)
  {
    var key := Key(ipHash);
    match faults.incr
    case Some(e) => (Failure(e), store)
    case None =>
      var s1 := Incr(store, key);
      if s1[key].count == 1 && faults.expire.Some? then (Failure(faults.expire.value), s1)
      else
        var s2 := if s1[key].count == 1 then Expire(s1, key, WindowSeconds) else s1;
        match faults.ttl
        case Some(e) => (Failure(e), s2)
        case None =>
          var ttl := Ttl(s2, key);
          var count := s1[key].count;
          var remaining := if LimitPerDay - count > 0 then LimitPerDay - count else 0;
          (Success(RateLimitResult(count <= LimitPerDay, remaining, nowMs + (if ttl > 0 then ttl else 0) * 1000)), s2)
  }

  /** With every call answering, the check is `CheckRateLimit`. */
  lemma NoFaultsChecks(store: Store, ipHash: string, nowMs: int)
    ensures TryCheckRateLimit(store, ipHash, nowMs, NoFaults) == (Success(CheckRateLimit(store, ipHash, nowMs).0), CheckRateLimit(store, ipHash, nowMs).1)
  {
  }

  /** A first query whose `EXPIRE` is rejected leaves a counter that never expires:
      the next check finds it at 1 or more, so it never sets the expiry again, and no
      amount of time passing removes it. */
  lemma ExpireFailureSticks(store: Store, ipHash: string, nowMs: int, faults: Faults, later: nat, laterMs: int)
    requires Key(ipHash) !in store && faults.incr.None? && faults.expire.Some?
    ensures var s := TryCheckRateLimit(store, ipHash, nowMs, faults).1;
            var next := CheckRateLimit(Tick(s, later), ipHash, laterMs).1;
            Key(ipHash) in s && s[Key(ipHash)].ttl.None?
            && Key(ipHash) in Tick(s, later)
            && next[Key(ipHash)] == Counter(s[Key(ipHash)].count + 1, None)
  {
    var s := TryCheckRateLimit(store, ipHash, nowMs, faults).1;
    assert s == Incr(store, Key(ipHash));
  }

  /** `seconds` of time passing: keys whose expiry falls due are removed. */
  function Tick(store: Store, seconds: nat): (r: Store)
    ensures forall k :: k in r ==> k in store
    ensures forall k :: k in store && store[k].ttl.None? ==> k in r && r[k] == store[k]
    ensures forall k :: k in store && store[k].ttl.Some? && store[k].ttl.value > seconds ==>
              k in r && r[k] == Counter(store[k].count, Some(store[k].ttl.value - seconds))
    ensures forall k :: k in store && store[k].ttl.Some? && store[k].ttl.value <= seconds ==> k !in r
  {
    map k | k in store && (store[k].ttl.None? || store[k].ttl.value > seconds) ::
      match store[k].ttl
      case None => store[k]
      case Some(t) => Counter(store[k].count, Some(t - seconds))
  }

  /** Queries from one client: before query `i`, `gaps[i]` seconds pass. */
  function Session(store: Store, ipHash: string, nowMs: int, gaps: seq<nat>): (r: seq<RateLimitResult>)
    ensures |r| == |gaps|
    decreases |gaps|
  {
    if gaps == [] then []
    else
      var now := nowMs + gaps[0] * 1000;
      var (result, next) := CheckRateLimit(Tick(store, gaps[0]), ipHash, now);
      [result] + Session(next, ipHash, now, gaps[1..])
  }

  /** No gap reaches the window's end: the counter key survives every pause. */
  predicate WithinWindow(store: Store, key: string, gaps: seq<nat>)
    decreases |gaps|
  {
    gaps == [] ||
    ((key !in store || (store[key].ttl.Some? && store[key].ttl.value > gaps[0])) &&
     var next := Incremented(Tick(store, gaps[0]), key);
     WithinWindow(next, key, gaps[1..]))
  }

  /** The store after a query on `key` (the same as `CheckRateLimit`'s). */
  function Incremented(store: Store, key: string): Store {
    var s1 := Incr(store, key);
    if s1[key].count == 1 then Expire(s1, key, WindowSeconds) else s1
  }

  lemma CheckIsIncremented(store: Store, ipHash: string, nowMs: int)
    ensures CheckRateLimit(store, ipHash, nowMs).1 == Incremented(store, Key(ipHash))
  {
  }

  predicate Monotone(r: seq<RateLimitResult>) {
    forall i :: 0 <= i < |r| - 1 ==>
      (r[i + 1].remaining <= r[i].remaining && (!r[i].allowed ==> !r[i + 1].allowed))
  }

  /** Within one window the count only grows: `remaining` never increases, and once
      a query is refused every later one is refused too. */
  lemma {:induction false} SessionMonotone(store: Store, ipHash: string, nowMs: int, gaps: seq<nat>)
    requires WithinWindow(store, Key(ipHash), gaps)
    ensures Monotone(Session(store, ipHash, nowMs, gaps))
    decreases |gaps|
  {
    if |gaps| >= 2 {
      var key := Key(ipHash);
      var now := nowMs + gaps[0] * 1000;
      var s0 := Tick(store, gaps[0]);
      var first := CheckRateLimit(s0, ipHash, now);
      var next := first.1;
      CheckIsIncremented(s0, ipHash, now);
      assert WithinWindow(next, key, gaps[1..]);
      SessionMonotone(next, ipHash, now, gaps[1..]);
      var rest := Session(next, ipHash, now, gaps[1..]);
      assert Session(store, ipHash, nowMs, gaps) == [first.0] + rest;
      // the second query sees the counter the first one left, not yet expired
      var now1 := now + gaps[1] * 1000;
      var s1 := Tick(next, gaps[1]);
      assert key in s1 && s1[key].count == next[key].count;
      var second := CheckRateLimit(s1, ipHash, now1);
      assert rest[0] == second.0;
      var c1 := next[key].count;
      assert (first.0.allowed <==> c1 <= LimitPerDay) && first.0.remaining == (if c1 >= LimitPerDay then 0 else LimitPerDay - c1);
      assert s1[key].count == c1;
      var c2 := c1 + 1;
      assert (second.0.allowed <==> c2 <= LimitPerDay) && second.0.remaining == (if c2 >= LimitPerDay then 0 else LimitPerDay - c2);
      var r := Session(store, ipHash, nowMs, gaps);
      forall i | 0 <= i < |r| - 1
        ensures r[i + 1].remaining <= r[i].remaining && (!r[i].allowed ==> !r[i + 1].allowed)
      {
        if i > 0 {
          assert r[i] == rest[i - 1] && r[i + 1] == rest[i];
          var j := i - 1;
          assert 0 <= j < |rest| - 1;
          assert rest[j + 1].remaining <= rest[j].remaining && (!rest[j].allowed ==> !rest[j + 1].allowed);
        } else {
          assert r[0] == first.0 && r[1] == second.0;
        }
      }
    }
  }
}
