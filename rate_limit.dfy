/** The in-memory sliding-window rate limiter: per key, the instants of the
    requests it allowed, pruned to the window at every check and swept of
    stale keys periodically; and the client address used as its key. */
module RateLimit {
  import opened Base
  import opened Seqs
  import opened Text

  /** The periodic sweep keeps timestamps younger than ten minutes. */
  const SweepAge: int := 600_000

  /** Whether instant `t` is still inside a window of `windowMs` ending at
      `now` (future instants count as inside). */
  function InWindow(now: int, windowMs: int): int -> bool {
    (t: int) => now - t < windowMs
  }

  /** The timestamps of `ts` inside the window, in their order
      (`RecentKeepsOrder`). */
  function Recent(ts: seq<int>, now: int, windowMs: int): (r: seq<int>)
    ensures |r| <= |ts|
    ensures forall i :: 0 <= i < |r| ==> now - r[i] < windowMs
  {
    var r := Filter(ts, InWindow(now, windowMs));
    assert forall i :: 0 <= i < |r| ==> r[i] in r;
    r
  }

  /** Pruning keeps every timestamp inside the window, and keeps them in
      their order. */
  lemma RecentKeepsOrder(ts: seq<int>, now: int, windowMs: int)
    ensures forall i :: 0 <= i < |ts| && now - ts[i] < windowMs ==> ts[i] in Recent(ts, now, windowMs)
    ensures IsSubsequence(Recent(ts, now, windowMs), ts)
  {
    FilterIsSubsequence(ts, InWindow(now, windowMs));
  }

  /** A missing entry counts as no timestamps. */
  function Timestamps(store: map<string, seq<int>>, key: string): seq<int> {
    if key in store then store[key] else []
  }

  /** The request is blocked when the window already holds `maxRequests`. */
  predicate Blocked(store: map<string, seq<int>>, key: string, maxRequests: int, windowMs: int, now: int)
    ensures Blocked(store, key, maxRequests, windowMs, now) ==> |Timestamps(store, key)| >= maxRequests
  {
    |Recent(Timestamps(store, key), now, windowMs)| >= maxRequests
  }

  /** The store after a check: the key's timestamps pruned to the window, with
      `now` appended when the request is allowed; no other key changes. */
  function Recorded(store: map<string, seq<int>>, key: string, maxRequests: int, windowMs: int, now: int)
    : (r: map<string, seq<int>>)
    ensures key in r
    ensures forall k :: k in store && k != key ==> k in r && r[k] == store[k]
    ensures forall k :: k in r ==> k == key || k in store
  {
    var recent := Recent(Timestamps(store, key), now, windowMs);
    store[key := if |recent| >= maxRequests then recent else recent + [now]]
  }

  /** The store after a sweep at `now`: every key keeps its timestamps younger
      than `SweepAge`, and keys left with none are deleted. */
  function Swept(store: map<string, seq<int>>, now: int): (r: map<string, seq<int>>)
    ensures forall k :: k in r ==> k in store && r[k] != [] && r[k] == Recent(store[k], now, SweepAge)
    ensures forall k :: k in store && Recent(store[k], now, SweepAge) != [] ==> k in r
  {
    map k | k in store && Recent(store[k], now, SweepAge) != [] :: Recent(store[k], now, SweepAge)
  }

  /** The store part-way through a sweep: keys still `pending` are as they
      were, the others are swept. */
  function PartlySwept(store: map<string, seq<int>>, pending: set<string>, now: int): map<string, seq<int>> {
    map k | k in store && (k in pending || Recent(store[k], now, SweepAge) != []) ::
      if k in pending then store[k] else Recent(store[k], now, SweepAge)
  }

  /** One key of a sweep: it is deleted when none of its timestamps is recent
      enough, and otherwise keeps the recent ones. */
  lemma SweepStep(store: map<string, seq<int>>, pending: set<string>, now: int, key: string)
    requires key in pending && pending <= store.Keys
    ensures var m := PartlySwept(store, pending, now);
            var ts := Recent(store[key], now, SweepAge);
            key in m && m[key] == store[key]
            && PartlySwept(store, pending - {key}, now) == if ts == [] then m - {key} else m[key := ts]
  {
    var m := PartlySwept(store, pending, now);
    var m' := PartlySwept(store, pending - {key}, now);
    var ts := Recent(store[key], now, SweepAge);
    var r := if ts == [] then m - {key} else m[key := ts];
    forall k | k in m'
      ensures k in r && r[k] == m'[k]
    {
      if k != key {
        assert k in m;
      } else {
        assert ts != [] && m'[k] == ts;
      }
    }
    forall k | k in r
      ensures k in m'
    {
    }
    assert m' == r;
  }

  lemma SweepDone(store: map<string, seq<int>>, now: int)
    ensures PartlySwept(store, {}, now) == Swept(store, now)
  {
  }

  class RateLimiter {
    var store: map<string, seq<int>>

    constructor ()
      ensures store == map[]
    {
      store := map[];
    }

    /** `isRateLimited(key, maxRequests, windowMs)` at instant `now`: true when
        the request must be refused. */
    method IsRateLimited(key: string, maxRequests: int, windowMs: int, now: int) returns (blocked: bool)
      modifies this
      ensures blocked == Blocked(old(store), key, maxRequests, windowMs, now)
      ensures store == Recorded(old(store), key, maxRequests, windowMs, now)
    {
      var timestamps := if key in store then store[key] else [];
      timestamps := Filter(timestamps, InWindow(now, windowMs));
      if |timestamps| >= maxRequests {
        store := store[key := timestamps];
        return true;
      }
      timestamps := timestamps + [now];
      store := store[key := timestamps];
      return false;
    }

    /** The periodic clean-up, run at instant `now`. */
    method Sweep(now: int)
      modifies this
      ensures store == Swept(old(store), now)
    {
      ghost var before := store;
      var pending := store.Keys;
      assert PartlySwept(before, pending, now) == before;
      while pending != {}
        invariant pending <= before.Keys
        invariant store == PartlySwept(before, pending, now)
        decreases |pending|
      {
        var key :| key in pending;
        SweepStep(before, pending, now, key);
        var timestamps := Filter(store[key], InWindow(now, SweepAge));
        if timestamps == [] {
          store := store - {key};
        } else {
          store := store[key := timestamps];
        }
        pending := pending - {key};
      }
      SweepDone(before, now);
    }
  }

  // ---- properties of the limiter ----

  /** A key's entry never holds more than `maxRequests` timestamps when every
      check on it uses that limit: a blocked request is not recorded. */
  lemma RecordedStaysBounded(store: map<string, seq<int>>, key: string, maxRequests: int, windowMs: int, now: int)
    requires |Timestamps(store, key)| <= maxRequests
    ensures |Timestamps(Recorded(store, key, maxRequests, windowMs, now), key)| <= maxRequests
    ensures !Blocked(store, key, maxRequests, windowMs, now) ==>
              now in Timestamps(Recorded(store, key, maxRequests, windowMs, now), key)
  {
  }

  /** The requests of a run of checks at the given instants, on one key with
      one limit and window, that were allowed. */
  function Allowed(store: map<string, seq<int>>, key: string, maxRequests: int, windowMs: int, times: seq<int>)
    : seq<int>
    decreases |times|
  {
    if times == [] then []
    else
      var t := times[0];
      var rest := Allowed(Recorded(store, key, maxRequests, windowMs, t), key, maxRequests, windowMs, times[1..]);
      if Blocked(store, key, maxRequests, windowMs, t) then rest else [t] + rest
  }

  /** Timestamps no older than `lo` stay in the window at any `t` less than a
      window after `lo`. */
  lemma RecentKeepsWindow(older: seq<int>, kept: seq<int>, t: int, windowMs: int, lo: int)
    requires t - lo < windowMs
    requires forall i :: 0 <= i < |kept| ==> lo <= kept[i]
    ensures Recent(older + kept, t, windowMs) == Filter(older, InWindow(t, windowMs)) + kept
  {
    var p := InWindow(t, windowMs);
    FilterAppend(older, kept, p);
    FilterAll(kept, p);
  }

  lemma {:induction false} AllowedWithinWindow(
    store: map<string, seq<int>>, key: string, maxRequests: int, windowMs: int, times: seq<int>,
    lo: int, hi: int, older: seq<int>, kept: seq<int>)
    requires Timestamps(store, key) == older + kept
    requires hi - lo < windowMs
    requires forall i :: 0 <= i < |kept| ==> lo <= kept[i]
    requires forall i :: 0 <= i < |times| ==> lo <= times[i] <= hi
    requires |kept| <= maxRequests
    ensures |kept| + |Allowed(store, key, maxRequests, windowMs, times)| <= maxRequests
    decreases |times|
  {
    if times != [] {
      var t := times[0];
      var p := InWindow(t, windowMs);
      RecentKeepsWindow(older, kept, t, windowMs, lo);
      var store' := Recorded(store, key, maxRequests, windowMs, t);
      if Blocked(store, key, maxRequests, windowMs, t) {
        AllowedWithinWindow(store', key, maxRequests, windowMs, times[1..], lo, hi, Filter(older, p), kept);
      } else {
        assert Timestamps(store', key) == Filter(older, p) + (kept + [t]);
        AllowedWithinWindow(store', key, maxRequests, windowMs, times[1..], lo, hi, Filter(older, p), kept + [t]);
      }
    }
  }

  /** The sliding-window promise: whatever the limiter remembers, among checks
      on one key whose instants all lie within a span shorter than the window,
      at most `maxRequests` are allowed. */
  lemma AtMostMaxPerWindow(
    store: map<string, seq<int>>, key: string, maxRequests: int, windowMs: int, times: seq<int>, lo: int, hi: int)
    requires 0 <= maxRequests
    requires hi - lo < windowMs
    requires forall i :: 0 <= i < |times| ==> lo <= times[i] <= hi
    ensures |Allowed(store, key, maxRequests, windowMs, times)| <= maxRequests
  {
    assert Timestamps(store, key) == Timestamps(store, key) + [];
    AllowedWithinWindow(store, key, maxRequests, windowMs, times, lo, hi, Timestamps(store, key), []);
  }

  /** Checks spaced at least a window apart are all allowed when the limit is
      at least one and the key starts empty. */
  lemma SpacedRequestsAllowed(key: string, maxRequests: int, windowMs: int, t1: int, t2: int)
    requires 1 <= maxRequests && t2 - t1 >= windowMs
    ensures !Blocked(map[], key, maxRequests, windowMs, t1)
    ensures !Blocked(Recorded(map[], key, maxRequests, windowMs, t1), key, maxRequests, windowMs, t2)
  {
    assert Timestamps(Recorded(map[], key, maxRequests, windowMs, t1), key) == [t1];
    assert Recent([t1], t2, windowMs) == [];
  }

  /** Once none of a key's timestamps lies inside the window, the key is
      allowed again and starts afresh with the current instant alone. */
  lemma QuietWindowResets(store: map<string, seq<int>>, key: string, maxRequests: int, windowMs: int, now: int)
    requires 1 <= maxRequests
    requires forall i :: 0 <= i < |Timestamps(store, key)| ==> now - Timestamps(store, key)[i] >= windowMs
    ensures !Blocked(store, key, maxRequests, windowMs, now)
    ensures Recorded(store, key, maxRequests, windowMs, now)[key] == [now]
  {
    var ts := Timestamps(store, key);
    FilterNone(ts, InWindow(now, windowMs));
  }

  /** The sweep is invisible to later checks: for any window no longer than
      `SweepAge`, a check at or after the sweep sees the same timestamps. */
  lemma SweepInvisible(store: map<string, seq<int>>, now: int, key: string, later: int, windowMs: int, maxRequests: int)
    requires now <= later && windowMs <= SweepAge
    ensures Recent(Timestamps(Swept(store, now), key), later, windowMs) == Recent(Timestamps(store, key), later, windowMs)
    ensures Blocked(Swept(store, now), key, maxRequests, windowMs, later) == Blocked(store, key, maxRequests, windowMs, later)
  {
    var q := InWindow(later, windowMs);
    var p := InWindow(now, SweepAge);
    if key in store {
      FilterFilter(store[key], p, q);
      if key !in Swept(store, now) {
        assert Filter(store[key], p) == [];
      }
    }
  }

  // ---- the client address ----

  /** `getClientIp`: the first entry of `x-forwarded-for`, trimmed, else
      `x-real-ip`, else `cf-connecting-ip`, else "unknown". A missing header
      is "" (both are falsy). */
  function ClientIp(forwardedFor: string, realIp: string, connectingIp: string): (ip: string)
    ensures Present(ip)
    ensures !Present(Trim(Split(forwardedFor, ',')[0])) ==>
              ip == if Present(realIp) then realIp else if Present(connectingIp) then connectingIp else "unknown"
  {
    var first := Trim(Split(forwardedFor, ',')[0]);
    if Present(first) then first
    else if Present(realIp) then realIp
    else if Present(connectingIp) then connectingIp
    else "unknown"
  }

  /** With a usable `x-forwarded-for`, the address is its first hop: the text
      before the first comma, trimmed, which holds no comma. */
  lemma ClientIpIsFirstHop(forwardedFor: string, realIp: string, connectingIp: string)
    requires Present(Trim(Split(forwardedFor, ',')[0]))
    ensures ClientIp(forwardedFor, realIp, connectingIp)
            == Trim(if ',' in forwardedFor then forwardedFor[..IndexOf(forwardedFor, ',')] else forwardedFor)
    ensures ',' !in ClientIp(forwardedFor, realIp, connectingIp)
  {
    SplitHead(forwardedFor, ',');
    var head := Split(forwardedFor, ',')[0];
    TrimChars(head);
    assert ',' !in Trim(head);
  }

  /** The limiter's key is chosen by the client: any non-empty address without
      commas or outer white space, sent as `x-forwarded-for`, is used as is. */
  lemma ClientChoosesAddress(ip: string, realIp: string, connectingIp: string)
    requires Present(ip) && ',' !in ip && Trim(ip) == ip
    ensures ClientIp(ip, realIp, connectingIp) == ip
  {
    SplitHead(ip, ',');
  }
}
