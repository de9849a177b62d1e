/**
 RoutingEligibility of serving_eligibility.py: a bounded cache of serving proofs with lazy
 expiry, against the plain log of everything that happened.
 */
module Eligibility {
  import opened Basics

  const MAX_PEERS := 1024
  const TTL := 300.0

  // ---------- the specification: a log ----------

  datatype Event<Peer> = Proved(peer: Peer, time: real) | Cleared

  /** The time of each peer's last proof since the last clear. */
  function LastProofs<Peer>(log: seq<Event<Peer>>): map<Peer, real> {
    if log == [] then map[]
    else
      match log[|log| - 1]
      case Cleared => map[]
      case Proved(p, t) => LastProofs(log[..|log| - 1])[p := t]
  }

  lemma LastProofsAppend<Peer>(log: seq<Event<Peer>>, p: Peer, t: real)
    ensures LastProofs(log + [Proved(p, t)]) == LastProofs(log)[p := t]
  {
    assert (log + [Proved(p, t)])[..|log|] == log;
  }

  /** The peers whose last proof came after p's. */
  ghost function Later<Peer>(last: map<Peer, real>, p: Peer): set<Peer>
    requires p in last
  {
    set q | q in last && last[q] > last[p]
  }

  /** Proved since the last clear, under 300 seconds ago, with fewer than 1024 later provers. */
  ghost predicate Eligible<Peer>(last: map<Peer, real>, p: Peer, now: real) {
    p in last && now < last[p] + TTL && |Later(last, p)| < MAX_PEERS
  }

  ghost predicate Increasing(ts: seq<real>) {
    forall i, j :: 0 <= i < j < |ts| ==> ts[i] <= ts[j]
  }

  /** The eligible ones among the first n peers, each judged at its own clock reading. */
  ghost function EligibleAmong<Peer>(last: map<Peer, real>, peers: seq<Peer>, ts: seq<real>, n: nat): seq<Peer>
    requires n <= |peers| == |ts|
  {
    if n == 0 then []
    else EligibleAmong(last, peers, ts, n - 1)
         + (if Eligible(last, peers[n - 1], ts[n - 1]) then [peers[n - 1]] else [])
  }

  /** Those found ineligible, which leave the routing table. */
  ghost function IneligibleAmong<Peer>(last: map<Peer, real>, peers: seq<Peer>, ts: seq<real>, n: nat): set<Peer>
    requires n <= |peers| == |ts|
  {
    if n == 0 then {}
    else IneligibleAmong(last, peers, ts, n - 1)
         + (if Eligible(last, peers[n - 1], ts[n - 1]) then {} else {peers[n - 1]})
  }

  // ---------- why the cache agrees with the log ----------

  ghost predicate Stamped<Peer>(last: map<Peer, real>, expires: map<Peer, real>) {
    forall p :: p in expires ==> p in last && expires[p] == last[p] + TTL
  }

  /** All proofs are past, and no two at one time. */
  ghost predicate Ordered<Peer>(last: map<Peer, real>, now: real) {
    && (forall p :: p in last ==> last[p] <= now)
    && (forall p, q :: p in last && q in last && p != q ==> last[p] != last[q])
  }

  /** Only the expired and the crowded out are missing from the cache. */
  ghost predicate MissingForCause<Peer>(last: map<Peer, real>, expires: map<Peer, real>, now: real) {
    forall p :: p in last && p !in expires ==> last[p] + TTL <= now || |Later(last, p)| >= MAX_PEERS
  }

  /** Whoever proved later than a cached peer is cached too, or expired. */
  ghost predicate LaterCached<Peer>(last: map<Peer, real>, expires: map<Peer, real>, now: real) {
    forall p, q :: p in expires && p in last && q in last && q !in expires && last[p] < last[q] ==>
      last[q] + TTL <= now
  }

  /** How the cache relates to the last proofs at clock reading `now`. */
  ghost predicate Agrees<Peer>(last: map<Peer, real>, expires: map<Peer, real>, now: real) {
    && |expires| <= MAX_PEERS && Stamped(last, expires) && Ordered(last, now)
    && MissingForCause(last, expires, now) && LaterCached(last, expires, now)
  }

  /** An unexpired entry of the cache is exactly an eligible peer of the log. */
  lemma CachedIffEligible<Peer>(last: map<Peer, real>, expires: map<Peer, real>, clock: real, p: Peer, now: real)
    requires Agrees(last, expires, clock) && clock <= now
    ensures p in expires && now < expires[p] <==> Eligible(last, p, now)
  {
    if p in expires && now < expires[p] {
      assert Later(last, p) <= expires.Keys - {p};
      SubsetSize(Later(last, p), expires.Keys - {p});
    }
  }

  lemma CacheIsBounded<Peer>(last: map<Peer, real>, expires: map<Peer, real>, clock: real)
    requires Agrees(last, expires, clock)
    ensures |expires| <= MAX_PEERS
  {
  }

  lemma TimePasses<Peer>(last: map<Peer, real>, expires: map<Peer, real>, clock: real, now: real)
    requires Agrees(last, expires, clock) && clock <= now
    ensures Agrees(last, expires, now)
  {
  }

  lemma DropExpired<Peer>(last: map<Peer, real>, expires: map<Peer, real>, now: real, p: Peer)
    requires Agrees(last, expires, now) && p in expires && expires[p] <= now
    ensures Agrees(last, expires - {p}, now)
  {
    assert (expires - {p}).Keys == expires.Keys - {p};
  }

  lemma LaterGrows<Peer>(last: map<Peer, real>, p: Peer, now: real, r: Peer)
    requires r in last && r != p && forall q :: q in last ==> last[q] < now
    ensures Later(last, r) + {p} <= Later(last[p := now], r)
    ensures |Later(last, r)| <= |Later(last[p := now], r)|
  {
    SubsetSize(Later(last, r), Later(last[p := now], r));
  }

  /** A proof from a cached peer, or from a new one while there is room. */
  lemma RecordWithRoom<Peer>(last: map<Peer, real>, expires: map<Peer, real>, clock: real, p: Peer, now: real)
    requires Agrees(last, expires, clock) && clock < now
    requires p in expires || |expires| < MAX_PEERS
    ensures Agrees(last[p := now], expires[p := now + TTL], now)
  {
    hide Later;
    var last', expires' := last[p := now], expires[p := now + TTL];
    assert expires'.Keys == expires.Keys + {p};
    assert MissingForCause(last', expires', now) by {
      forall r | r in last' && r !in expires'
        ensures last'[r] + TTL <= now || |Later(last', r)| >= MAX_PEERS
      {
        LaterGrows(last, p, now, r);
      }
    }
  }

  ghost predicate IsOldest<Peer>(expires: map<Peer, real>, oldest: Peer) {
    oldest in expires && forall q :: q in expires ==> expires[oldest] <= expires[q]
  }

  lemma EvictedIsCrowdedOut<Peer>(
    last: map<Peer, real>, expires: map<Peer, real>, clock: real, p: Peer, now: real, oldest: Peer)
    requires Stamped(last, expires) && Ordered(last, clock) && clock < now
    requires p !in expires && |expires| == MAX_PEERS && IsOldest(expires, oldest)
    ensures oldest in last[p := now] && |Later(last[p := now], oldest)| >= MAX_PEERS
  {
    var crowd := expires.Keys - {oldest} + {p};
    assert |crowd| == MAX_PEERS;
    forall q | q in expires.Keys - {oldest} ensures q in Later(last[p := now], oldest) {
      assert expires[oldest] <= expires[q];
    }
    assert crowd <= Later(last[p := now], oldest);
    SubsetSize(crowd, Later(last[p := now], oldest));
  }

  /** A proof from a new peer when the cache is full: the oldest entry makes room. */
  lemma RecordWithEviction<Peer>(
    last: map<Peer, real>, expires: map<Peer, real>, clock: real, p: Peer, now: real, oldest: Peer)
    requires Agrees(last, expires, clock) && clock < now
    requires p !in expires && |expires| == MAX_PEERS && IsOldest(expires, oldest)
    ensures Agrees(last[p := now], (expires - {oldest})[p := now + TTL], now)
  {
    var last', kept := last[p := now], expires - {oldest};
    var expires' := kept[p := now + TTL];
    assert |expires'| <= MAX_PEERS by {
      assert kept.Keys == expires.Keys - {oldest} && expires'.Keys == kept.Keys + {p};
      assert |expires'| == |expires'.Keys|;
    }
    assert Stamped(last', expires') && Ordered(last', now);
    EvictionMissing(last, expires, clock, p, now, oldest);
    EvictionKeepsLater(last, expires, clock, p, now, oldest);
  }

  lemma EvictionMissing<Peer>(
    last: map<Peer, real>, expires: map<Peer, real>, clock: real, p: Peer, now: real, oldest: Peer)
    requires Agrees(last, expires, clock) && clock < now
    requires p !in expires && |expires| == MAX_PEERS && IsOldest(expires, oldest)
    ensures MissingForCause(last[p := now], (expires - {oldest})[p := now + TTL], now)
  {
    hide Later;
    var last', expires' := last[p := now], (expires - {oldest})[p := now + TTL];
    EvictedIsCrowdedOut(last, expires, clock, p, now, oldest);
    forall r | r in last' && r !in expires'
      ensures last'[r] + TTL <= now || |Later(last', r)| >= MAX_PEERS
    {
      if r != oldest { LaterGrows(last, p, now, r); }
    }
  }

  lemma EvictionKeepsLater<Peer>(
    last: map<Peer, real>, expires: map<Peer, real>, clock: real, p: Peer, now: real, oldest: Peer)
    requires Stamped(last, expires) && Ordered(last, clock) && LaterCached(last, expires, clock) && clock < now
    requires p !in expires && IsOldest(expires, oldest)
    ensures LaterCached(last[p := now], (expires - {oldest})[p := now + TTL], now)
  {
    var last', expires' := last[p := now], (expires - {oldest})[p := now + TTL];
    forall r, q | r in expires' && r in last' && q in last' && q !in expires' && last'[r] < last'[q]
      ensures last'[q] + TTL <= now
    {
      assert q != p && q in last && r != p && r in expires;
      assert expires[oldest] <= expires[r];
    }
  }

  // ---------- the cache ----------

  class RoutingEligibility<Peer(==)> {
    var expires: map<Peer, real>
    var table: set<Peer>
    ghost var log: seq<Event<Peer>>
    ghost var clock: real

    ghost predicate Valid()
      reads this
    {
      Agrees(LastProofs(log), expires, clock) && table <= expires.Keys
    }

    /** Peers already in the routing table carry no proof and are removed. */
    constructor (now: real)
      ensures Valid() && log == [] && clock == now && table == {}
    {
      expires, table, log, clock := map[], {}, [], now;
    }

    /** is_eligible, at clock reading `now`. */
    method IsEligible(p: Peer, now: real) returns (r: bool)
      requires Valid() && clock <= now
      modifies this
      ensures Valid() && log == old(log) && clock == now
      ensures r <==> Eligible(LastProofs(log), p, now)
      ensures r ==> p in expires
      ensures table == if r then old(table) else old(table) - {p}
    {
      hide Agrees, Eligible, LastProofs;
      CachedIffEligible(LastProofs(log), expires, clock, p, now);
      TimePasses(LastProofs(log), expires, clock, now);
      clock := now;
      if p !in expires { return false; }
      if now >= expires[p] {
        DropExpired(LastProofs(log), expires, now, p);
        expires := expires - {p};
        table := table - {p};
        return false;
      }
      r := true;
    }

    /** The entry with the smallest expiry. */
    method Oldest() returns (oldest: Peer)
      requires expires != map[]
      ensures IsOldest(expires, oldest)
    {
      oldest :| oldest in expires;
      var rest := expires.Keys - {oldest};
      while rest != {}
        invariant oldest in expires && rest <= expires.Keys
        invariant forall q :: q in expires && q !in rest ==> expires[oldest] <= expires[q]
        decreases |rest|
      {
        var q :| q in rest;
        if expires[q] < expires[oldest] { oldest := q; }
        rest := rest - {q};
      }
    }

    /** record_valid_response; `admitted` is what the routing table made of the peer. */
    method RecordValidResponse(p: Peer, now: real, admitted: bool)
      requires Valid() && clock < now
      modifies this
      ensures Valid() && clock == now
      ensures log == old(log) + [Proved(p, now)]
      ensures table == old(table) * expires.Keys + (if admitted then {p} else {})
    {
      hide Agrees, LastProofs;
      ghost var last, cached := LastProofs(log), expires.Keys;
      LastProofsAppend(log, p, now);
      assert |expires| <= MAX_PEERS by { CacheIsBounded(last, expires, clock); }
      if p !in expires && |expires| >= MAX_PEERS {
        var oldest := Oldest();
        RecordWithEviction(last, expires, clock, p, now, oldest);
        expires := expires - {oldest};
        table := table - {oldest};
        assert expires.Keys == cached - {oldest};
      } else {
        RecordWithRoom(last, expires, clock, p, now);
      }
      expires := expires[p := now + TTL];
      assert table == old(table) * expires.Keys;
      log, clock := log + [Proved(p, now)], now;
      if admitted { table := table + {p}; }
    }

    method Clear()
      requires Valid()
      modifies this
      ensures Valid() && clock == old(clock) && log == old(log) + [Cleared]
      ensures table == {} && LastProofs(log) == map[]
    {
      table := table - expires.Keys;
      expires := map[];
      log := log + [Cleared];
    }

    /** The routing table may only take a peer that is eligible now. */
    method GuardedAdd(p: Peer, now: real, admitted: bool) returns (r: bool)
      requires Valid() && clock <= now
      modifies this
      ensures Valid() && log == old(log) && clock == now
      ensures r <==> Eligible(LastProofs(log), p, now) && admitted
      ensures table == if r then old(table) + {p}
                       else if Eligible(LastProofs(log), p, now) then old(table) else old(table) - {p}
    {
      hide Agrees, Eligible, LastProofs;
      var eligible := IsEligible(p, now);
      if !eligible { return false; }
      if admitted { table := table + {p}; }
      r := admitted;
    }

    /** The first `count` eligible peers in the order of closeness the table gave. */
    method GuardedFind(closest: seq<Peer>, count: nat, ts: seq<real>) returns (r: seq<Peer>)
      requires Valid() && |ts| == |closest| && Increasing(ts) && (ts != [] ==> clock <= ts[0])
      modifies this
      ensures Valid() && log == old(log)
      ensures var all := EligibleAmong(LastProofs(log), closest, ts, |closest|);
              r == if count <= |all| then all[..count] else all
      ensures table == old(table) - IneligibleAmong(LastProofs(log), closest, ts, |closest|)
    {
      hide Agrees, Eligible, LastProofs;
      var eligible: seq<Peer> := [];
      for i := 0 to |closest|
        invariant Valid() && log == old(log)
        invariant i < |ts| ==> clock <= ts[i]
        invariant eligible == EligibleAmong(LastProofs(log), closest, ts, i)
        invariant table == old(table) - IneligibleAmong(LastProofs(log), closest, ts, i)
      {
        var ok := IsEligible(closest[i], ts[i]);
        if ok { eligible := eligible + [closest[i]]; }
      }
      r := if count <= |eligible| then eligible[..count] else eligible;
    }
  }
}
