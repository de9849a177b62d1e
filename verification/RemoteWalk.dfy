/**
 The backward walk that rebuilds an Identity history from remote peers.  Peers may answer
 anything; an expired deadline is an answer of None.
 */
module RemoteWalk {
  import opened Basics
  import opened Schema
  import opened Verification
  import opened Lineage
  import opened RecordValidator
  import opened Acceptance
  import opened DurableStore
  import opened DhtValues

  const MAX_ENTRIES := 256
  const MAX_BYTES := 4 * 1024 * 1024

  /** What one peer answers when asked, in the given round, for the envelope with this hash. */
  type Peer = (nat, Bytes) -> Option<Bytes>

  // ---------- asking the configured peers ----------

  /** The first answer that hashes to what was asked for. */
  function FirstMatching(w: Wire, peers: seq<Peer>, round: nat, hash: Bytes): Option<Bytes> {
    if peers == [] then None
    else
      match peers[0](round, hash)
      case Some(e) => if StateHash(w, e) == Some(hash) then Some(e) else FirstMatching(w, peers[1..], round, hash)
      case None => FirstMatching(w, peers[1..], round, hash)
  }

  method ReadByHash(w: Wire, peers: seq<Peer>, round: nat, hash: Bytes) returns (r: Option<Bytes>)
    ensures r == FirstMatching(w, peers, round, hash)
    ensures r.Some? ==> StateHash(w, r.value) == Some(hash)
  {
    for i := 0 to |peers|
      invariant FirstMatching(w, peers, round, hash) == FirstMatching(w, peers[i..], round, hash)
    {
      var answer := peers[i](round, hash);
      if answer.Some? && StateHash(w, answer.value) == Some(hash) { return answer; }
    }
    r := None;
  }

  // ---------- the walk ----------

  function TotalBytes(es: seq<Bytes>): nat {
    if es == [] then 0 else |es[0]| + TotalBytes(es[1..])
  }

  lemma {:induction false} TotalBytesAppend(es: seq<Bytes>, e: Bytes)
    ensures TotalBytes([e] + es) == |e| + TotalBytes(es)
    ensures TotalBytes(es + [e]) == TotalBytes(es) + |e|
  {
    assert ([e] + es)[1..] == es;
    if es == [] {
    } else {
      TotalBytesAppend(es[1..], e);
      assert (es + [e])[1..] == es[1..] + [e];
    }
  }

  /** `b` names the state hash of `a`. */
  predicate NamesState(w: Wire, a: Bytes, b: Bytes) {
    StateHash(w, a).Some? && PredecessorHash(w, b) == Some(StateHash(w, a))
  }

  ghost predicate HashLinked(w: Wire, chain: seq<Bytes>) {
    forall i :: 0 < i < |chain| ==> NamesState(w, chain[i - 1], chain[i])
  }

  ghost predicate DistinctStates(w: Wire, chain: seq<Bytes>) {
    forall i, j :: 0 <= i < j < |chain| ==> StateHash(w, chain[i]) != StateHash(w, chain[j])
  }

  ghost predicate WithinBounds(chain: seq<Bytes>) {
    |chain| <= MAX_ENTRIES && TotalBytes(chain) <= MAX_BYTES
  }

  /**
   The walk as a recursion: `chain` is what has been collected (oldest first), `e` the
   envelope to add in front of it.
   */
  function WalkFrom(w: Wire, peers: seq<Peer>, e: Bytes, chain: seq<Bytes>): Option<seq<Bytes>>
    decreases MAX_ENTRIES - |chain|
  {
    match (StateHash(w, e), PredecessorHash(w, e))
    case (Some(hash), Some(predecessor)) =>
      if exists i :: 0 <= i < |chain| && StateHash(w, chain[i]) == Some(hash) then None
      else if |chain| >= MAX_ENTRIES || TotalBytes(chain) + |e| > MAX_BYTES then None
      else if predecessor.None? then Some([e] + chain)
      else if |chain| + 1 >= MAX_ENTRIES then None
      else
        (match FirstMatching(w, peers, |chain|, predecessor.value)
         case None => None
         case Some(p) => WalkFrom(w, peers, p, [e] + chain))
    case _ => None
  }

  ghost predicate SeenStates(w: Wire, chain: seq<Bytes>, seen: set<Bytes>) {
    && (forall i :: 0 <= i < |chain| ==> StateHash(w, chain[i]).Some? && StateHash(w, chain[i]).value in seen)
    && (forall x :: x in seen ==> exists i :: 0 <= i < |chain| && StateHash(w, chain[i]) == Some(x))
  }

  lemma SeenGrows(w: Wire, chain: seq<Bytes>, seen: set<Bytes>, e: Bytes)
    requires SeenStates(w, chain, seen) && StateHash(w, e).Some?
    ensures SeenStates(w, [e] + chain, seen + {StateHash(w, e).value})
  {
    var next := [e] + chain;
    forall x | x in seen + {StateHash(w, e).value}
      ensures exists i :: 0 <= i < |next| && StateHash(w, next[i]) == Some(x)
    {
      if x in seen {
        var i :| 0 <= i < |chain| && StateHash(w, chain[i]) == Some(x);
        assert next[i + 1] == chain[i];
      } else {
        assert next[0] == e;
      }
    }
  }

  /** _read_remote_identity_predecessor_chain: at most 256 rounds, whatever the peers answer. */
  method ReadPredecessorChain(w: Wire, peers: seq<Peer>, head: Bytes) returns (r: Option<seq<Bytes>>, rounds: nat)
    ensures rounds <= MAX_ENTRIES
    ensures r == WalkFrom(w, peers, head, [])
  {
    hide StateHash, PredecessorHash, FirstMatching;
    var chain: seq<Bytes> := [];
    var seen: set<Bytes> := {};
    var total := 0;
    var e := head;
    rounds := 0;
    while true
      invariant rounds == |chain| < MAX_ENTRIES && total == TotalBytes(chain)
      invariant SeenStates(w, chain, seen)
      invariant WalkFrom(w, peers, head, []) == WalkFrom(w, peers, e, chain)
      decreases MAX_ENTRIES - |chain|
    {
      var hash, predecessor := StateHash(w, e), PredecessorHash(w, e);
      if hash.None? || predecessor.None? { return None, rounds; }
      if hash.value in seen { return None, rounds; }
      if total + |e| > MAX_BYTES { return None, rounds; }
      TotalBytesAppend(chain, e);
      SeenGrows(w, chain, seen, e);
      seen := seen + {hash.value};
      chain := [e] + chain;
      total := total + |e|;
      rounds := rounds + 1;
      if predecessor.value.None? { return Some(chain), rounds; }
      if |chain| >= MAX_ENTRIES { return None, rounds; }
      var p := ReadByHash(w, peers, |chain| - 1, predecessor.value.value);
      if p.None? { return None, rounds; }
      e := p.value;
    }
  }

  lemma {:induction false} MatchesHash(w: Wire, peers: seq<Peer>, round: nat, hash: Bytes)
    ensures var r := FirstMatching(w, peers, round, hash); r.Some? ==> StateHash(w, r.value) == Some(hash)
  {
    if peers == [] {
    } else {
      MatchesHash(w, peers[1..], round, hash);
    }
  }

  /** What holds of a partly collected chain and the envelope to put in front of it. */
  ghost predicate Partial(w: Wire, e: Bytes, chain: seq<Bytes>) {
    && HashLinked(w, chain) && DistinctStates(w, chain) && WithinBounds(chain)
    && (chain != [] ==> NamesState(w, e, chain[0]))
  }

  lemma PartialGrows(w: Wire, e: Bytes, chain: seq<Bytes>)
    requires Partial(w, e, chain)
    requires forall i :: 0 <= i < |chain| ==> StateHash(w, chain[i]) != StateHash(w, e)
    requires |chain| < MAX_ENTRIES && TotalBytes(chain) + |e| <= MAX_BYTES
    ensures HashLinked(w, [e] + chain) && DistinctStates(w, [e] + chain) && WithinBounds([e] + chain)
  {
    var next := [e] + chain;
    TotalBytesAppend(chain, e);
    forall i | 0 < i < |next| ensures NamesState(w, next[i - 1], next[i]) {
      if i > 1 { assert NamesState(w, chain[i - 2], chain[i - 1]); }
    }
  }

  lemma {:induction false} WalkFromSound(w: Wire, peers: seq<Peer>, e: Bytes, chain: seq<Bytes>)
    requires Partial(w, e, chain)
    requires WalkFrom(w, peers, e, chain).Some?
    ensures var r := WalkFrom(w, peers, e, chain).value;
            && |chain| < |r| && r[|r| - |chain|..] == chain && r[|r| - |chain| - 1] == e
            && PredecessorHash(w, r[0]) == Some(None)
            && HashLinked(w, r) && DistinctStates(w, r) && WithinBounds(r)
    decreases MAX_ENTRIES - |chain|
  {
    PartialGrows(w, e, chain);
    var predecessor := PredecessorHash(w, e).value;
    if predecessor.Some? {
      MatchesHash(w, peers, |chain|, predecessor.value);
      var p := FirstMatching(w, peers, |chain|, predecessor.value).value;
      WalkFromSound(w, peers, p, [e] + chain);
    }
  }

  /**
   Against any peers at all, a chain the walk returns ends at `head`, starts at an anchor, is
   hash-linked throughout, repeats no state and respects both bounds.
   */
  lemma WalkIsSound(w: Wire, peers: seq<Peer>, head: Bytes)
    requires WalkFrom(w, peers, head, []).Some?
    ensures var r := WalkFrom(w, peers, head, []).value;
            && r != [] && r[|r| - 1] == head && PredecessorHash(w, r[0]) == Some(None)
            && HashLinked(w, r) && DistinctStates(w, r) && WithinBounds(r)
  {
    WalkFromSound(w, peers, head, []);
  }

  // ---------- a responsive peer ----------

  /** The first envelope with this state hash. */
  function ServeByHash(w: Wire, h: seq<Bytes>, hash: Bytes): Option<Bytes> {
    if h == [] || StateHash(w, h[0]).None? then None
    else if StateHash(w, h[0]) == Some(hash) then Some(h[0])
    else ServeByHash(w, h[1..], hash)
  }

  /** _get_durable_identity_envelope_by_hash: only a head that still validates is served from. */
  function ServeDurable(w: Wire, k: Bytes, slot: Slot, hash: Bytes): Option<Bytes> {
    match slot.head
    case None => None
    case Some(head) =>
      var chain := HistoryEndingAt(slot.history, slot.head);
      if IdentityGet(w, k, head, chain).None? then None
      else ServeByHash(w, if chain.Some? then chain.value else [head], hash)
  }

  /** Peer p serves this history, and no peer asked before it ever answers with an envelope of the hash asked for. */
  ghost predicate Responsive(w: Wire, peers: seq<Peer>, p: nat, h: seq<Bytes>) {
    && p < |peers|
    && (forall round, hash :: peers[p](round, hash) == ServeByHash(w, h, hash))
    && forall q, round, hash :: 0 <= q < p ==> Unhelpful(w, peers[q](round, hash), hash)
  }

  predicate Unhelpful(w: Wire, answer: Option<Bytes>, hash: Bytes) {
    answer.Some? ==> StateHash(w, answer.value) != Some(hash)
  }

  /** Whatever earlier peers answer to other questions, the serving peer is reached. */
  lemma {:induction false} ReachesPeer(w: Wire, peers: seq<Peer>, p: nat, round: nat, hash: Bytes)
    requires p < |peers| && forall q :: 0 <= q < p ==> Unhelpful(w, peers[q](round, hash), hash)
    requires peers[p](round, hash).Some? && StateHash(w, peers[p](round, hash).value) == Some(hash)
    ensures FirstMatching(w, peers, round, hash) == peers[p](round, hash)
  {
    if p == 0 {
    } else {
      assert Unhelpful(w, peers[0](round, hash), hash);
      ReachesPeer(w, peers[1..], p - 1, round, hash);
    }
  }

  lemma {:induction false} ServeFinds(w: Wire, h: seq<Bytes>, i: nat)
    requires DistinctStates(w, h) && i < |h|
    requires forall j :: 0 <= j < |h| ==> StateHash(w, h[j]).Some?
    ensures ServeByHash(w, h, StateHash(w, h[i]).value) == Some(h[i])
  {
    if i == 0 {
    } else {
      ServeFinds(w, h[1..], i - 1);
    }
  }

  /** The links of an accepted history are exactly what the walk follows. */
  lemma AcceptedIsHashLinked(w: Wire, k: Bytes, h: seq<Bytes>)
    requires Sound(w) && ValidateHistory(w, k, h).Some?
    ensures HashLinked(w, h) && PredecessorHash(w, h[0]) == Some(None)
    ensures forall i :: 0 <= i < |h| ==> StateHash(w, h[i]).Some?
  {
    ReplayInvariant(w, k, h);
    AnchorOperation(w, k, h[0]);
    forall i | 0 < i < |h| ensures NamesState(w, h[i - 1], h[i]) && StateHash(w, h[i]).Some? {
      assert Linked(w, h[i - 1], h[i]);
    }
  }

  lemma {:induction false} TotalBytesSplit(h: seq<Bytes>, n: nat)
    requires n <= |h|
    ensures TotalBytes(h) == TotalBytes(h[..n]) + TotalBytes(h[n..])
  {
    if n > 0 {
      TotalBytesSplit(h[1..], n - 1);
      assert h[1..][..n - 1] == h[..n][1..] && h[1..][n - 1..] == h[n..];
    } else {
      assert h[0..] == h;
    }
  }

  /** From envelope n of an accepted history, with everything after it collected. */
  lemma {:induction false} WalkRebuilds(w: Wire, peers: seq<Peer>, p: nat, h: seq<Bytes>, n: nat)
    requires HashLinked(w, h) && DistinctStates(w, h) && Responsive(w, peers, p, h)
    requires n < |h| && PredecessorHash(w, h[0]) == Some(None)
    requires forall i :: 0 <= i < |h| ==> StateHash(w, h[i]).Some?
    requires |h| - n - 1 < MAX_ENTRIES && TotalBytes(h[n + 1..]) <= MAX_BYTES
    ensures WalkFrom(w, peers, h[n], h[n + 1..]) == if WithinBounds(h) then Some(h) else None
  {
    var chain := h[n + 1..];
    forall i | 0 <= i < |chain| ensures StateHash(w, chain[i]) != StateHash(w, h[n]) {
      assert chain[i] == h[n + 1 + i];
    }
    assert [h[n]] + chain == h[n..];
    TotalBytesAppend(chain, h[n]);
    TotalBytesSplit(h, n);
    if n == 0 {
      assert h[0..] == h;
      return;
    }
    assert NamesState(w, h[n - 1], h[n]);
    if |chain| + 1 < MAX_ENTRIES && TotalBytes(h[n..]) <= MAX_BYTES {
      ServeFinds(w, h, n - 1);
      ReachesPeer(w, peers, p, |chain|, StateHash(w, h[n - 1]).value);
      WalkRebuilds(w, peers, p, h, n - 1);
    }
  }

  /** A slot that holds this accepted history: stored, or a genesis that was cached without one. */
  predicate Holds(slot: Slot, h: seq<Bytes>) {
    h != [] && slot.head == Some(h[|h| - 1]) && (slot.history == Some(h) || (slot.history.None? && |h| == 1))
  }

  /** A replayable history is read back whole by whoever holds its head. */
  lemma StoredHistoryIsServed(w: Wire, k: Bytes, slot: Slot, h: seq<Bytes>, hash: Bytes)
    requires Sound(w) && ValidateHistory(w, k, h).Some? && Holds(slot, h)
    ensures ServeDurable(w, k, slot, hash) == ServeByHash(w, h, hash)
  {
    hide ServeByHash, IdentityGet, GoodHistory, ValidateHistory;
    HistoryExactly(w, k, h);
    GoodHistoryHead(w, k, h);
    IdentityReadExactly(w, k, h[|h| - 1], HistoryEndingAt(slot.history, slot.head));
    if slot.history.None? { assert h == [h[0]]; }
  }

  /** What a node serves hashes to what was asked for, and only while its head still validates. */
  lemma {:induction false} ServedIsFirst(w: Wire, h: seq<Bytes>, hash: Bytes)
    ensures var r := ServeByHash(w, h, hash); r.Some? ==> r.value in h && StateHash(w, r.value) == Some(hash)
  {
    if h == [] {
    } else {
      ServedIsFirst(w, h[1..], hash);
    }
  }

  lemma ServedIsAccepted(w: Wire, k: Bytes, slot: Slot, hash: Bytes)
    requires Sound(w) && ServeDurable(w, k, slot, hash).Some?
    ensures StateHash(w, ServeDurable(w, k, slot, hash).value) == Some(hash)
    ensures slot.head.Some? && Readable(w, k, slot.head.value, HistoryEndingAt(slot.history, slot.head))
    ensures var chain := HistoryEndingAt(slot.history, slot.head);
            ServeDurable(w, k, slot, hash).value in (if chain.Some? then chain.value else [slot.head.value])
  {
    hide IdentityGet, Readable;
    var chain := HistoryEndingAt(slot.history, slot.head);
    IdentityReadExactly(w, k, slot.head.value, chain);
    ServedIsFirst(w, if chain.Some? then chain.value else [slot.head.value], hash);
  }

  /**
   Against peers of which one, before any that would answer otherwise, durably holds the accepted
   history h, with no hash collision among its updates, the walk from its head returns exactly h,
   or fails when h exceeds a bound.
   */
  lemma WalkRebuildsHistory(w: Wire, k: Bytes, peers: seq<Peer>, p: nat, slot: Slot, h: seq<Bytes>)
    requires Sound(w) && ValidateHistory(w, k, h).Some? && DistinctStates(w, h) && Holds(slot, h)
    requires p < |peers| && forall round, hash :: peers[p](round, hash) == ServeDurable(w, k, slot, hash)
    requires forall q, round, hash :: 0 <= q < p ==> Unhelpful(w, peers[q](round, hash), hash)
    ensures WalkFrom(w, peers, h[|h| - 1], []) == if WithinBounds(h) then Some(h) else None
  {
    forall round, hash ensures peers[p](round, hash) == ServeByHash(w, h, hash) {
      StoredHistoryIsServed(w, k, slot, h, hash);
    }
    AcceptedIsHashLinked(w, k, h);
    assert h[|h|..] == [];
    WalkRebuilds(w, peers, p, h, |h| - 1);
  }

  /** Distinct states is only collision-freeness: accepted updates are pairwise different bytes. */
  lemma UpdatesAreDistinct(w: Wire, k: Bytes, h: seq<Bytes>, i: nat, j: nat)
    requires Sound(w) && ValidateHistory(w, k, h).Some? && i < j < |h|
    ensures UpdateAt(w, h[i]) != UpdateAt(w, h[j])
  {
    SeqIncreases(w, k, h, i, j);
    StatesAreTwoOfThree(w, k, h, i);
    StatesAreTwoOfThree(w, k, h, j);
  }
}
