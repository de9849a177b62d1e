/**
 Theorems about accepted Identity histories: every step is authorised by the state before it,
 replaying and extending agree, and two accepted histories never fork.
 */
module Lineage {
  import opened Basics
  import opened Cbor
  import opened Schema
  import opened Verification

  // ---------- signatures and quorums ----------

  ghost predicate SignedBy(w: Wire, key: Bytes, update: Bytes) {
    exists signature :: Verifies(w, key, update, signature)
  }

  ghost function MemberKeys(signers: seq<Signer>): set<Bytes> {
    set i | 0 <= i < |signers| :: signers[i].key
  }

  /** The distinct member keys that sign these bytes. */
  ghost function SigningKeys(w: Wire, signers: seq<Signer>, update: Bytes): set<Bytes> {
    set key | key in MemberKeys(signers) && SignedBy(w, key, update)
  }

  lemma {:induction false} KeyOfIsMember(signers: seq<Signer>, id: Option<Bytes>) returns (i: nat)
    requires KeyOf(signers, id).Some?
    ensures i < |signers| && id == Some(signers[i].id) && KeyOf(signers, id) == Some(signers[i].key)
  {
    var n := |signers| - 1;
    if id == Some(signers[n].id) {
      i := n;
    } else {
      i := KeyOfIsMember(signers[..n], id);
    }
  }

  ghost function ProofKeys(proofs: seq<Proof>, signers: seq<Signer>): set<Bytes>
    requires forall i :: 0 <= i < |proofs| ==> KeyOf(signers, proofs[i].id).Some?
  {
    set i | 0 <= i < |proofs| :: KeyOf(signers, proofs[i].id).value
  }

  lemma {:induction false} DistinctProofsDistinctKeys(proofs: seq<Proof>, signers: seq<Signer>)
    requires DistinctSigners(signers) && DistinctProofs(proofs)
    requires forall i :: 0 <= i < |proofs| ==> KeyOf(signers, proofs[i].id).Some?
    ensures |ProofKeys(proofs, signers)| == |proofs|
  {
    if proofs == [] {
    } else {
      var n := |proofs| - 1;
      var last := KeyOf(signers, proofs[n].id).value;
      DistinctProofsDistinctKeys(proofs[..n], signers);
      assert ProofKeys(proofs, signers) == ProofKeys(proofs[..n], signers) + {last};
      forall i | 0 <= i < n ensures KeyOf(signers, proofs[i].id).value != last {
        var a := KeyOfIsMember(signers, proofs[i].id);
        var b := KeyOfIsMember(signers, proofs[n].id);
        assert a != b;
      }
    }
  }

  /** Valid threshold proofs come from at least `threshold` distinct public keys of the set. */
  lemma ThresholdProofsAreAQuorum(
    w: Wire, update: Bytes, proofs: seq<Proof>, signers: seq<Signer>, threshold: nat)
    requires DistinctSigners(signers) && ThresholdProofs(w, update, proofs, signers, threshold)
    ensures |SigningKeys(w, signers, update)| >= threshold
  {
    assert forall i :: 0 <= i < |proofs| ==> ProofHolds(w, update, proofs[i], signers);
    DistinctProofsDistinctKeys(proofs, signers);
    forall i | 0 <= i < |proofs| ensures KeyOf(signers, proofs[i].id).value in SigningKeys(w, signers, update) {
      var m := KeyOfIsMember(signers, proofs[i].id);
      assert Verifies(w, signers[m].key, update, proofs[i].signature);
    }
    SubsetSize(ProofKeys(proofs, signers), SigningKeys(w, signers, update));
  }

  lemma {:induction false} MemberHasKey(signers: seq<Signer>, i: nat)
    requires DistinctSigners(signers) && i < |signers|
    ensures KeyOf(signers, Some(signers[i].id)) == Some(signers[i].key)
  {
    var n := |signers| - 1;
    if i == n {
    } else {
      MemberHasKey(signers[..n], i);
    }
  }

  /** The proof carries the identifier of some member, and that member's signature. */
  ghost predicate MemberSigns(w: Wire, update: Bytes, p: Proof, signers: seq<Signer>) {
    exists m :: 0 <= m < |signers| && p.id == Some(signers[m].id)
                && w.ed25519(signers[m].key, w.sha256(update), p.signature)
  }

  /** Threshold proofs hold exactly when there are enough, under distinct identifiers, each a member's signature. */
  lemma ThresholdExactly(w: Wire, update: Bytes, proofs: seq<Proof>, signers: seq<Signer>, threshold: nat)
    requires DistinctSigners(signers)
    ensures ThresholdProofs(w, update, proofs, signers, threshold) <==>
              && |proofs| >= threshold
              && (forall i, j :: 0 <= i < j < |proofs| ==> proofs[i].id != proofs[j].id)
              && forall i :: 0 <= i < |proofs| ==> MemberSigns(w, update, proofs[i], signers)
  {
    forall i | 0 <= i < |proofs|
      ensures ProofHolds(w, update, proofs[i], signers) <==> MemberSigns(w, update, proofs[i], signers)
    {
      if ProofHolds(w, update, proofs[i], signers) {
        var m := KeyOfIsMember(signers, proofs[i].id);
      }
      if MemberSigns(w, update, proofs[i], signers) {
        var m: nat :| m < |signers| && proofs[i].id == Some(signers[m].id)
                      && w.ed25519(signers[m].key, w.sha256(update), proofs[i].signature);
        MemberHasKey(signers, m);
      }
    }
  }

  lemma {:induction false} MemberKeyCount(signers: seq<Signer>)
    ensures |MemberKeys(signers)| <= |signers|
  {
    if signers == [] {
    } else {
      var n := |signers| - 1;
      MemberKeyCount(signers[..n]);
      assert MemberKeys(signers) == MemberKeys(signers[..n]) + {signers[n].key};
    }
  }

  /** Two majorities of one Signer Set share a key. */
  lemma QuorumsIntersect(w: Wire, signers: seq<Signer>, u: Bytes, v: Bytes) returns (key: Bytes)
    requires |SigningKeys(w, signers, u)| + |SigningKeys(w, signers, v)| > |signers|
    ensures key in MemberKeys(signers) && SignedBy(w, key, u) && SignedBy(w, key, v)
  {
    var a, b := SigningKeys(w, signers, u), SigningKeys(w, signers, v);
    MemberKeyCount(signers);
    SubsetSize(a + b, MemberKeys(signers));
    assert |a + b| + |a * b| == |a| + |b|;
    assert a * b != {};
    key :| key in a * b;
  }

  // ---------- what one accepted step establishes ----------

  function BodyOf(w: Wire, e: Bytes): Option<SignedUpdate> {
    match w.looseUpdate(e) case None => None case Some(u) => w.signedUpdate(u)
  }

  function UpdateAt(w: Wire, e: Bytes): Bytes {
    match w.looseUpdate(e) case Some(u) => u case None => []
  }

  function OwnerKey(u: SignedUpdate): Option<Bytes> {
    BytesOf(Lookup(u.fields, 2))
  }

  function OwnerName(u: SignedUpdate): Option<Bytes> {
    BytesOf(Lookup(u.fields, 1))
  }

  /** The record belongs under this lookup key: the digest of its owner name. */
  predicate BoundTo(w: Wire, k: Bytes, u: SignedUpdate) {
    OwnerName(u).Some? && w.sha256(OwnerName(u).value) == k
  }

  ghost predicate TwoOfThree(a: Authorization) {
    a.threshold == 2 && |a.signers| == 3 && DistinctSigners(a.signers)
  }

  /** How an accepted envelope `b` extends the accepted envelope `a` before it. */
  ghost predicate Linked(w: Wire, a: Bytes, b: Bytes) {
    && BodyOf(w, a).Some? && BodyOf(w, b).Some? && BodyOf(w, b).value.auth.Some?
    && var x, y, update := BodyOf(w, a).value, BodyOf(w, b).value, w.looseUpdate(b).value;
       var next := y.auth.value;
       && next.kind == IDENTITY && TwoOfThree(next)
       && next.predecessor == w.sha256(w.looseUpdate(a).value)
       && y.seqNo > x.seqNo
       && (next.operation == OWNER_KEY_ROTATION ==> y.seqNo == x.seqNo + 1 && OwnerName(y) == OwnerName(x))
       && (OwnerKey(x) != OwnerKey(y) <==> next.operation == OWNER_KEY_ROTATION)
       && OwnerKey(x).Some? && OwnerKey(y).Some?
       && match x.auth
          case None =>
            && next.operation in {UPGRADE, OWNER_KEY_ROTATION}
            && next.epoch == 1
            && SignedBy(w, OwnerKey(x).value, update)
            && OwnerKey(y).value in MemberKeys(next.signers)
          case Some(prev) =>
            && next.operation in {ORDINARY_UPDATE, REPLACE_SIGNERS, OWNER_KEY_ROTATION}
            && next.epoch >= prev.epoch
            && (next.epoch > prev.epoch <==> next.operation == REPLACE_SIGNERS)
            && (next.signers != prev.signers <==> next.operation == REPLACE_SIGNERS)
            && |SigningKeys(w, prev.signers, update)| >= 2
  }

  /** A valid genesis, or a legacy Identity with fields exactly {1,2} and an empty payload. */
  ghost predicate WellShapedAnchor(w: Wire, k: Bytes, e: Bytes) {
    || (ValidateGenesis(w, k, e).Some? && ValidateGenesis(w, k, e).value.kind == IDENTITY)
    || (DecodeLegacyState(w, k, e).Some? && PlainIdentity(DecodeLegacyState(w, k, e).value))
  }

  /** The state named by one SignedUpdate; only `history` is not a function of its bytes. */
  ghost predicate StateOf(w: Wire, k: Bytes, s: State, e: Bytes) {
    && w.looseUpdate(e) == Some(s.update) && w.multisignature(e).Some?
    && BodyOf(w, e).Some? && BodyOf(w, e).value.auth.Some?
    && var u := BodyOf(w, e).value;
       var a := u.auth.value;
       && a.kind == IDENTITY && TwoOfThree(a) && OwnerKey(u).Some? && BoundTo(w, k, u)
       && s == State(k, IDENTITY, OwnerKey(u).value, s.update, w.sha256(s.update),
                     a.epoch, u.seqNo, a.threshold, a.signers, s.history)
  }

  lemma CandidateDecodes(w: Wire, e: Bytes, c: Candidate)
    requires Sound(w) && DecodeCandidate(w, e) == Some(c)
    ensures w.looseUpdate(e) == Some(c.update) && BodyOf(w, e) == Some(c.body)
    ensures w.signedUpdate(c.update) == Some(c.body) && c.body.auth == Some(c.auth)
    ensures WellFormedAuthorization(c.auth) && KindBinding(w.providerPayload, c.body, c.auth.kind)
  {
  }

  lemma CandidateIsState(w: Wire, k: Bytes, e: Bytes, c: Candidate, history: Option<seq<Bytes>>)
    requires Sound(w) && DecodeCandidate(w, e) == Some(c)
    requires c.auth.kind == IDENTITY && c.auth.threshold == 2 && |c.auth.signers| == 3 && c.recordKey == k
    ensures StateOf(w, k, CandidateState(w, k, c, history), e)
    ensures CandidateState(w, k, c, history).history == history
  {
    CandidateDecodes(w, e, c);
  }

  lemma LegacyDecodes(w: Wire, k: Bytes, e: Bytes, l: Legacy)
    requires Sound(w) && DecodeLegacyState(w, k, e) == Some(l)
    ensures w.multisignature(e).None?
    ensures w.looseUpdate(e) == Some(l.update) && BodyOf(w, e).Some?
    ensures var u := BodyOf(w, e).value; u.auth.None? && u.fields == l.fields && u.seqNo == l.seqNo
    ensures l.kind == IDENTITY ==> OwnerKey(BodyOf(w, e).value) == Some(l.owner) && BoundTo(w, k, BodyOf(w, e).value)
  {
    assert w.multisignature(e).Some? ==> w.isMultisignature(e);
  }

  lemma AnchorStep(w: Wire, k: Bytes, anchor: Bytes, e: Bytes, t: State)
    requires Sound(w)
    requires DecodeLegacyState(w, k, anchor).Some? && PlainIdentity(DecodeLegacyState(w, k, anchor).value)
    requires ReplayStep(w, k, Anchor(anchor), e) == Some(t)
    ensures StateOf(w, k, t, e) && t.history == Some([anchor, e])
    ensures Linked(w, anchor, e)
  {
    var c, l := DecodeCandidate(w, e).value, DecodeLegacyState(w, k, anchor).value;
    CandidateIsState(w, k, e, c, Some([anchor, e]));
    LegacyDecodes(w, k, anchor, l);
    assert Verifies(w, l.owner, c.update, c.proofs[0].signature);
    if c.auth.operation == UPGRADE { OwnerIsMember(c.auth.signers, l.owner); }
  }

  lemma {:induction false} OwnerIsMember(signers: seq<Signer>, key: Bytes)
    requires IdsOfKey(signers, key) != []
    ensures key in MemberKeys(signers)
  {
    if signers[0].key != key {
      OwnerIsMember(signers[1..], key);
      var i :| 0 <= i < |signers[1..]| && signers[1..][i].key == key;
      assert signers[i + 1].key == key;
    }
  }

  lemma StateStep(w: Wire, k: Bytes, s: State, last: Bytes, e: Bytes, t: State)
    requires Sound(w) && StateOf(w, k, s, last) && s.history.Some?
    requires ReplayStep(w, k, At(s), e) == Some(t)
    ensures StateOf(w, k, t, e) && t.history == Some(s.history.value + [e])
    ensures Linked(w, last, e)
  {
    var c := DecodeCandidate(w, e).value;
    CandidateDecodes(w, e, c);
    ThresholdProofsAreAQuorum(w, c.update, c.proofs, s.signers, s.threshold);
    CandidateIsState(w, k, e, c, AppendHistory(s, e));
  }

  lemma {:induction false} OnlyIdOfKey(signers: seq<Signer>, i: nat)
    requires DistinctSigners(signers) && i < |signers|
    ensures IdsOfKey(signers, signers[i].key) == [signers[i].id]
  {
    if i == 0 {
      NoIdOfKey(signers[1..], signers[0].key);
    } else {
      assert signers[0].key != signers[i].key;
      OnlyIdOfKey(signers[1..], i - 1);
    }
  }

  lemma {:induction false} NoIdOfKey(signers: seq<Signer>, key: Bytes)
    requires forall i :: 0 <= i < |signers| ==> signers[i].key != key
    ensures IdsOfKey(signers, key) == []
  {
    if signers == [] {
    } else {
      NoIdOfKey(signers[1..], key);
    }
  }

  /** The history a state carries starts at a legacy anchor, the only kind that allows rotations. */
  predicate FromLegacy(w: Wire, s: State) {
    s.history.Some? && (s.history.value == [] || w.multisignature(s.history.value[0]).None?)
  }

  /**
   Which envelopes extend an Identity state: those bound to the lookup key and linked to the
   state's envelope whose proofs are valid, from distinct members of its set, and enough.
   */
  lemma StateStepExactly(w: Wire, k: Bytes, s: State, last: Bytes, e: Bytes)
    requires Sound(w) && StateOf(w, k, s, last) && s.history.Some?
    ensures ReplayStep(w, k, At(s), e).Some? <==>
              match DecodeCandidate(w, e)
              case None => false
              case Some(c) =>
                && BoundTo(w, k, c.body) && Linked(w, last, e)
                && ThresholdProofs(w, c.update, c.proofs, s.signers, s.threshold)
                && (c.auth.operation == OWNER_KEY_ROTATION ==> FromLegacy(w, s))
  {
    if ReplayStep(w, k, At(s), e).Some? {
      StateStep(w, k, s, last, e, ReplayStep(w, k, At(s), e).value);
    }
    if DecodeCandidate(w, e).Some? {
      CandidateDecodes(w, e, DecodeCandidate(w, e).value);
    }
  }

  /** Exactly one proof by the anchor's owner: under its identifier in the new set, or null for a rotation. */
  predicate OwnerProof(w: Wire, c: Candidate, owner: Bytes) {
    && |c.proofs| == 1
    && c.proofs[0].id == (if c.auth.operation == UPGRADE then SignerIdForKey(c.auth.signers, owner) else None)
    && Verifies(w, owner, c.update, c.proofs[0].signature)
  }

  /** What an envelope that extends a plain legacy anchor must be. */
  ghost predicate ExtendsAnchor(w: Wire, k: Bytes, anchor: Bytes, e: Bytes, owner: Bytes) {
    match DecodeCandidate(w, e)
    case None => false
    case Some(c) => BoundTo(w, k, c.body) && Linked(w, anchor, e) && OwnerProof(w, c, owner)
  }

  lemma AnchorStepNeeds(w: Wire, k: Bytes, anchor: Bytes, e: Bytes)
    requires Sound(w)
    requires DecodeLegacyState(w, k, anchor).Some? && PlainIdentity(DecodeLegacyState(w, k, anchor).value)
    requires ReplayStep(w, k, Anchor(anchor), e).Some?
    ensures ExtendsAnchor(w, k, anchor, e, DecodeLegacyState(w, k, anchor).value.owner)
  {
    AnchorStep(w, k, anchor, e, ReplayStep(w, k, Anchor(anchor), e).value);
    hide Linked;
    CandidateDecodes(w, e, DecodeCandidate(w, e).value);
  }

  lemma AnchorStepSuffices(w: Wire, k: Bytes, anchor: Bytes, e: Bytes)
    requires Sound(w)
    requires DecodeLegacyState(w, k, anchor).Some? && PlainIdentity(DecodeLegacyState(w, k, anchor).value)
    requires ExtendsAnchor(w, k, anchor, e, DecodeLegacyState(w, k, anchor).value.owner)
    ensures ReplayStep(w, k, Anchor(anchor), e).Some?
  {
    var l, c := DecodeLegacyState(w, k, anchor).value, DecodeCandidate(w, e).value;
    LegacyDecodes(w, k, anchor, l);
    CandidateDecodes(w, e, c);
    hide DecodeLegacyState, DecodeCandidate, BodyOf;
    if c.auth.operation == UPGRADE {
      var i :| 0 <= i < |c.auth.signers| && c.auth.signers[i].key == l.owner;
      OnlyIdOfKey(c.auth.signers, i);
    }
  }

  /** Which envelopes extend a plain legacy anchor. */
  lemma AnchorStepExactly(w: Wire, k: Bytes, anchor: Bytes, e: Bytes)
    requires Sound(w)
    requires DecodeLegacyState(w, k, anchor).Some? && PlainIdentity(DecodeLegacyState(w, k, anchor).value)
    ensures ReplayStep(w, k, Anchor(anchor), e).Some? <==>
              ExtendsAnchor(w, k, anchor, e, DecodeLegacyState(w, k, anchor).value.owner)
  {
    hide ReplayStep, ExtendsAnchor;
    if ReplayStep(w, k, Anchor(anchor), e).Some? {
      AnchorStepNeeds(w, k, anchor, e);
    } else if ExtendsAnchor(w, k, anchor, e, DecodeLegacyState(w, k, anchor).value.owner) {
      AnchorStepSuffices(w, k, anchor, e);
    }
  }

  // ---------- whole histories ----------

  ghost predicate LinkedHistory(w: Wire, h: seq<Bytes>) {
    forall i :: 0 < i < |h| ==> Linked(w, h[i - 1], h[i])
  }

  /** A replay always leaves the final `history != normalized` check satisfied. */
  lemma StartInvariant(w: Wire, k: Bytes, e: Bytes)
    requires Sound(w) && StartReplay(w, k, e).Some?
    ensures WellShapedAnchor(w, k, e)
    ensures match StartReplay(w, k, e).value
            case Anchor(a) =>
              && a == e && w.multisignature(a).None? && DecodeLegacyState(w, k, a).Some?
              && PlainIdentity(DecodeLegacyState(w, k, a).value)
            case At(s) => StateOf(w, k, s, e) && s.history == Some([e])
  {
    if w.multisignature(e).Some? {
      CandidateIsState(w, k, e, DecodeCandidate(w, e).value, Some([e]));
    }
  }

  lemma {:induction false} ReplayInvariant(w: Wire, k: Bytes, h: seq<Bytes>)
    requires Sound(w) && Replay(w, k, h).Some?
    ensures WellShapedAnchor(w, k, h[0]) && LinkedHistory(w, h)
    ensures match Replay(w, k, h).value
            case Anchor(a) =>
              && h == [a] && w.multisignature(a).None? && DecodeLegacyState(w, k, a).Some?
              && PlainIdentity(DecodeLegacyState(w, k, a).value)
            case At(s) => StateOf(w, k, s, h[|h| - 1]) && s.history == Some(h)
  {
    hide StartReplay, ReplayStep, Linked, WellShapedAnchor, StateOf, DecodeLegacyState;
    if |h| == 1 {
      assert h == [h[0]];
      StartInvariant(w, k, h[0]);
    } else {
      var n := |h| - 1;
      var prefix := h[..n];
      ReplayInvariant(w, k, prefix);
      assert h == prefix + [h[n]];
      var t := Replay(w, k, h).value.state;
      match Replay(w, k, prefix).value {
        case Anchor(a) =>
          AnchorStep(w, k, a, h[n], t);
          assert [a] + [h[n]] == [a, h[n]];
        case At(s) => StateStep(w, k, s, h[n - 1], h[n], t);
      }
    }
  }

  lemma AcceptedHistory(w: Wire, k: Bytes, h: seq<Bytes>, s: State)
    requires Sound(w) && ValidateHistory(w, k, h) == Some(s)
    ensures h != [] && WellShapedAnchor(w, k, h[0]) && LinkedHistory(w, h)
    ensures StateOf(w, k, s, h[|h| - 1]) && s.history == Some(h)
  {
    ReplayInvariant(w, k, h);
  }

  /** The first envelope of an accepted history decodes, and a genesis installs a 2-of-3 set. */
  lemma AnchorDecodes(w: Wire, k: Bytes, e: Bytes)
    requires Sound(w) && WellShapedAnchor(w, k, e)
    ensures BodyOf(w, e).Some?
    ensures var a := BodyOf(w, e).value.auth; a.Some? ==> TwoOfThree(a.value) && a.value.epoch == 1
  {
    if ValidateGenesis(w, k, e).Some? {
      CandidateDecodes(w, e, DecodeCandidate(w, e).value);
    } else {
      LegacyDecodes(w, k, e, DecodeLegacyState(w, k, e).value);
    }
  }

  lemma StatesAreTwoOfThree(w: Wire, k: Bytes, h: seq<Bytes>, i: nat)
    requires Sound(w) && ValidateHistory(w, k, h).Some? && i < |h|
    ensures BodyOf(w, h[i]).Some?
    ensures i > 0 ==> BodyOf(w, h[i]).value.auth.Some?
    ensures var a := BodyOf(w, h[i]).value.auth; a.Some? ==> TwoOfThree(a.value)
  {
    ReplayInvariant(w, k, h);
    if i == 0 { AnchorDecodes(w, k, h[0]); } else { assert Linked(w, h[i - 1], h[i]); }
  }

  lemma TwoMembers<T>(s: set<T>) returns (p: T, q: T)
    requires |s| >= 2
    ensures p in s && q in s && p != q
  {
    p :| p in s;
    assert |s - {p}| >= 1;
    q :| q in s - {p};
  }

  /**
   Quorum lineage: each state is 2-of-3, and every step after the first multisignature state is
   signed by two distinct keys of the Signer Set in force before it.
   */
  lemma QuorumLineage(w: Wire, k: Bytes, h: seq<Bytes>, i: nat)
    requires Sound(w) && ValidateHistory(w, k, h).Some? && 0 < i < |h|
    ensures BodyOf(w, h[i]).Some? && BodyOf(w, h[i]).value.auth.Some?
    ensures TwoOfThree(BodyOf(w, h[i]).value.auth.value)
    ensures BodyOf(w, h[i - 1]).Some?
    ensures var before := BodyOf(w, h[i - 1]).value.auth;
            before.Some? ==> exists p, q ::
              && p != q && p in MemberKeys(before.value.signers) && q in MemberKeys(before.value.signers)
              && SignedBy(w, p, UpdateAt(w, h[i])) && SignedBy(w, q, UpdateAt(w, h[i]))
  {
    StatesAreTwoOfThree(w, k, h, i);
    ReplayInvariant(w, k, h);
    assert Linked(w, h[i - 1], h[i]);
    var before := BodyOf(w, h[i - 1]).value.auth;
    if before.Some? {
      var p, q := TwoMembers(SigningKeys(w, before.value.signers, UpdateAt(w, h[i])));
    }
  }

  function SeqAt(w: Wire, e: Bytes): nat {
    match BodyOf(w, e) case Some(u) => u.seqNo case None => 0
  }

  function EpochAt(w: Wire, e: Bytes): nat {
    match BodyOf(w, e)
    case Some(u) => (match u.auth case Some(a) => a.epoch case None => 0)
    case None => 0
  }

  function OwnerAt(w: Wire, e: Bytes): Option<Bytes> {
    match BodyOf(w, e) case Some(u) => OwnerKey(u) case None => None
  }

  function NameAt(w: Wire, e: Bytes): Option<Bytes> {
    match BodyOf(w, e) case Some(u) => OwnerName(u) case None => None
  }

  function OperationAt(w: Wire, e: Bytes): nat {
    match BodyOf(w, e)
    case Some(u) => (match u.auth case Some(a) => a.operation case None => 0)
    case None => 0
  }

  /** Along linked envelopes seq strictly increases and epochs never fall. */
  lemma {:induction false} LinkedMonotone(w: Wire, h: seq<Bytes>, i: nat, j: nat)
    requires LinkedHistory(w, h) && i < j < |h|
    ensures SeqAt(w, h[i]) < SeqAt(w, h[j]) && EpochAt(w, h[i]) <= EpochAt(w, h[j])
    decreases j
  {
    assert Linked(w, h[j - 1], h[j]);
    if i == j - 1 {
    } else {
      LinkedMonotone(w, h, i, j - 1);
    }
  }

  /** Sequence numbers strictly increase along an accepted history, and epochs never fall. */
  lemma SeqIncreases(w: Wire, k: Bytes, h: seq<Bytes>, i: nat, j: nat)
    requires Sound(w) && ValidateHistory(w, k, h).Some? && i < j < |h|
    ensures SeqAt(w, h[i]) < SeqAt(w, h[j]) && EpochAt(w, h[i]) <= EpochAt(w, h[j])
  {
    ReplayInvariant(w, k, h);
    LinkedMonotone(w, h, i, j);
  }

  /**
   What one step of an accepted history changes: a rotation alone changes the owner key, keeps the
   name and advances seq by one; a signer replacement alone raises the epoch, which starts at 1.
   */
  lemma StepArithmetic(w: Wire, k: Bytes, h: seq<Bytes>, i: nat)
    requires Sound(w) && ValidateHistory(w, k, h).Some? && 0 < i < |h|
    ensures OperationAt(w, h[i]) == OWNER_KEY_ROTATION ==>
              SeqAt(w, h[i]) == SeqAt(w, h[i - 1]) + 1 && NameAt(w, h[i]) == NameAt(w, h[i - 1])
    ensures OwnerAt(w, h[i - 1]) != OwnerAt(w, h[i]) <==> OperationAt(w, h[i]) == OWNER_KEY_ROTATION
    ensures OperationAt(w, h[i - 1]) == 0 ==> EpochAt(w, h[i]) == 1
    ensures OperationAt(w, h[i - 1]) != 0 ==>
              (EpochAt(w, h[i]) > EpochAt(w, h[i - 1]) <==> OperationAt(w, h[i]) == REPLACE_SIGNERS)
  {
    ReplayInvariant(w, k, h);
    assert Linked(w, h[i - 1], h[i]);
    StatesAreTwoOfThree(w, k, h, i - 1);
    if i == 1 { AnchorOperation(w, k, h[0]); } else { assert Linked(w, h[i - 2], h[i - 1]); }
  }

  /** The step off a legacy anchor is signed by its owner key, and puts the new owner in the new set. */
  lemma LegacyStepIsAuthorized(w: Wire, k: Bytes, h: seq<Bytes>)
    requires Sound(w) && ValidateHistory(w, k, h).Some? && |h| > 1 && w.multisignature(h[0]).None?
    ensures OperationAt(w, h[1]) == UPGRADE || OperationAt(w, h[1]) == OWNER_KEY_ROTATION
    ensures OwnerAt(w, h[0]).Some? && SignedBy(w, OwnerAt(w, h[0]).value, UpdateAt(w, h[1]))
    ensures BodyOf(w, h[1]).Some? && BodyOf(w, h[1]).value.auth.Some? && OwnerAt(w, h[1]).Some?
    ensures OwnerAt(w, h[1]).value in MemberKeys(BodyOf(w, h[1]).value.auth.value.signers)
  {
    ReplayInvariant(w, k, h);
    AnchorOperation(w, k, h[0]);
    assert Linked(w, h[0], h[1]);
  }

  lemma AnchorOperation(w: Wire, k: Bytes, e: Bytes)
    requires Sound(w) && WellShapedAnchor(w, k, e)
    ensures OperationAt(w, e) == if w.multisignature(e).Some? then GENESIS else 0
    ensures w.multisignature(e).Some? ==> EpochAt(w, e) == 1
    ensures BodyOf(w, e).Some? && (BodyOf(w, e).value.auth.Some? <==> w.multisignature(e).Some?)
  {
    if ValidateGenesis(w, k, e).Some? {
      CandidateDecodes(w, e, DecodeCandidate(w, e).value);
    } else {
      LegacyDecodes(w, k, e, DecodeLegacyState(w, k, e).value);
    }
  }

  /** A history anchored at a genesis starts in epoch 1, from the zero predecessor, signed by its own quorum. */
  lemma GenesisEpoch(w: Wire, k: Bytes, h: seq<Bytes>)
    requires Sound(w) && ValidateHistory(w, k, h).Some?
    ensures h != [] && (w.multisignature(h[0]).Some? ==> EpochAt(w, h[0]) == 1)
    ensures w.multisignature(h[0]).Some? ==>
              && BodyOf(w, h[0]).Some? && BodyOf(w, h[0]).value.auth.Some?
              && var a := BodyOf(w, h[0]).value.auth.value;
                 a.predecessor == ZeroHash() && |SigningKeys(w, a.signers, UpdateAt(w, h[0]))| >= 2
  {
    ReplayInvariant(w, k, h);
    AnchorOperation(w, k, h[0]);
    if w.multisignature(h[0]).Some? {
      MultisignatureAnchor(w, k, h[0]);
      GenesisSigners(w, k, h[0]);
    }
  }

  lemma MultisignatureAnchor(w: Wire, k: Bytes, e: Bytes)
    requires Sound(w) && WellShapedAnchor(w, k, e) && w.multisignature(e).Some?
    ensures ValidateGenesis(w, k, e).Some?
  {
    assert w.isMultisignature(e) && w.legacy(e).None?;
  }

  lemma GenesisSigners(w: Wire, k: Bytes, e: Bytes)
    requires Sound(w) && ValidateGenesis(w, k, e).Some?
    ensures BodyOf(w, e).Some? && BodyOf(w, e).value.auth.Some?
    ensures var a := BodyOf(w, e).value.auth.value;
            a.predecessor == ZeroHash() && |SigningKeys(w, a.signers, UpdateAt(w, e))| >= 2
  {
    var c := DecodeCandidate(w, e).value;
    CandidateDecodes(w, e, c);
    ThresholdProofsAreAQuorum(w, c.update, c.proofs, c.auth.signers, c.auth.threshold);
  }

  /** Every update of an accepted history names an owner whose digest is the lookup key. */
  lemma KeyIsBound(w: Wire, k: Bytes, h: seq<Bytes>, i: nat)
    requires Sound(w) && ValidateHistory(w, k, h).Some? && i < |h|
    ensures BodyOf(w, h[i]).Some? && BoundTo(w, k, BodyOf(w, h[i]).value)
  {
    hide BoundTo, DecodeLegacyState, WellShapedAnchor, Linked;
    var prefix := h[..i + 1];
    if Replay(w, k, prefix).None? { FailedReplayStaysFailed(w, k, h, i + 1); }
    ReplayInvariant(w, k, prefix);
    assert prefix[i] == h[i];
    if Replay(w, k, prefix).value.Anchor? {
      LegacyDecodes(w, k, h[i], DecodeLegacyState(w, k, h[i]).value);
    }
  }

  /** Rotation is refused on every state whose history starts at a genesis. */
  lemma LastStepIsNoRotation(w: Wire, k: Bytes, h: seq<Bytes>)
    requires Sound(w) && |h| > 1 && Replay(w, k, h).Some? && w.multisignature(h[0]).Some?
    ensures OperationAt(w, h[|h| - 1]) != OWNER_KEY_ROTATION
  {
    var n := |h| - 1;
    ReplayInvariant(w, k, h[..n]);
    var cur := Replay(w, k, h[..n]).value;
    assert cur.At? && h[..n][0] == h[0];
    assert ReplayStep(w, k, cur, h[n]).Some? && ValidateRotationFromState(w, k, h[n], cur.state, false).None?;
    CandidateDecodes(w, h[n], DecodeCandidate(w, h[n]).value);
  }

  /** A lineage that starts at a genesis keeps one owner key for good. */
  lemma {:induction false} GenesisOwnerIsFixed(w: Wire, k: Bytes, h: seq<Bytes>, i: nat)
    requires Sound(w) && Replay(w, k, h).Some? && w.multisignature(h[0]).Some? && i < |h|
    ensures OwnerAt(w, h[i]) == OwnerAt(w, h[0])
    decreases i
  {
    hide Replay;
    if i == 0 {
    } else {
      GenesisOwnerIsFixed(w, k, h, i - 1);
      ReplayInvariant(w, k, h);
      assert Linked(w, h[i - 1], h[i]);
      if Replay(w, k, h[..i + 1]).None? { FailedReplayStaysFailed(w, k, h, i + 1); }
      LastStepIsNoRotation(w, k, h[..i + 1]);
    }
  }

  // ---------- extending and replaying agree ----------

  /** On a replayed state the rotation's own re-replay never fails. */
  lemma StepIsUpdate(w: Wire, k: Bytes, h: seq<Bytes>, e: Bytes, s: State)
    requires ValidateHistory(w, k, h) == Some(s)
    ensures s.history == Some(h)
    ensures ValidateUpdate(w, k, e, Some(s), None) == ReplayStep(w, k, At(s), e)
  {
  }

  /** One incremental step from a replayed state accepts and returns exactly what a replay would. */
  lemma IncrementalEqualsReplay(w: Wire, k: Bytes, h: seq<Bytes>, e: Bytes, s: State)
    requires Sound(w) && ValidateHistory(w, k, h) == Some(s)
    ensures ValidateUpdate(w, k, e, Some(s), None) == ValidateHistory(w, k, h + [e])
  {
    hide ReplayStep, ValidateUpdate, StartReplay, StateOf, LinkedHistory, WellShapedAnchor;
    AcceptedHistory(w, k, h, s);
    StepIsUpdate(w, k, h, e, s);
    assert (h + [e])[..|h|] == h;
    if ReplayStep(w, k, At(s), e).Some? {
      ReplayInvariant(w, k, h + [e]);
    }
  }

  /** From a verified legacy anchor, one step of a replay is the incremental step. */
  lemma AnchorStepIsUpdate(w: Wire, k: Bytes, anchor: Bytes, e: Bytes)
    ensures ReplayStep(w, k, Anchor(anchor), e) == ValidateUpdate(w, k, e, None, Some(anchor))
  {
  }

  /** From a legacy envelope the two agree exactly when its fields are {1,2} and its payload empty. */
  lemma LegacyStepVersusReplay(w: Wire, k: Bytes, anchor: Bytes, e: Bytes)
    requires Sound(w) && DecodeLegacyState(w, k, anchor).Some?
    ensures ValidateHistory(w, k, [anchor, e]) ==
            if PlainIdentity(DecodeLegacyState(w, k, anchor).value)
            then ValidateUpdate(w, k, e, None, Some(anchor)) else None
  {
    LegacyDecodes(w, k, anchor, DecodeLegacyState(w, k, anchor).value);
    AnchorStepIsUpdate(w, k, anchor, e);
    hide ReplayStep, ValidateUpdate, DecodeLegacyState, StateOf, Linked, WellShapedAnchor;
    var h := [anchor, e];
    assert h[..|h| - 1] == [anchor] && h[|h| - 1] == e;
    assert Replay(w, k, [anchor]) == StartReplay(w, k, anchor);
    if Replay(w, k, h).Some? { ReplayInvariant(w, k, h); }
  }

  /** The closing `history != normalized` check of a replay never fires. */
  lemma FinalCheckNeverFires(w: Wire, k: Bytes, h: seq<Bytes>)
    requires Sound(w)
    ensures ValidateHistory(w, k, h) == match Replay(w, k, h) case Some(At(s)) => Some(s) case _ => None
  {
    if Replay(w, k, h).Some? { ReplayInvariant(w, k, h); }
  }

  lemma GenesisStepEqualsReplay(w: Wire, k: Bytes, e: Bytes, t: State)
    requires Sound(w) && ValidateUpdate(w, k, e, None, None) == Some(t) && t.kind == IDENTITY
    ensures ValidateHistory(w, k, [e]) == Some(t)
  {
    CandidateDecodes(w, e, DecodeCandidate(w, e).value);
  }

  /** The state reached by validating one update at a time, never replaying: each step sees only the last state. */
  function Extend(w: Wire, k: Bytes, h: seq<Bytes>): Option<State>
    decreases |h|
  {
    if h == [] then None
    else
      var n := |h| - 1;
      if n == 0 then ValidateUpdate(w, k, h[0], None, None)
      else if n == 1 && w.multisignature(h[0]).None? then ValidateUpdate(w, k, h[1], None, Some(h[0]))
      else match Extend(w, k, h[..n]) case None => None case Some(s) => ValidateUpdate(w, k, h[n], Some(s), None)
  }

  /** From a well-shaped anchor, extending step by step and replaying the whole chain agree. */
  lemma {:induction false} ExtendingEqualsReplaying(w: Wire, k: Bytes, h: seq<Bytes>)
    requires Sound(w) && h != [] && WellShapedAnchor(w, k, h[0])
    ensures Extend(w, k, h) == ValidateHistory(w, k, h)
    decreases |h|
  {
    hide ValidateUpdate, ValidateHistory;
    var n := |h| - 1;
    assert h == h[..n] + [h[n]];
    if n == 0 {
      assert h == [h[0]];
      LoneAnchor(w, k, h[0]);
    } else if n == 1 && w.multisignature(h[0]).None? {
      assert h == [h[0], h[1]];
      PlainAnchor(w, k, h[0]);
      LegacyStepVersusReplay(w, k, h[0], h[1]);
    } else {
      ExtendingEqualsReplaying(w, k, h[..n]);
      if Extend(w, k, h[..n]).Some? {
        IncrementalEqualsReplay(w, k, h[..n], h[n], Extend(w, k, h[..n]).value);
      } else {
        UnacceptedPrefix(w, k, h);
      }
    }
  }

  lemma PlainAnchor(w: Wire, k: Bytes, e: Bytes)
    requires WellShapedAnchor(w, k, e) && w.multisignature(e).None?
    ensures DecodeLegacyState(w, k, e).Some? && PlainIdentity(DecodeLegacyState(w, k, e).value)
  {
  }

  lemma LoneAnchor(w: Wire, k: Bytes, e: Bytes)
    requires Sound(w) && WellShapedAnchor(w, k, e)
    ensures ValidateUpdate(w, k, e, None, None) == ValidateHistory(w, k, [e])
  {
    AnchorOperation(w, k, e);
    if w.multisignature(e).Some? {
      MultisignatureAnchor(w, k, e);
      GenesisStepEqualsReplay(w, k, e, ValidateGenesis(w, k, e).value);
    }
  }

  /** A chain longer than its anchor is not accepted when its prefix is not. */
  lemma UnacceptedPrefix(w: Wire, k: Bytes, h: seq<Bytes>)
    requires Sound(w) && |h| > 1 && ValidateHistory(w, k, h[..|h| - 1]).None?
    requires |h| == 2 ==> w.multisignature(h[0]).Some?
    ensures ValidateHistory(w, k, h).None?
  {
    hide StateOf, Linked, WellShapedAnchor, DecodeLegacyState;
    var prefix := h[..|h| - 1];
    FinalCheckNeverFires(w, k, prefix);
    if Replay(w, k, prefix).Some? { ReplayInvariant(w, k, prefix); }
  }

  // ---------- fork freedom ----------

  function NamedPredecessor(w: Wire, update: Bytes): Option<Bytes> {
    match DecodeMultisignatureUpdate(w, update)
    case Some(u) => Some(u.auth.value.predecessor)
    case None => None
  }

  /** One key validly signs two different updates that name the same predecessor. */
  ghost predicate Equivocates(w: Wire, key: Bytes, u: Bytes, v: Bytes) {
    && u != v && SignedBy(w, key, u) && SignedBy(w, key, v)
    && NamedPredecessor(w, u).Some? && NamedPredecessor(w, u) == NamedPredecessor(w, v)
  }

  /** No key equivocates between the non-anchor updates of two histories. */
  ghost predicate NonEquivocating(w: Wire, g: seq<Bytes>, h: seq<Bytes>) {
    forall i, j, key :: 0 < i < |g| && 0 < j < |h| ==> !Equivocates(w, key, UpdateAt(w, g[i]), UpdateAt(w, h[j]))
  }

  lemma NextUpdateIsUnique(w: Wire, a: Bytes, b: Bytes, a': Bytes, b': Bytes)
    requires Linked(w, a, b) && Linked(w, a', b') && UpdateAt(w, a) == UpdateAt(w, a')
    requires BodyOf(w, a).value.auth.Some? ==> |BodyOf(w, a).value.auth.value.signers| == 3
    requires forall key :: !Equivocates(w, key, UpdateAt(w, b), UpdateAt(w, b'))
    ensures UpdateAt(w, b) == UpdateAt(w, b')
  {
    var x := BodyOf(w, a).value;
    var u, v := UpdateAt(w, b), UpdateAt(w, b');
    var key;
    if x.auth.Some? {
      key := QuorumsIntersect(w, x.auth.value.signers, u, v);
    } else {
      key := OwnerKey(x).value;
    }
    assert !Equivocates(w, key, u, v);
  }

  /**
   Two accepted histories of one record key with the same anchor update agree wherever both
   are defined, as sequences of SignedUpdate bytes.
   */
  lemma {:induction false} ForkFreedom(w: Wire, k: Bytes, g: seq<Bytes>, h: seq<Bytes>, i: nat)
    requires Sound(w) && ValidateHistory(w, k, g).Some? && ValidateHistory(w, k, h).Some?
    requires UpdateAt(w, g[0]) == UpdateAt(w, h[0])
    requires NonEquivocating(w, g, h)
    requires i < |g| && i < |h|
    ensures UpdateAt(w, g[i]) == UpdateAt(w, h[i])
    decreases i
  {
    hide Replay, Linked, Equivocates;
    if i == 0 {
    } else {
      ForkFreedom(w, k, g, h, i - 1);
      ReplayInvariant(w, k, g);
      ReplayInvariant(w, k, h);
      assert Linked(w, g[i - 1], g[i]) && Linked(w, h[i - 1], h[i]);
      StatesAreTwoOfThree(w, k, g, i - 1);
      NextUpdateIsUnique(w, g[i - 1], g[i], h[i - 1], h[i]);
    }
  }

  /** The SignedUpdates of g, in order, are the first ones of h. */
  ghost predicate UpdatesPrefix(w: Wire, g: seq<Bytes>, h: seq<Bytes>) {
    |g| <= |h| && forall i :: 0 <= i < |g| ==> UpdateAt(w, g[i]) == UpdateAt(w, h[i])
  }

  /** Fork freedom for whole sequences: one is a prefix of the other. */
  lemma HistoriesArePrefixComparable(w: Wire, k: Bytes, g: seq<Bytes>, h: seq<Bytes>)
    requires Sound(w) && ValidateHistory(w, k, g).Some? && ValidateHistory(w, k, h).Some?
    requires UpdateAt(w, g[0]) == UpdateAt(w, h[0])
    requires NonEquivocating(w, g, h)
    ensures UpdatesPrefix(w, g, h) || UpdatesPrefix(w, h, g)
  {
    forall i | 0 <= i < |g| && i < |h| ensures UpdateAt(w, g[i]) == UpdateAt(w, h[i]) {
      ForkFreedom(w, k, g, h, i);
    }
  }

  lemma SameUpdateSameSeq(w: Wire, k: Bytes, g: seq<Bytes>, h: seq<Bytes>, n: nat)
    requires Sound(w) && ValidateHistory(w, k, g).Some? && ValidateHistory(w, k, h).Some?
    requires n < |g| && n < |h| && UpdateAt(w, g[n]) == UpdateAt(w, h[n])
    ensures SeqAt(w, g[n]) == SeqAt(w, h[n])
    ensures SeqAt(w, g[n]) <= SeqAt(w, g[|g| - 1])
  {
    hide Replay, Linked, StateOf, WellShapedAnchor, DecodeLegacyState;
    StatesAreTwoOfThree(w, k, g, n);
    StatesAreTwoOfThree(w, k, h, n);
    ReplayInvariant(w, k, g);
    if n < |g| - 1 { LinkedMonotone(w, g, n, |g| - 1); }
  }

  /** The history of the newer of two states properly extends the history of the older. */
  lemma NewerHistoryExtends(w: Wire, k: Bytes, g: seq<Bytes>, h: seq<Bytes>, s: State, t: State)
    requires Sound(w) && ValidateHistory(w, k, g) == Some(s) && ValidateHistory(w, k, h) == Some(t)
    requires UpdateAt(w, g[0]) == UpdateAt(w, h[0])
    requires NonEquivocating(w, g, h)
    requires s.seqNo < t.seqNo
    ensures UpdatesPrefix(w, g, h) && !UpdatesPrefix(w, h, g)
  {
    hide NonEquivocating;
    AcceptedHistory(w, k, g, s);
    AcceptedHistory(w, k, h, t);
    HistoriesArePrefixComparable(w, k, g, h);
    var n := |h| - 1;
    if n < |g| {
      ForkFreedom(w, k, g, h, n);
      SameUpdateSameSeq(w, k, g, h, n);
    }
  }
}
