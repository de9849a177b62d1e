/**
 What is accepted, said without the validators: which single-key records, which geneses and
 upgrades, which whole histories, and so which Identity reads and writes, with the result of each.
 Every theorem here is exact: it says what must be accepted as well as what must be refused.
 */
module Acceptance {
  import opened Basics
  import opened Cbor
  import opened Schema
  import opened Verification
  import opened Lineage
  import opened RecordValidator

  // ---------- records under a lookup key ----------

  /** An update with a name and an owner key among its fields reads as an Identity. */
  function LegacyKind(u: SignedUpdate): nat {
    if OwnerName(u).Some? && OwnerKey(u).Some? then IDENTITY else PROVIDER
  }

  /** The owner key of a record: field 2 of an Identity, field 1 of a Provider record. */
  function OwnerAs(kind: nat, u: SignedUpdate): Option<Bytes> {
    if kind == IDENTITY then OwnerKey(u) else OwnerName(u)
  }

  /** An Identity belongs under the digest of its name, a Provider record under the hash of its object. */
  predicate RecordUnder(w: Wire, k: Bytes, u: SignedUpdate, kind: nat) {
    && OwnerName(u).Some? && OwnerAs(kind, u).Some?
    && if kind == IDENTITY then w.sha256(OwnerName(u).value) == k
       else && |k| == 32 && w.providerPayload(u.payload).Some?
            && FromHex(w.providerPayload(u.payload).value.objectHash) == Some(k)
  }

  /** A single-key record under this lookup key, with a valid signature of the owner it names. */
  predicate LegacyRecord(w: Wire, k: Bytes, e: Bytes, kind: nat) {
    && w.legacy(e).Some? && BodyOf(w, e).Some?
    && var u := BodyOf(w, e).value;
       && kind == LegacyKind(u) && RecordUnder(w, k, u, kind)
       && Verifies(w, OwnerAs(kind, u).value, UpdateAt(w, e), w.legacy(e).value.signature)
  }

  /** A single-key envelope is accepted as a predecessor exactly when its owner signed it. */
  lemma LegacyStateExactly(w: Wire, k: Bytes, e: Bytes)
    requires Sound(w)
    ensures DecodeLegacyState(w, k, e).Some? <==> LegacyRecord(w, k, e, IDENTITY) || LegacyRecord(w, k, e, PROVIDER)
    ensures DecodeLegacyState(w, k, e).Some? ==>
              var u := BodyOf(w, e).value;
              var kind := LegacyKind(u);
              DecodeLegacyState(w, k, e).value
              == Legacy(UpdateAt(w, e), u.fields, u.payload, u.seqNo, kind, OwnerAs(kind, u).value)
  {
  }

  /** And as an update of its own exactly when, in addition, seq and owner follow the entry before it. */
  lemma LegacyUpdateExactly(w: Wire, k: Bytes, e: Bytes, prev: Option<SeqEntry>)
    requires Sound(w)
    ensures ValidateLegacyUpdate(w, k, e, prev).Some? <==>
              && (LegacyRecord(w, k, e, IDENTITY) || LegacyRecord(w, k, e, PROVIDER))
              && var u := BodyOf(w, e).value;
                 SeqAndOwnerHold(prev, OwnerAs(LegacyKind(u), u).value, u.seqNo)
    ensures ValidateLegacyUpdate(w, k, e, prev).Some? ==> ValidateLegacyUpdate(w, k, e, prev) == BodyOf(w, e)
  {
  }

  // ---------- geneses and upgrades ----------

  /** A multisignature envelope that decodes, with its authorization map. */
  predicate Authorized(w: Wire, e: Bytes) {
    w.multisignature(e).Some? && BodyOf(w, e).Some? && BodyOf(w, e).value.auth.Some?
  }

  function AuthAt(w: Wire, e: Bytes): Authorization
    requires Authorized(w, e)
  {
    BodyOf(w, e).value.auth.value
  }

  function ProofsAt(w: Wire, e: Bytes): seq<Proof>
    requires Authorized(w, e)
  {
    w.multisignature(e).value.proofs
  }

  lemma CandidateExactly(w: Wire, k: Bytes, e: Bytes)
    requires Sound(w)
    ensures Authorized(w, e) <==> w.multisignature(e).Some?
    ensures DecodeCandidate(w, e).Some? && DecodeCandidate(w, e).value.recordKey == k <==>
              Authorized(w, e) && RecordUnder(w, k, BodyOf(w, e).value, AuthAt(w, e).kind)
    ensures DecodeCandidate(w, e).Some? ==>
              && Authorized(w, e) && WellFormedAuthorization(AuthAt(w, e))
              && DecodeCandidate(w, e).value == Candidate(UpdateAt(w, e), ProofsAt(w, e), BodyOf(w, e).value,
                                                          AuthAt(w, e), DecodeCandidate(w, e).value.recordKey)
  {
  }

  /** A first multisignature state: epoch 1, no predecessor, 2-of-3, and proofs of its own set. */
  predicate GenesisRecord(w: Wire, k: Bytes, e: Bytes, kind: nat) {
    && Authorized(w, e) && RecordUnder(w, k, BodyOf(w, e).value, kind)
    && var a := AuthAt(w, e);
       && a.kind == kind && a.operation == GENESIS && a.epoch == 1 && a.predecessor == ZeroHash()
       && a.threshold == 2 && |a.signers| == 3
       && ThresholdProofs(w, UpdateAt(w, e), ProofsAt(w, e), a.signers, 2)
  }

  lemma GenesisExactly(w: Wire, k: Bytes, e: Bytes)
    requires Sound(w)
    ensures ValidateGenesis(w, k, e).Some? <==> GenesisRecord(w, k, e, IDENTITY) || GenesisRecord(w, k, e, PROVIDER)
    ensures ValidateGenesis(w, k, e).Some? ==> ValidateGenesis(w, k, e).value == StateAt(w, k, e, [e])
  {
    hide ThresholdProofs, RecordUnder, WellFormedAuthorization;
    CandidateExactly(w, k, e);
  }

  /** The state an accepted envelope leaves; a Provider record has no history. */
  function StateAt(w: Wire, k: Bytes, e: Bytes, history: seq<Bytes>): State
    requires Authorized(w, e)
  {
    var u, a := BodyOf(w, e).value, AuthAt(w, e);
    State(k, a.kind, match OwnerAs(a.kind, u) case Some(key) => key case None => [], UpdateAt(w, e),
          w.sha256(UpdateAt(w, e)), a.epoch, u.seqNo, a.threshold, a.signers,
          if a.kind == IDENTITY then Some(history) else None)
  }

  /** One proof, by this owner, under the identifier it has in the new set. */
  predicate OneOwnerProof(w: Wire, e: Bytes, owner: Bytes)
    requires Authorized(w, e)
  {
    && |ProofsAt(w, e)| == 1
    && SignerIdForKey(AuthAt(w, e).signers, owner).Some?
    && ProofsAt(w, e)[0].id == SignerIdForKey(AuthAt(w, e).signers, owner)
    && Verifies(w, owner, UpdateAt(w, e), ProofsAt(w, e)[0].signature)
  }

  /** The owner of a signed single-key record `x` puts it under a 2-of-3 set, of which it is a member. */
  predicate UpgradeRecord(w: Wire, k: Bytes, x: Bytes, e: Bytes, kind: nat) {
    && LegacyRecord(w, k, x, kind) && Authorized(w, e) && RecordUnder(w, k, BodyOf(w, e).value, kind)
    && var u, v, a := BodyOf(w, x).value, BodyOf(w, e).value, AuthAt(w, e);
       && a.kind == kind && a.operation == UPGRADE && a.epoch == 1 && a.threshold == 2 && |a.signers| == 3
       && a.predecessor == w.sha256(UpdateAt(w, x)) && v.seqNo > u.seqNo
       && OwnerAs(kind, v) == OwnerAs(kind, u) && OneOwnerProof(w, e, OwnerAs(kind, u).value)
  }

  lemma UpgradeExactly(w: Wire, k: Bytes, e: Bytes, x: Bytes)
    requires Sound(w)
    ensures ValidateUpgrade(w, k, e, x).Some? <==>
              UpgradeRecord(w, k, x, e, IDENTITY) || UpgradeRecord(w, k, x, e, PROVIDER)
    ensures ValidateUpgrade(w, k, e, x).Some? ==> ValidateUpgrade(w, k, e, x).value == StateAt(w, k, e, [x, e])
  {
    hide Verifies, SignerIdForKey, WellFormedAuthorization, DecodeLegacyState;
    CandidateExactly(w, k, e);
    LegacyStateExactly(w, k, x);
  }

  // ---------- whole histories ----------

  /** Where a history may start: an Identity genesis, or a signed Identity with fields exactly {1,2}. */
  ghost predicate GoodAnchor(w: Wire, k: Bytes, e: Bytes) {
    || GenesisRecord(w, k, e, IDENTITY)
    || (LegacyRecord(w, k, e, IDENTITY)
        && Keys(BodyOf(w, e).value.fields) == {1, 2} && BodyOf(w, e).value.payload == [])
  }

  /**
   How envelope `b` may follow `a`: linked, and proved by the anchor's owner alone (a rotation
   under the null identifier) or by a threshold of the set in force.  Rotations need a legacy anchor.
   */
  ghost predicate GoodStep(w: Wire, k: Bytes, rotations: bool, a: Bytes, b: Bytes) {
    && Authorized(w, b) && Linked(w, a, b) && BoundTo(w, k, BodyOf(w, b).value)
    && var operation, ps, update := AuthAt(w, b).operation, ProofsAt(w, b), UpdateAt(w, b);
       match BodyOf(w, a).value.auth
       case Some(before) =>
         && ThresholdProofs(w, update, ps, before.signers, before.threshold)
         && (operation == OWNER_KEY_ROTATION ==> rotations)
       case None =>
         var owner := OwnerKey(BodyOf(w, a).value).value;
         && |ps| == 1
         && ps[0].id == (if operation == UPGRADE then SignerIdForKey(AuthAt(w, b).signers, owner) else None)
         && Verifies(w, owner, update, ps[0].signature)
  }

  /** A chain that is accepted as it stands: a good anchor, and good steps. */
  ghost predicate GoodChain(w: Wire, k: Bytes, h: seq<Bytes>) {
    && h != [] && GoodAnchor(w, k, h[0])
    && forall i :: 0 < i < |h| ==> GoodStep(w, k, w.multisignature(h[0]).None?, h[i - 1], h[i])
  }

  lemma AnchorExactly(w: Wire, k: Bytes, e: Bytes)
    requires Sound(w)
    ensures StartReplay(w, k, e).Some? <==> GoodAnchor(w, k, e)
    ensures StartReplay(w, k, e).Some? ==>
              StartReplay(w, k, e).value == if w.multisignature(e).Some? then At(StateAt(w, k, e, [e])) else Anchor(e)
  {
    hide LegacyRecord, GenesisRecord, DecodeLegacyState, ValidateGenesis, DecodeCandidate;
    CandidateExactly(w, k, e);
    GenesisExactly(w, k, e);
    LegacyStateExactly(w, k, e);
    AnchorKinds(w, k, e);
  }

  lemma AnchorKinds(w: Wire, k: Bytes, e: Bytes)
    requires Sound(w)
    ensures w.multisignature(e).Some? ==> !LegacyRecord(w, k, e, IDENTITY) && !LegacyRecord(w, k, e, PROVIDER)
    ensures forall kind :: LegacyRecord(w, k, e, kind) ==> kind == LegacyKind(BodyOf(w, e).value)
    ensures forall kind :: GenesisRecord(w, k, e, kind) ==> Authorized(w, e) && AuthAt(w, e).kind == kind
    ensures GenesisRecord(w, k, e, IDENTITY) ==> AuthAt(w, e).operation == GENESIS
  {
  }

  lemma StepExactly(w: Wire, k: Bytes, cur: Cursor, a: Bytes, e: Bytes)
    requires Sound(w)
    requires match cur
             case Anchor(x) => x == a && GoodAnchor(w, k, a) && w.multisignature(a).None?
             case At(s) => StateOf(w, k, s, a) && s.history.Some? && s.history.value != []
    ensures ReplayStep(w, k, cur, e).Some? <==>
              GoodStep(w, k, cur.Anchor? || w.multisignature(cur.state.history.value[0]).None?, a, e)
  {
    hide ReplayStep, GoodStep, GoodAnchor, StateOf;
    match cur
    case Anchor(x) => AnchorStepIsGood(w, k, a, e);
    case At(s) => StateStepIsGood(w, k, s, a, e);
  }

  lemma AnchorStepIsGood(w: Wire, k: Bytes, a: Bytes, e: Bytes)
    requires Sound(w) && GoodAnchor(w, k, a) && w.multisignature(a).None?
    ensures ReplayStep(w, k, Anchor(a), e).Some? <==> GoodStep(w, k, true, a, e)
  {
    hide ReplayStep, Linked, BoundTo, DecodeLegacyState, DecodeCandidate, Verifies, RecordUnder, SignerIdForKey;
    assert DecodeLegacyState(w, k, a).Some? && PlainIdentity(DecodeLegacyState(w, k, a).value) by {
      LegacyStateExactly(w, k, a);
    }
    LegacyDecodes(w, k, a, DecodeLegacyState(w, k, a).value);
    AnchorStepExactly(w, k, a, e);
    CandidateExactly(w, k, e);
    if GoodStep(w, k, true, a, e) { StepIsUnder(w, k, a, e); }
  }

  lemma StateStepIsGood(w: Wire, k: Bytes, s: State, a: Bytes, e: Bytes)
    requires Sound(w) && StateOf(w, k, s, a) && s.history.Some? && s.history.value != []
    ensures ReplayStep(w, k, At(s), e).Some? <==>
              GoodStep(w, k, w.multisignature(s.history.value[0]).None?, a, e)
  {
    hide ReplayStep, Linked, BoundTo, ThresholdProofs, StateOf, DecodeCandidate, RecordUnder;
    CandidateExactly(w, k, e);
    StateStepExactly(w, k, s, a, e);
    StateNames(w, k, s, a);
    if GoodStep(w, k, w.multisignature(s.history.value[0]).None?, a, e) { StepIsUnder(w, k, a, e); }
  }

  lemma StepIsUnder(w: Wire, k: Bytes, a: Bytes, b: Bytes)
    requires Authorized(w, b) && Linked(w, a, b) && BoundTo(w, k, BodyOf(w, b).value)
    ensures AuthAt(w, b).kind == IDENTITY && RecordUnder(w, k, BodyOf(w, b).value, IDENTITY)
  {
  }

  lemma StateNames(w: Wire, k: Bytes, s: State, e: Bytes)
    requires Sound(w) && StateOf(w, k, s, e)
    ensures Authorized(w, e) && s.signers == AuthAt(w, e).signers && s.threshold == AuthAt(w, e).threshold
    ensures s.history.Some? ==> s == StateAt(w, k, e, s.history.value)
  {
  }

  /** A replay reaches the end of a chain exactly when the chain is good. */
  lemma {:induction false} ReplayExactly(w: Wire, k: Bytes, h: seq<Bytes>)
    requires Sound(w)
    ensures Replay(w, k, h).Some? <==> GoodChain(w, k, h)
  {
    hide GoodAnchor, GoodStep, ReplayStep, StartReplay, StateOf, Linked, LinkedHistory, WellShapedAnchor,
         DecodeLegacyState;
    if |h| <= 1 {
      if h != [] { AnchorExactly(w, k, h[0]); }
    } else {
      var n := |h| - 1;
      var prefix := h[..n];
      ReplayExactly(w, k, prefix);
      ChainSplits(w, k, h);
      if Replay(w, k, prefix).Some? {
        ReplayInvariant(w, k, prefix);
        var cur := Replay(w, k, prefix).value;
        StepExactly(w, k, cur, h[n - 1], h[n]);
      }
    }
  }

  lemma ChainSplits(w: Wire, k: Bytes, h: seq<Bytes>)
    requires |h| > 1
    ensures GoodChain(w, k, h) <==>
              && GoodChain(w, k, h[..|h| - 1])
              && GoodStep(w, k, w.multisignature(h[0]).None?, h[|h| - 2], h[|h| - 1])
  {
    hide GoodAnchor, GoodStep;
    var n, r := |h| - 1, w.multisignature(h[0]).None?;
    if GoodChain(w, k, h) {
      forall i | 0 < i < n ensures GoodStep(w, k, r, h[..n][i - 1], h[..n][i]) {
        assert GoodStep(w, k, r, h[i - 1], h[i]);
      }
    }
    if GoodChain(w, k, h[..n]) && GoodStep(w, k, r, h[n - 1], h[n]) {
      forall i | 0 < i < |h| ensures GoodStep(w, k, r, h[i - 1], h[i]) {
        if i < n { assert GoodStep(w, k, r, h[..n][i - 1], h[..n][i]); }
      }
    }
  }

  /** A good chain that ends in a multisignature state. */
  ghost predicate GoodHistory(w: Wire, k: Bytes, h: seq<Bytes>) {
    GoodChain(w, k, h) && w.multisignature(h[|h| - 1]).Some?
  }

  /** What a validated history is, and the state it replays to: in both directions, for every chain. */
  lemma HistoryExactly(w: Wire, k: Bytes, h: seq<Bytes>)
    requires Sound(w)
    ensures ValidateHistory(w, k, h).Some? <==> GoodHistory(w, k, h)
    ensures GoodHistory(w, k, h) ==>
              Authorized(w, h[|h| - 1]) && ValidateHistory(w, k, h) == Some(StateAt(w, k, h[|h| - 1], h))
  {
    hide GoodAnchor, GoodStep, ReplayStep, StartReplay, StateOf, Linked, LinkedHistory, WellShapedAnchor,
         DecodeLegacyState;
    ReplayExactly(w, k, h);
    FinalCheckNeverFires(w, k, h);
    if Replay(w, k, h).Some? {
      ReplayInvariant(w, k, h);
      if Replay(w, k, h).value.At? {
        StateNames(w, k, Replay(w, k, h).value.state, h[|h| - 1]);
      }
    }
  }

  // ---------- signatures under single-key records ----------

  /** The single-key record an accepted history starts from is signed by the owner key it names. */
  lemma AnchorIsSigned(w: Wire, k: Bytes, h: seq<Bytes>)
    requires Sound(w) && Replay(w, k, h).Some? && w.multisignature(h[0]).None?
    ensures w.legacy(h[0]).Some? && OwnerAt(w, h[0]).Some? && NameAt(w, h[0]).Some?
    ensures w.ed25519(OwnerAt(w, h[0]).value, w.sha256(UpdateAt(w, h[0])), w.legacy(h[0]).value.signature)
    ensures w.sha256(NameAt(w, h[0]).value) == k
  {
    hide GoodStep, Replay;
    ReplayExactly(w, k, h);
  }

  /** So is the single-key record, of either kind, from which any accepted upgrade starts. */
  lemma UpgradedIsSigned(w: Wire, k: Bytes, e: Bytes, x: Bytes)
    requires Sound(w) && ValidateUpgrade(w, k, e, x).Some?
    ensures w.legacy(x).Some? && BodyOf(w, x).Some?
    ensures var u := BodyOf(w, x).value;
            && OwnerAs(LegacyKind(u), u).Some?
            && w.ed25519(OwnerAs(LegacyKind(u), u).value, w.sha256(UpdateAt(w, x)), w.legacy(x).value.signature)
  {
    UpgradeExactly(w, k, e, x);
  }

  // ---------- Identity reads and writes ----------

  /** What a read of an accepted Identity envelope returns, given the history behind it. */
  function IdentityRecord(w: Wire, k: Bytes, e: Bytes, history: seq<Bytes>): IdentityResult
    requires BodyOf(w, e).Some? && OwnerName(BodyOf(w, e).value).Some? && OwnerKey(BodyOf(w, e).value).Some?
  {
    var u := BodyOf(w, e).value;
    if !Authorized(w, e) then IdentityResult(k, OwnerName(u).value, OwnerKey(u).value, u.seqNo, None, None)
    else
      var a := AuthAt(w, e);
      IdentityResult(
        k, OwnerName(u).value, OwnerKey(u).value, u.seqNo,
        Some(Metadata(a.operation, a.epoch, a.threshold, a.signers, a.predecessor, w.sha256(UpdateAt(w, e)))),
        Some(StateAt(w, k, e, history)))
  }

  /** An envelope that can be read: a signed single-key Identity, or the end of a good history. */
  ghost predicate Readable(w: Wire, k: Bytes, e: Bytes, chain: Option<seq<Bytes>>) {
    if w.isMultisignature(e)
    then (chain.Some? ==> EndsAt(chain.value, e)) && GoodHistory(w, k, if chain.Some? then chain.value else [e])
    else LegacyRecord(w, k, e, IDENTITY)
  }

  lemma GoodHistoryHead(w: Wire, k: Bytes, h: seq<Bytes>)
    requires Sound(w) && GoodHistory(w, k, h)
    ensures var e := h[|h| - 1];
            && Authorized(w, e) && AuthAt(w, e).kind == IDENTITY && w.isMultisignature(e)
            && OwnerName(BodyOf(w, e).value).Some? && OwnerKey(BodyOf(w, e).value).Some?
            && BoundTo(w, k, BodyOf(w, e).value)
  {
    var n := |h| - 1;
    if n > 0 { assert GoodStep(w, k, w.multisignature(h[0]).None?, h[n - 1], h[n]); }
  }

  lemma StateReadsAs(w: Wire, k: Bytes, e: Bytes, h: seq<Bytes>)
    requires Sound(w) && Authorized(w, e)
    ensures StateIdentityResult(w, k, StateAt(w, k, e, h)) ==
            var u := BodyOf(w, e).value;
            if OwnerName(u).Some? && OwnerKey(u).Some? then Some(IdentityRecord(w, k, e, h)) else None
  {
  }

  lemma LoneEnvelope(w: Wire, k: Bytes, e: Bytes)
    requires Sound(w)
    ensures GoodHistory(w, k, [e]) <==> GenesisRecord(w, k, e, IDENTITY)
    ensures GoodHistory(w, k, [e]) ==> ValidateEnvelope(w, k, e) == Some(StateAt(w, k, e, [e]))
    ensures !GoodHistory(w, k, [e]) ==>
              ValidateEnvelope(w, k, e).Some? ==> ValidateEnvelope(w, k, e).value.history.None?
  {
    hide ThresholdProofs, RecordUnder, UpgradeProof, LegacyRecord, ValidateGenesis;
    AnchorKinds(w, k, e);
    CandidateExactly(w, k, e);
    GenesisExactly(w, k, e);
  }

  /** Which reads succeed, and what each returns. */
  lemma IdentityReadExactly(w: Wire, k: Bytes, e: Bytes, chain: Option<seq<Bytes>>)
    requires Sound(w)
    ensures Readable(w, k, e, chain) ==>
              BodyOf(w, e).Some? && OwnerName(BodyOf(w, e).value).Some? && OwnerKey(BodyOf(w, e).value).Some?
    ensures IdentityGet(w, k, e, chain) ==
            if Readable(w, k, e, chain)
            then Some(IdentityRecord(w, k, e, if chain.Some? then chain.value else [e])) else None
  {
    hide GoodHistory, ValidateEnvelope, StateIdentityResult, StateAt, ValidateLegacyUpdate, ValidateHistory;
    if w.isMultisignature(e) {
      var h := if chain.Some? then chain.value else [e];
      HistoryExactly(w, k, h);
      LoneEnvelope(w, k, e);
      if GoodHistory(w, k, h) && EndsAt(h, e) {
        GoodHistoryHead(w, k, h);
        StateReadsAs(w, k, e, h);
        StateKind(w, k, e, h);
      }
    } else {
      LegacyUpdateExactly(w, k, e, None);
    }
  }

  lemma StateKind(w: Wire, k: Bytes, e: Bytes, h: seq<Bytes>)
    requires Authorized(w, e) && AuthAt(w, e).kind == IDENTITY
    ensures StateAt(w, k, e, h).kind == IDENTITY && StateAt(w, k, e, h).history == Some(h)
  {
  }

  /** The history behind an envelope written over `existing`. */
  function WriteHistory(w: Wire, e: Bytes, existing: Option<Bytes>, chain: Option<seq<Bytes>>): seq<Bytes> {
    match existing
    case None => [e]
    case Some(x) => if w.isMultisignature(x) && chain.Some? then chain.value + [e] else [x, e]
  }

  /** The single-key record being replaced, where its owner can be read, has this owner and a smaller seq. */
  predicate FollowsLegacy(w: Wire, existing: Option<Bytes>, e: Bytes) {
    existing.Some? && w.legacy(existing.value).Some? && OwnerAt(w, existing.value).Some? ==>
      SeqAt(w, existing.value) < SeqAt(w, e) && OwnerAt(w, existing.value) == OwnerAt(w, e)
  }

  /**
   An envelope that may be written over `existing`: one that makes a good history of the chain
   before it, or upgrades a signed single-key Identity of any shape, or is itself a signed
   single-key Identity over none or over an earlier one of the same owner.
   */
  ghost predicate Writable(w: Wire, k: Bytes, e: Bytes, existing: Option<Bytes>, chain: Option<seq<Bytes>>) {
    var h := WriteHistory(w, e, existing, chain);
    if !w.isMultisignature(e) then
      && (existing.Some? ==> !w.isMultisignature(existing.value))
      && LegacyRecord(w, k, e, IDENTITY) && FollowsLegacy(w, existing, e)
    else
      || (existing.Some? && !w.isMultisignature(existing.value) && UpgradeRecord(w, k, existing.value, e, IDENTITY))
      || (GoodHistory(w, k, h)
          && (existing.Some? && w.isMultisignature(existing.value) && chain.Some? ==>
                EndsAt(chain.value, existing.value)))
  }

  lemma IdentityTransition(w: Wire, k: Bytes, e: Bytes, existing: Option<Bytes>, chain: Option<seq<Bytes>>)
    requires Sound(w) && Authorized(w, e) && AuthAt(w, e).kind == IDENTITY
    ensures ValidateTransition(w, k, e, existing, chain) ==
            match existing
            case None => ValidateUpdate(w, k, e, None, None)
            case Some(x) =>
              if !w.isMultisignature(x) then ValidateUpdate(w, k, e, None, existing)
              else match CurrentState(w, k, AuthAt(w, e), x, chain)
                   case None => None
                   case Some(s) => ValidateUpdate(w, k, e, Some(s), None)
  {
    hide ValidateUpdate, CurrentState;
  }

  lemma ExtendExactly(w: Wire, k: Bytes, e: Bytes, x: Bytes, chain: Option<seq<Bytes>>)
    requires Sound(w) && Authorized(w, e) && AuthAt(w, e).kind == IDENTITY && w.isMultisignature(x)
    requires chain.Some? ==> EndsAt(chain.value, x)
    ensures ValidateTransition(w, k, e, Some(x), chain) == ValidateHistory(w, k, WriteHistory(w, e, Some(x), chain))
  {
    hide ValidateUpdate, ValidateHistory, GoodHistory, ValidateEnvelope, GoodChain, GoodStep;
    IdentityTransition(w, k, e, Some(x), chain);
    var h := if chain.Some? then chain.value else [x];
    assert WriteHistory(w, e, Some(x), chain) == h + [e];
    HistoryExactly(w, k, h);
    LoneEnvelope(w, k, x);
    if ValidateHistory(w, k, h).Some? {
      StateKindOf(w, k, h);
      IncrementalEqualsReplay(w, k, h, e, ValidateHistory(w, k, h).value);
      if AuthAt(w, e).operation == OWNER_KEY_ROTATION { NoRotationOfGenesis(w, k, x, e); }
    } else {
      HistoryExactly(w, k, h + [e]);
      if GoodHistory(w, k, h + [e]) { GoodPrefix(w, k, h, e); }
    }
  }

  lemma StateKindOf(w: Wire, k: Bytes, h: seq<Bytes>)
    requires Sound(w) && ValidateHistory(w, k, h).Some?
    ensures ValidateHistory(w, k, h).value.kind == IDENTITY && ValidateHistory(w, k, h).value.history == Some(h)
  {
    AcceptedHistory(w, k, h, ValidateHistory(w, k, h).value);
  }

  lemma NoRotationOfGenesis(w: Wire, k: Bytes, x: Bytes, e: Bytes)
    requires Sound(w) && Authorized(w, e) && AuthAt(w, e).operation == OWNER_KEY_ROTATION
    requires w.isMultisignature(x)
    ensures ValidateHistory(w, k, [x, e]).None?
  {
    hide Linked, GenesisRecord, LegacyRecord;
    HistoryExactly(w, k, [x, e]);
    if GoodHistory(w, k, [x, e]) {
      assert GoodStep(w, k, w.multisignature(x).None?, [x, e][0], [x, e][1]);
      AnchorIsMultisignature(w, k, x);
      AnchorKinds(w, k, x);
    }
  }

  /** What precedes the end of a good history, if it is a multisignature envelope, is good. */
  lemma GoodPrefix(w: Wire, k: Bytes, h: seq<Bytes>, e: Bytes)
    requires Sound(w) && GoodHistory(w, k, h + [e]) && h != [] && w.isMultisignature(h[|h| - 1])
    ensures GoodHistory(w, k, h)
  {
    hide GoodStep, GoodAnchor;
    var n := |h| - 1;
    ChainSplits(w, k, h + [e]);
    assert (h + [e])[..|h|] == h;
    if n > 0 {
      assert GoodStep(w, k, w.multisignature(h[0]).None?, h[n - 1], h[n]);
      StepIsAuthorized(w, k, w.multisignature(h[0]).None?, h[n - 1], h[n]);
    } else {
      AnchorIsMultisignature(w, k, h[0]);
    }
  }

  lemma StepIsAuthorized(w: Wire, k: Bytes, rotations: bool, a: Bytes, b: Bytes)
    requires GoodStep(w, k, rotations, a, b)
    ensures Authorized(w, b)
  {
  }

  lemma AnchorIsMultisignature(w: Wire, k: Bytes, e: Bytes)
    requires Sound(w) && GoodAnchor(w, k, e) && w.isMultisignature(e)
    ensures w.multisignature(e).Some?
  {
  }

  lemma OverLegacyExactly(w: Wire, k: Bytes, e: Bytes, x: Bytes, chain: Option<seq<Bytes>>)
    requires Sound(w) && Authorized(w, e) && AuthAt(w, e).kind == IDENTITY && !w.isMultisignature(x)
    ensures var s := ValidateTransition(w, k, e, Some(x), chain);
            && (s.Some? <==> GoodHistory(w, k, [x, e]) || UpgradeRecord(w, k, x, e, IDENTITY))
            && (s.Some? ==> s.value == StateAt(w, k, e, [x, e]))
  {
    hide ValidateHistory, ValidateUpgrade, GoodHistory, UpgradeRecord, DecodeLegacyState, ValidateRotationFromLegacy;
    IdentityTransition(w, k, e, Some(x), chain);
    UpgradeExactly(w, k, e, x);
    UpgradeKind(w, k, x, e);
    HistoryExactly(w, k, [x, e]);
    if DecodeLegacyState(w, k, x).Some? {
      LegacyStepVersusReplay(w, k, x, e);
      RotationNeedsPlain(w, k, x, e);
    } else {
      UnsignedIsNoAnchor(w, k, x, e);
    }
  }

  lemma UpgradeKind(w: Wire, k: Bytes, x: Bytes, e: Bytes)
    ensures forall kind :: UpgradeRecord(w, k, x, e, kind) ==> Authorized(w, e) && AuthAt(w, e).kind == kind
    ensures forall kind :: UpgradeRecord(w, k, x, e, kind) ==> AuthAt(w, e).operation == UPGRADE
  {
  }

  lemma RotationNeedsPlain(w: Wire, k: Bytes, x: Bytes, e: Bytes)
    ensures ValidateRotationFromLegacy(w, k, e, x).Some? ==>
              DecodeLegacyState(w, k, x).Some? && PlainIdentity(DecodeLegacyState(w, k, x).value)
  {
  }

  lemma UnsignedIsNoAnchor(w: Wire, k: Bytes, x: Bytes, e: Bytes)
    requires Sound(w) && !w.isMultisignature(x) && DecodeLegacyState(w, k, x).None?
    ensures !GoodHistory(w, k, [x, e])
    ensures ValidateUpgrade(w, k, e, x).None? && ValidateRotationFromLegacy(w, k, e, x).None?
  {
    hide DecodeLegacyState, GoodStep, LegacyRecord;
    LegacyStateExactly(w, k, x);
  }

  /** Which Identity writes are accepted, and the result each installs: for every envelope, base and chain. */
  lemma IdentityWriteExactly(w: Wire, k: Bytes, e: Bytes, existing: Option<Bytes>, chain: Option<seq<Bytes>>)
    requires Sound(w)
    ensures Writable(w, k, e, existing, chain) ==>
              BodyOf(w, e).Some? && OwnerName(BodyOf(w, e).value).Some? && OwnerKey(BodyOf(w, e).value).Some?
    ensures IdentityOverwrite(w, k, e, existing, chain) ==
            if Writable(w, k, e, existing, chain)
            then Some(IdentityRecord(w, k, e, WriteHistory(w, e, existing, chain))) else None
  {
    hide GoodHistory, StateIdentityResult, StateAt, ValidateLegacyUpdate, ValidateHistory, ValidateTransition,
         UpgradeRecord, IdentityRecord;
    if !w.isMultisignature(e) {
      LegacyWriteExactly(w, k, e, existing, chain);
    } else if Authorized(w, e) && AuthAt(w, e).kind == IDENTITY {
      MultisignatureWriteExactly(w, k, e, existing, chain);
    } else {
      NoIdentity(w, k, e, existing, chain);
    }
  }

  lemma LegacyWriteExactly(w: Wire, k: Bytes, e: Bytes, existing: Option<Bytes>, chain: Option<seq<Bytes>>)
    requires Sound(w) && !w.isMultisignature(e)
    ensures Writable(w, k, e, existing, chain) ==>
              BodyOf(w, e).Some? && OwnerName(BodyOf(w, e).value).Some? && OwnerKey(BodyOf(w, e).value).Some?
    ensures IdentityOverwrite(w, k, e, existing, chain) ==
            if Writable(w, k, e, existing, chain)
            then Some(IdentityRecord(w, k, e, WriteHistory(w, e, existing, chain))) else None
  {
    hide ValidateLegacyUpdate, ValidateTransition;
    LegacyUpdateExactly(w, k, e, PreviousEntry(w, existing, 2));
    if BodyOf(w, e).Some? && OwnerAt(w, e).Some? { PreviousExactly(w, existing, e); }
  }

  lemma PreviousExactly(w: Wire, existing: Option<Bytes>, e: Bytes)
    requires Sound(w) && BodyOf(w, e).Some? && OwnerAt(w, e).Some?
    ensures SeqAndOwnerHold(PreviousEntry(w, existing, 2), OwnerAt(w, e).value, SeqAt(w, e))
            <==> FollowsLegacy(w, existing, e)
  {
  }

  lemma MultisignatureWriteExactly(w: Wire, k: Bytes, e: Bytes, existing: Option<Bytes>, chain: Option<seq<Bytes>>)
    requires Sound(w) && Authorized(w, e) && AuthAt(w, e).kind == IDENTITY
    ensures Writable(w, k, e, existing, chain) ==>
              BodyOf(w, e).Some? && OwnerName(BodyOf(w, e).value).Some? && OwnerKey(BodyOf(w, e).value).Some?
    ensures IdentityOverwrite(w, k, e, existing, chain) ==
            if Writable(w, k, e, existing, chain)
            then Some(IdentityRecord(w, k, e, WriteHistory(w, e, existing, chain))) else None
  {
    hide GoodHistory, StateIdentityResult, StateAt, ValidateHistory, ValidateTransition, UpgradeRecord, IdentityRecord,
         ValidateUpdate;
    var h := WriteHistory(w, e, existing, chain);
    HistoryExactly(w, k, h);
    StateReadsAs(w, k, e, h);
    assert w.isMultisignature(e);
    if GoodHistory(w, k, h) { GoodHistoryHead(w, k, h); }
    match existing
    case None =>
      IdentityTransition(w, k, e, None, chain);
      LoneEnvelope(w, k, e);
      FirstWriteExactly(w, k, e);
    case Some(x) =>
      if !w.isMultisignature(x) {
        OverLegacyExactly(w, k, e, x, chain);
        if UpgradeRecord(w, k, x, e, IDENTITY) { UpgradeNames(w, k, x, e); }
      } else if chain.Some? && !EndsAt(chain.value, x) {
        IdentityTransition(w, k, e, existing, chain);
      } else {
        ExtendExactly(w, k, e, x, chain);
      }
  }

  lemma UpgradeNames(w: Wire, k: Bytes, x: Bytes, e: Bytes)
    requires UpgradeRecord(w, k, x, e, IDENTITY)
    ensures OwnerName(BodyOf(w, e).value).Some? && OwnerKey(BodyOf(w, e).value).Some?
  {
  }

  lemma FirstWriteExactly(w: Wire, k: Bytes, e: Bytes)
    requires Sound(w) && Authorized(w, e) && AuthAt(w, e).kind == IDENTITY
    ensures ValidateUpdate(w, k, e, None, None) == ValidateHistory(w, k, [e])
  {
    hide GoodHistory, ValidateGenesis, ThresholdProofs;
    HistoryExactly(w, k, [e]);
    LoneEnvelope(w, k, e);
    GenesisExactly(w, k, e);
    CandidateExactly(w, k, e);
    AnchorKinds(w, k, e);
  }

  /** A Provider record, or an envelope that does not decode, is never written as an Identity. */
  lemma NoIdentity(w: Wire, k: Bytes, e: Bytes, existing: Option<Bytes>, chain: Option<seq<Bytes>>)
    requires Sound(w) && w.isMultisignature(e) && !(Authorized(w, e) && AuthAt(w, e).kind == IDENTITY)
    ensures IdentityOverwrite(w, k, e, existing, chain).None? && !Writable(w, k, e, existing, chain)
  {
    hide GoodHistory, ValidateUpdate, ValidateHistory;
    var h := WriteHistory(w, e, existing, chain);
    assert h[|h| - 1] == e;
    if GoodHistory(w, k, h) { GoodHistoryHead(w, k, h); }
    if existing.Some? { UpgradeKind(w, k, existing.value, e); }
    var s := ValidateTransition(w, k, e, existing, chain);
    if IdentityOverwrite(w, k, e, existing, chain).Some? {
      TransitionKind(w, k, e, existing, chain, s.value);
      var current, anchor := TransitionIsUpdate(w, k, e, existing, chain, s.value);
      UpdateKeepsEnvelope(w, k, e, current, anchor, s.value);
      CandidateDecodes(w, e, DecodeCandidate(w, e).value);
    }
  }
}
