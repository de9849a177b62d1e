/** Theorems about Provider records: reading back a write, and every run of accepted writes. */
module ProviderRuns {
  import opened Basics
  import opened Cbor
  import opened Schema
  import opened Verification
  import opened Lineage
  import opened RecordValidator

  // ---------- write/read agreement ----------

  /** The proofs also satisfy the Signer Set the envelope itself carries. */
  predicate OwnQuorum(w: Wire, e: Bytes) {
    match DecodeCandidate(w, e)
    case None => false
    case Some(c) => ThresholdProofs(w, c.update, c.proofs, c.auth.signers, c.auth.threshold)
  }

  predicate InstallsSigners(w: Wire, e: Bytes) {
    DecodeCandidate(w, e).Some? && DecodeCandidate(w, e).value.auth.operation == REPLACE_SIGNERS
  }

  /** A new 2-of-3 set in a later epoch, authorised by the set it replaces. */
  predicate Replaces(w: Wire, c: Candidate, s: State) {
    && c.auth.epoch > s.epoch && CompleteTwoOfThree(c.auth) && c.auth.signers != s.signers
    && ThresholdProofs(w, c.update, c.proofs, s.signers, s.threshold)
  }

  /** What a transition says about the envelope it accepted and the one before it. */
  lemma TransitionStep(w: Wire, k: Bytes, e: Bytes, existing: Option<Bytes>, s: State)
    requires Sound(w) && ValidateTransition(w, k, e, existing, None) == Some(s)
    ensures DecodeCandidate(w, e).Some?
    ensures var c := DecodeCandidate(w, e).value;
            && c.recordKey == k && BodyOf(w, e) == Some(c.body) && w.looseUpdate(e) == Some(c.update)
            && s.update == c.update && s.signers == c.auth.signers && s.hash == w.sha256(c.update)
            && s.owner == OwnerOf(c.auth.kind, c.body.fields)
            && match existing
               case None => c.auth.operation == GENESIS && ValidateGenesis(w, k, e).Some?
               case Some(x) =>
                 if w.isMultisignature(x)
                 then && ValidateEnvelope(w, k, x).Some?
                      && CommonTransition(w, k, c, ValidateEnvelope(w, k, x).value)
                      && (c.auth.operation == REPLACE_SIGNERS || c.auth.operation == ORDINARY_UPDATE)
                      && (c.auth.operation == ORDINARY_UPDATE ==> KeepsSigners(w, c, ValidateEnvelope(w, k, x).value))
                      && (c.auth.operation == ORDINARY_UPDATE && c.auth.kind == PROVIDER ==>
                            !IsWithdrawn(PayloadOf(w, ValidateEnvelope(w, k, x).value.update)))
                      && (c.auth.operation == REPLACE_SIGNERS ==> Replaces(w, c, ValidateEnvelope(w, k, x).value))
                 else && DecodeLegacyState(w, k, x).Some?
                      && (c.auth.operation == UPGRADE || c.auth.operation == OWNER_KEY_ROTATION)
                      && (c.auth.operation == UPGRADE ==> ValidateUpgrade(w, k, e, x).Some?)
                      && (c.auth.operation == OWNER_KEY_ROTATION ==> c.auth.kind == IDENTITY)
  {
    var c := DecodeCandidate(w, e).value;
    CandidateDecodes(w, e, c);
  }

  /** A single-key update whose fields read as an Identity: a name and an owner key. */
  predicate IdentityShaped(w: Wire, e: Bytes) {
    && DecodeLegacy(w, e).Some?
    && IsBytes(Lookup(DecodeLegacy(w, e).value.0.fields, 1)) && IsBytes(Lookup(DecodeLegacy(w, e).value.0.fields, 2))
  }

  /** An Identity carries no Provider payload, so the Provider path never accepts one. */
  lemma OnlyProviderPayloads(w: Wire, k: Bytes, e: Bytes, existing: Option<Bytes>) returns (c: Candidate)
    requires Sound(w) && w.isMultisignature(e) && ProviderOverwrite(w, k, e, existing).Some?
    ensures DecodeCandidate(w, e) == Some(c) && c.auth.kind == PROVIDER
    ensures w.signedUpdate(c.update) == Some(c.body) && c.body.auth == Some(c.auth)
    ensures KindBinding(w.providerPayload, c.body, PROVIDER)
    ensures ValidateTransition(w, k, e, existing, None).Some?
  {
    c := DecodeCandidate(w, e).value;
    CandidateDecodes(w, e, c);
    var s := ValidateTransition(w, k, e, existing, None).value;
    TransitionStep(w, k, e, existing, s);
  }

  lemma ActiveReadBack(w: Wire, k: Bytes, e: Bytes, existing: Option<Bytes>, r: ProviderResult)
    requires Sound(w) && w.isMultisignature(e) && r.payload.Active?
    requires ProviderOverwrite(w, k, e, existing) == Some(r)
    ensures ProviderGet(w, k, e, existing) == if InstallsSigners(w, e) && !OwnQuorum(w, e) then None else Some(r)
  {
    var s := ValidateTransition(w, k, e, existing, None).value;
    TransitionStep(w, k, e, existing, s);
    var c := OnlyProviderPayloads(w, k, e, existing);
    if c.auth.operation == UPGRADE {
      var l := DecodeLegacyState(w, k, existing.value).value;
      assert l.owner == OwnerOf(PROVIDER, c.body.fields);
    }
  }

  /**
   Provider write/read agreement: an accepted write reads back with the same predecessor and
   the same result, except a replacement whose proofs miss the quorum of its own new set.
   */
  lemma ProviderWriteReadAgree(w: Wire, k: Bytes, e: Bytes, existing: Option<Bytes>, r: ProviderResult)
    requires Sound(w) && ProviderOverwrite(w, k, e, existing) == Some(r)
    ensures ProviderGet(w, k, e, existing)
            == if w.isMultisignature(e) && r.payload.Active? && InstallsSigners(w, e) && !OwnQuorum(w, e)
               then None else Some(r)
  {
    if w.isMultisignature(e) {
      if r.payload.Active? {
        ActiveReadBack(w, k, e, existing, r);
      } else {
        var s := ValidateTransition(w, k, e, existing, None).value;
        TransitionStep(w, k, e, existing, s);
        var c := OnlyProviderPayloads(w, k, e, existing);
      }
    }
  }

  // ---------- runs ----------

  function HeadBefore(es: seq<Bytes>, i: nat): Option<Bytes>
    requires i < |es|
  {
    if i == 0 then None else Some(es[i - 1])
  }

  /** Accepted writes, each made against the one before it and the first against nothing. */
  ghost predicate Run(w: Wire, k: Bytes, es: seq<Bytes>) {
    forall i :: 0 <= i < |es| ==> ProviderOverwrite(w, k, es[i], HeadBefore(es, i)).Some?
  }

  function PayloadAt(w: Wire, e: Bytes): Option<ProviderPayload> {
    match BodyOf(w, e) case None => None case Some(u) => w.providerPayload(u.payload)
  }

  function ProviderOwnerAt(w: Wire, e: Bytes): Option<Bytes> {
    match BodyOf(w, e) case None => None case Some(u) => BytesOf(Lookup(u.fields, 1))
  }

  /** The payload names the object of this lookup key. */
  predicate NamesObject(w: Wire, k: Bytes, e: Bytes) {
    PayloadAt(w, e).Some? && FromHex(PayloadAt(w, e).value.objectHash) == Some(k)
  }

  /** A head some accepted write left behind. */
  ghost predicate ProviderHead(w: Wire, k: Bytes, e: Bytes) {
    && BodyOf(w, e).Some? && ProviderOwnerAt(w, e).Some? && PayloadAt(w, e).Some?
    && (!IdentityShaped(w, e) ==> NamesObject(w, k, e))
    && (if w.isMultisignature(e) then w.multisignature(e).Some?
        else DecodeLegacy(w, e).Some? && BodyOf(w, e) == Some(DecodeLegacy(w, e).value.0))
  }

  /** One accepted write against the head before it. */
  ghost predicate ProviderStep(w: Wire, x: Bytes, e: Bytes) {
    && SeqAt(w, x) < SeqAt(w, e)
    && (!IdentityShaped(w, e) ==> ProviderOwnerAt(w, x) == ProviderOwnerAt(w, e))
    && !(IsWithdrawn(PayloadAt(w, x)) && IsWithdrawn(PayloadAt(w, e)))
    && (w.isMultisignature(x) ==> w.isMultisignature(e))
    && (w.isMultisignature(x) && IsWithdrawn(PayloadAt(w, x)) ==>
          OperationAt(w, e) == REPLACE_SIGNERS && IsActive(PayloadAt(w, e)))
  }

  /** A verified single-key update: whose owner and seq are compared with the record it replaces. */
  lemma LegacyHead(w: Wire, k: Bytes, e: Bytes, prev: Option<SeqEntry>)
    requires Sound(w) && ValidateLegacyUpdate(w, k, e, prev).Some?
    requires ProviderOwnerAt(w, e).Some? && PayloadAt(w, e).Some?
    ensures ProviderHead(w, k, e) && !w.isMultisignature(e)
    ensures IdentityShaped(w, e) ==> OwnerAt(w, e).Some? && NameAt(w, e).Some? && w.sha256(NameAt(w, e).value) == k
    ensures var owner := if IdentityShaped(w, e) then OwnerAt(w, e) else ProviderOwnerAt(w, e);
            SeqAndOwnerHold(prev, owner.value, SeqAt(w, e))
  {
  }

  /**
   What a single-key write over a readable single-key record keeps.  It keeps the owner unless it
   reads as an Identity under another name, and it names the object of the lookup key unless it
   reads as an Identity with an active payload, whose object is never compared with the key.
   */
  lemma LegacyWriteKeepsExactly(w: Wire, k: Bytes, x: Bytes, e: Bytes)
    requires Sound(w) && !w.isMultisignature(e) && ProviderOverwrite(w, k, e, Some(x)).Some?
    requires PreviousEntry(w, Some(x), 1).Some?
    ensures ProviderOwnerAt(w, e) == ProviderOwnerAt(w, x) <==> !IdentityShaped(w, e) || NameAt(w, e) == OwnerAt(w, e)
    ensures !IdentityShaped(w, e) || IsWithdrawn(PayloadAt(w, e)) ==> NamesObject(w, k, e)
    ensures IdentityShaped(w, e) ==> w.sha256(NameAt(w, e).value) == k && OwnerAt(w, e) == ProviderOwnerAt(w, x)
  {
    LegacyHead(w, k, e, PreviousEntry(w, Some(x), 1));
    assert PreviousEntry(w, Some(x), 1) == Some(SeqEntry(ProviderOwnerAt(w, x).value, SeqAt(w, x)));
  }

  lemma MultisignatureHead(w: Wire, k: Bytes, e: Bytes, c: Candidate)
    requires Sound(w) && DecodeCandidate(w, e) == Some(c) && c.auth.kind == PROVIDER && c.recordKey == k
    ensures ProviderHead(w, k, e) && ProviderOwnerAt(w, e) == Some(OwnerOf(PROVIDER, c.body.fields))
    ensures PayloadAt(w, e) == w.providerPayload(c.body.payload) && SeqAt(w, e) == c.body.seqNo
    ensures OperationAt(w, e) == c.auth.operation
  {
    CandidateDecodes(w, e, c);
  }

  lemma FirstWrite(w: Wire, k: Bytes, e: Bytes)
    requires Sound(w) && ProviderOverwrite(w, k, e, None).Some?
    ensures ProviderHead(w, k, e) && IsActive(PayloadAt(w, e))
  {
    if w.isMultisignature(e) {
      var c := OnlyProviderPayloads(w, k, e, None);
      TransitionStep(w, k, e, None, ValidateTransition(w, k, e, None, None).value);
      MultisignatureHead(w, k, e, c);
    } else {
      LegacyHead(w, k, e, None);
    }
  }

  lemma NextWriteOnMultisignature(w: Wire, k: Bytes, x: Bytes, e: Bytes, s: State)
    requires Sound(w) && w.isMultisignature(x) && ProviderHead(w, k, x)
    requires ValidateTransition(w, k, e, Some(x), None) == Some(s)
    requires DecodeCandidate(w, e).Some? && DecodeCandidate(w, e).value.auth.kind == PROVIDER
    ensures ProviderHead(w, k, e) && (w.isMultisignature(e) ==> ProviderStep(w, x, e))
  {
    TransitionStep(w, k, e, Some(x), s);
    var c, d := DecodeCandidate(w, e).value, DecodeCandidate(w, x).value;
    MultisignatureHead(w, k, e, c);
    CandidateDecodes(w, x, d);
    MultisignatureHead(w, k, x, d);
  }

  lemma NextWriteOnLegacy(w: Wire, k: Bytes, x: Bytes, e: Bytes, s: State)
    requires Sound(w) && !w.isMultisignature(x) && ProviderHead(w, k, x)
    requires ValidateTransition(w, k, e, Some(x), None) == Some(s)
    requires DecodeCandidate(w, e).Some? && DecodeCandidate(w, e).value.auth.kind == PROVIDER
    requires IsActive(PayloadAt(w, e))
    ensures ProviderHead(w, k, e) && ProviderStep(w, x, e)
  {
    TransitionStep(w, k, e, Some(x), s);
    var c, l := DecodeCandidate(w, e).value, DecodeLegacyState(w, k, x).value;
    MultisignatureHead(w, k, e, c);
    LegacyDecodes(w, k, x, l);
  }

  lemma NextLegacyWrite(w: Wire, k: Bytes, x: Bytes, e: Bytes)
    requires Sound(w) && !w.isMultisignature(x) && !w.isMultisignature(e) && ProviderHead(w, k, x)
    requires ProviderOverwrite(w, k, e, Some(x)).Some?
    ensures ProviderHead(w, k, e) && ProviderStep(w, x, e)
  {
    LegacyHead(w, k, e, PreviousEntry(w, Some(x), 1));
    assert PreviousEntry(w, Some(x), 1) == Some(SeqEntry(ProviderOwnerAt(w, x).value, SeqAt(w, x)));
  }

  lemma NextWrite(w: Wire, k: Bytes, x: Bytes, e: Bytes)
    requires Sound(w) && ProviderHead(w, k, x) && ProviderOverwrite(w, k, e, Some(x)).Some?
    ensures ProviderHead(w, k, e) && ProviderStep(w, x, e)
  {
    if !w.isMultisignature(e) {
      NextLegacyWrite(w, k, x, e);
    } else {
      var c := OnlyProviderPayloads(w, k, e, Some(x));
      var s := ValidateTransition(w, k, e, Some(x), None).value;
      if w.isMultisignature(x) {
        NextWriteOnMultisignature(w, k, x, e, s);
      } else {
        MultisignatureHead(w, k, e, c);
        NextWriteOnLegacy(w, k, x, e, s);
      }
    }
  }

  lemma {:induction false} RunHeads(w: Wire, k: Bytes, es: seq<Bytes>, i: nat)
    requires Sound(w) && Run(w, k, es) && i < |es|
    ensures ProviderHead(w, k, es[i])
    ensures if i == 0 then IsActive(PayloadAt(w, es[0])) else ProviderStep(w, es[i - 1], es[i])
    decreases i
  {
    hide ProviderOverwrite, ProviderHead, ProviderStep;
    assert ProviderOverwrite(w, k, es[i], HeadBefore(es, i)).Some?;
    if i == 0 {
      FirstWrite(w, k, es[0]);
    } else {
      RunHeads(w, k, es, i - 1);
      NextWrite(w, k, es[i - 1], es[i]);
    }
  }

  /**
   Over a whole run: seq strictly increases, multisignature states are never left for single-key
   ones, and the owner stays for as long as no single-key update reads as an Identity.
   */
  lemma {:induction false} RunOrder(w: Wire, k: Bytes, es: seq<Bytes>, i: nat, j: nat)
    requires Sound(w) && Run(w, k, es) && i < j < |es|
    ensures SeqAt(w, es[i]) < SeqAt(w, es[j])
    ensures (forall m :: i < m <= j ==> !IdentityShaped(w, es[m])) ==>
              ProviderOwnerAt(w, es[i]) == ProviderOwnerAt(w, es[j])
    ensures w.isMultisignature(es[i]) ==> w.isMultisignature(es[j])
    decreases j
  {
    hide ProviderOverwrite, ProviderHead, SeqAt, ProviderOwnerAt, PayloadAt, OperationAt, Sound, IdentityShaped;
    RunHeads(w, k, es, j);
    if i == j - 1 {
    } else {
      RunOrder(w, k, es, i, j - 1);
    }
  }

  /**
   Every state of a run names the run's object, unless it reads as an Identity; the first is
   active, a withdrawn one is followed by an active one, and a multisignature tombstone only by a
   signer replacement.
   */
  lemma RunPayloads(w: Wire, k: Bytes, es: seq<Bytes>, i: nat)
    requires Sound(w) && Run(w, k, es) && i < |es|
    ensures PayloadAt(w, es[i]).Some? && (!IdentityShaped(w, es[i]) ==> NamesObject(w, k, es[i]))
    ensures i == 0 ==> IsActive(PayloadAt(w, es[i]))
    ensures i > 0 && IsWithdrawn(PayloadAt(w, es[i - 1])) ==>
              && IsActive(PayloadAt(w, es[i]))
              && (w.isMultisignature(es[i - 1]) ==> OperationAt(w, es[i]) == REPLACE_SIGNERS)
  {
    RunHeads(w, k, es, i);
  }

  /** A record whose last update reads as an Identity can only take further single-key writes. */
  lemma IdentityShapedIsNotUpgraded(w: Wire, k: Bytes, x: Bytes, e: Bytes)
    requires Sound(w) && IdentityShaped(w, x) && ProviderOverwrite(w, k, e, Some(x)).Some?
    ensures !w.isMultisignature(e)
  {
    if w.isMultisignature(e) {
      var c := OnlyProviderPayloads(w, k, e, Some(x));
      TransitionStep(w, k, e, Some(x), ValidateTransition(w, k, e, Some(x), None).value);
    }
  }

  /** How an accepted Provider write is authorised by the multisignature state before it. */
  ghost predicate AuthorizedBy(w: Wire, before: Authorization, hash: Bytes, e: Bytes) {
    && BodyOf(w, e).Some? && BodyOf(w, e).value.auth.Some?
    && var next := BodyOf(w, e).value.auth.value;
       && next.predecessor == hash
       && |SigningKeys(w, before.signers, UpdateAt(w, e))| >= before.threshold
       && (if next.operation == REPLACE_SIGNERS
           then next.epoch > before.epoch && TwoOfThree(next) && next.signers != before.signers
           else && next.operation == ORDINARY_UPDATE && next.epoch == before.epoch
                && next.threshold == before.threshold && next.signers == before.signers)
  }

  lemma NextWriteIsAuthorized(w: Wire, k: Bytes, x: Bytes, e: Bytes)
    requires Sound(w) && w.isMultisignature(x) && w.isMultisignature(e)
    requires ProviderOverwrite(w, k, e, Some(x)).Some?
    ensures BodyOf(w, x).Some? && BodyOf(w, x).value.auth.Some?
    ensures AuthorizedBy(w, BodyOf(w, x).value.auth.value, w.sha256(UpdateAt(w, x)), e)
  {
    hide CommonTransition;
    var c := OnlyProviderPayloads(w, k, e, Some(x));
    TransitionStep(w, k, e, Some(x), ValidateTransition(w, k, e, Some(x), None).value);
    var s, d := ValidateEnvelope(w, k, x).value, DecodeCandidate(w, x).value;
    CandidateDecodes(w, x, d);
    CandidateDecodes(w, e, c);
    assert CommonTransition(w, k, c, s) ==> c.auth.predecessor == s.hash by { PredecessorIsHash(w, k, c, s); }
    ThresholdProofsAreAQuorum(w, c.update, c.proofs, s.signers, s.threshold);
  }

  lemma PredecessorIsHash(w: Wire, k: Bytes, c: Candidate, s: State)
    ensures CommonTransition(w, k, c, s) ==> c.auth.predecessor == s.hash
  {
  }

  /** Every step of a run off a multisignature state carries a quorum of that state's Signer Set. */
  lemma RunAuthorization(w: Wire, k: Bytes, es: seq<Bytes>, i: nat)
    requires Sound(w) && Run(w, k, es) && 0 < i < |es| && w.isMultisignature(es[i - 1])
    ensures BodyOf(w, es[i - 1]).Some? && BodyOf(w, es[i - 1]).value.auth.Some?
    ensures AuthorizedBy(w, BodyOf(w, es[i - 1]).value.auth.value, w.sha256(UpdateAt(w, es[i - 1])), es[i])
  {
    hide ProviderOverwrite, ProviderHead, AuthorizedBy;
    RunOrder(w, k, es, i - 1, i);
    assert ProviderOverwrite(w, k, es[i], HeadBefore(es, i)).Some?;
    NextWriteIsAuthorized(w, k, es[i - 1], es[i]);
  }

  /** An envelope accepted on its own is signed by a quorum of its own set or, for an upgrade, by its owner. */
  lemma StandaloneAuthorization(w: Wire, k: Bytes, e: Bytes, s: State)
    requires Sound(w) && ValidateEnvelope(w, k, e) == Some(s)
    ensures s.recordKey == k && s.hash == w.sha256(s.update) && w.looseUpdate(e) == Some(s.update)
    ensures if OperationAt(w, e) == UPGRADE
            then SignedBy(w, s.owner, s.update) && s.owner in MemberKeys(s.signers) && s.epoch == 1 && s.threshold == 2
            else |SigningKeys(w, s.signers, s.update)| >= s.threshold
    ensures s.kind == IDENTITY ==> OperationAt(w, e) == GENESIS
  {
    var c := DecodeCandidate(w, e).value;
    CandidateDecodes(w, e, c);
    if c.auth.operation == UPGRADE {
      OwnerIsMember(c.auth.signers, s.owner);
      assert Verifies(w, s.owner, s.update, c.proofs[0].signature);
    } else {
      ThresholdProofsAreAQuorum(w, c.update, c.proofs, c.auth.signers, c.auth.threshold);
    }
  }
}
