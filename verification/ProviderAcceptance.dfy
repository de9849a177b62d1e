/**
 Which Provider writes and reads are accepted, with the result of each, said without the
 validators; and the signatures under every single-key state of a run.
 */
module ProviderAcceptance {
  import opened Basics
  import opened Schema
  import opened Verification
  import opened Lineage
  import opened RecordValidator
  import opened ProviderRuns
  import opened Acceptance

  // ---------- envelopes judged on their own ----------

  /** An envelope good on its own: a genesis, an upgrade by its own owner, or one with a quorum of its own set. */
  predicate Standalone(w: Wire, k: Bytes, e: Bytes) {
    && Authorized(w, e)
    && var a := AuthAt(w, e);
       && RecordUnder(w, k, BodyOf(w, e).value, a.kind)
       && if a.operation == GENESIS then GenesisRecord(w, k, e, a.kind)
          else
            && a.kind == PROVIDER && a.operation != OWNER_KEY_ROTATION
            && if a.operation == UPGRADE
               then && a.epoch == 1 && a.threshold == 2 && |a.signers| == 3
                    && OneOwnerProof(w, e, OwnerName(BodyOf(w, e).value).value)
               else ThresholdProofs(w, UpdateAt(w, e), ProofsAt(w, e), a.signers, a.threshold)
  }

  lemma StandaloneExactly(w: Wire, k: Bytes, e: Bytes)
    requires Sound(w)
    ensures ValidateEnvelope(w, k, e).Some? <==> Standalone(w, k, e)
    ensures ValidateEnvelope(w, k, e).Some? ==> ValidateEnvelope(w, k, e).value == StateAt(w, k, e, [e])
  {
    hide ThresholdProofs, RecordUnder, ValidateGenesis, SignerIdForKey, Verifies;
    CandidateExactly(w, k, e);
    GenesisExactly(w, k, e);
    OwnerIsNamed(w, k, e);
  }

  lemma OwnerIsNamed(w: Wire, k: Bytes, e: Bytes)
    ensures forall kind :: Authorized(w, e) && RecordUnder(w, k, BodyOf(w, e).value, kind) ==>
              OwnerAs(kind, BodyOf(w, e).value).Some? && OwnerName(BodyOf(w, e).value).Some?
  {
  }

  // ---------- steps off a multisignature Provider state ----------

  /** `e` names the state of `x`, keeps its owner, has a later seq, and is signed by a quorum of its set. */
  predicate Succeeds(w: Wire, k: Bytes, x: Bytes, e: Bytes) {
    && Standalone(w, k, x) && AuthAt(w, x).kind == PROVIDER
    && Authorized(w, e) && AuthAt(w, e).kind == PROVIDER && RecordUnder(w, k, BodyOf(w, e).value, PROVIDER)
    && var u, v, a, b := BodyOf(w, x).value, BodyOf(w, e).value, AuthAt(w, x), AuthAt(w, e);
       && OwnerName(v) == OwnerName(u) && v.seqNo > u.seqNo && b.predecessor == w.sha256(UpdateAt(w, x))
       && ThresholdProofs(w, UpdateAt(w, e), ProofsAt(w, e), a.signers, a.threshold)
       && !(IsWithdrawn(PayloadAt(w, x)) && IsWithdrawn(PayloadAt(w, e)))
       && ((b.operation == ORDINARY_UPDATE
            && !IsWithdrawn(PayloadAt(w, x)) && (b.epoch, b.threshold, b.signers) == (a.epoch, a.threshold, a.signers))
           || (b.operation == REPLACE_SIGNERS
               && b.epoch > a.epoch && b.threshold == 2 && |b.signers| == 3 && b.signers != a.signers))
  }

  /** A multisignature envelope that may be written over `existing`: only a successor may withdraw. */
  predicate Replaceable(w: Wire, k: Bytes, e: Bytes, existing: Option<Bytes>) {
    match existing
    case None => GenesisRecord(w, k, e, PROVIDER) && IsActive(PayloadAt(w, e))
    case Some(x) =>
      if w.isMultisignature(x) then Succeeds(w, k, x, e)
      else UpgradeRecord(w, k, x, e, PROVIDER) && IsActive(PayloadAt(w, e))
  }

  /** What a write or a read of an accepted Provider envelope returns. */
  function ProviderRecord(w: Wire, e: Bytes, existing: Option<Bytes>): ProviderResult
    requires BodyOf(w, e).Some? && OwnerName(BodyOf(w, e).value).Some? && PayloadAt(w, e).Some?
  {
    var u, p := BodyOf(w, e).value, PayloadAt(w, e).value;
    ProviderResult(
      p, OwnerName(u).value, u.seqNo,
      if !Authorized(w, e) then None
      else var a := AuthAt(w, e);
           Some(Metadata(a.operation, a.epoch, a.threshold, a.signers, a.predecessor, w.sha256(UpdateAt(w, e)))),
      if p.Withdrawn? then existing else None)
  }

  lemma UpdateSucceeds(w: Wire, k: Bytes, x: Bytes, e: Bytes)
    requires Sound(w) && Standalone(w, k, x) && Authorized(w, e) && AuthAt(w, e).kind == PROVIDER
    ensures ValidateUpdate(w, k, e, Some(StateAt(w, k, x, [x])), None).Some? <==> Succeeds(w, k, x, e)
    ensures var t := ValidateUpdate(w, k, e, Some(StateAt(w, k, x, [x])), None);
            t.Some? ==> t.value == StateAt(w, k, e, [e])
  {
    hide ThresholdProofs, SignerIdForKey, Verifies, RecordUnder, GenesisRecord;
    CandidateExactly(w, k, e);
    CandidateExactly(w, k, x);
    OwnerIsNamed(w, k, e);
    OwnerIsNamed(w, k, x);
    UnderHasPayload(w, k, e);
    UnderHasPayload(w, k, x);
  }

  lemma UnderHasPayload(w: Wire, k: Bytes, e: Bytes)
    requires Sound(w)
    ensures Authorized(w, e) && RecordUnder(w, k, BodyOf(w, e).value, PROVIDER) ==> PayloadAt(w, e).Some?
    ensures Authorized(w, e) ==> PayloadOf(w, UpdateAt(w, e)) == PayloadAt(w, e)
  {
  }

  lemma UpgradeTransition(w: Wire, k: Bytes, e: Bytes, x: Bytes)
    requires Sound(w) && Authorized(w, e) && AuthAt(w, e).kind == PROVIDER && !w.isMultisignature(x)
    ensures ValidateTransition(w, k, e, Some(x), None).Some? <==> Replaceable(w, k, e, Some(x))
    ensures var s := ValidateTransition(w, k, e, Some(x), None); s.Some? ==> s.value == StateAt(w, k, e, [e])
  {
    hide UpgradeRecord, ValidateUpgrade, ValidateGenesis, DecodeLegacyState, RecordUnder, WellFormedAuthorization;
    CandidateExactly(w, k, e);
    UnderHasPayload(w, k, e);
    UpgradeExactly(w, k, e, x);
    UpgradeKind(w, k, x, e);
    assert StateAt(w, k, e, [x, e]) == StateAt(w, k, e, [e]);
    StepsDecode(w, k, x, e);
  }

  lemma StepsDecode(w: Wire, k: Bytes, x: Bytes, e: Bytes)
    ensures ValidateUpgrade(w, k, e, x).Some? || ValidateGenesis(w, k, e).Some? ==> DecodeCandidate(w, e).Some?
  {
  }

  lemma FirstTransition(w: Wire, k: Bytes, e: Bytes)
    requires Sound(w) && Authorized(w, e) && AuthAt(w, e).kind == PROVIDER
    ensures ValidateTransition(w, k, e, None, None).Some? <==> Replaceable(w, k, e, None)
    ensures var s := ValidateTransition(w, k, e, None, None); s.Some? ==> s.value == StateAt(w, k, e, [e])
  {
    hide GenesisRecord, ValidateGenesis, RecordUnder, WellFormedAuthorization;
    CandidateExactly(w, k, e);
    UnderHasPayload(w, k, e);
    GenesisExactly(w, k, e);
    AnchorKinds(w, k, e);
    GenesisOperation(w, k, e);
    StepsDecode(w, k, e, e);
  }

  lemma GenesisOperation(w: Wire, k: Bytes, e: Bytes)
    ensures GenesisRecord(w, k, e, PROVIDER) ==> AuthAt(w, e).operation == GENESIS && PayloadAt(w, e).Some?
  {
  }

  lemma SuccessorTransition(w: Wire, k: Bytes, e: Bytes, x: Bytes)
    requires Sound(w) && Authorized(w, e) && AuthAt(w, e).kind == PROVIDER && w.isMultisignature(x)
    ensures ValidateTransition(w, k, e, Some(x), None).Some? <==> Succeeds(w, k, x, e)
    ensures var s := ValidateTransition(w, k, e, Some(x), None); s.Some? ==> s.value == StateAt(w, k, e, [e])
  {
    hide ValidateUpdate, ValidateEnvelope, Standalone, RecordUnder, ThresholdProofs;
    UnderHasPayload(w, k, e);
    StandaloneExactly(w, k, x);
    if Standalone(w, k, x) {
      UpdateSucceeds(w, k, x, e);
      StandaloneDecodes(w, k, x);
    }
  }

  lemma StandaloneDecodes(w: Wire, k: Bytes, x: Bytes)
    requires Sound(w) && Standalone(w, k, x)
    ensures Authorized(w, x) && PayloadOf(w, UpdateAt(w, x)) == PayloadAt(w, x)
    ensures AuthAt(w, x).kind == PROVIDER ==> PayloadAt(w, x).Some?
  {
  }

  /** Which multisignature transitions of a Provider record are accepted. */
  lemma TransitionExactly(w: Wire, k: Bytes, e: Bytes, existing: Option<Bytes>)
    requires Sound(w) && Authorized(w, e) && AuthAt(w, e).kind == PROVIDER
    ensures ValidateTransition(w, k, e, existing, None).Some? <==> Replaceable(w, k, e, existing)
    ensures var s := ValidateTransition(w, k, e, existing, None); s.Some? ==> s.value == StateAt(w, k, e, [e])
  {
    hide ValidateUpdate, ValidateEnvelope, Standalone, Succeeds, StateAt;
    UnderHasPayload(w, k, e);
    match existing
    case None =>
      FirstTransition(w, k, e);
    case Some(x) =>
      if w.isMultisignature(x) {
        SuccessorTransition(w, k, e, x);
      } else {
        UpgradeTransition(w, k, e, x);
      }
  }

  // ---------- single-key Provider records ----------

  /** The single-key record being replaced, where its field 1 can be read, names this owner and has a smaller seq. */
  predicate FollowsOwner(w: Wire, existing: Option<Bytes>, owner: Bytes, seqNo: nat) {
    existing.Some? && w.legacy(existing.value).Some? && ProviderOwnerAt(w, existing.value).Some? ==>
      SeqAt(w, existing.value) < seqNo && ProviderOwnerAt(w, existing.value) == Some(owner)
  }

  /** A single-key withdrawal `e` of the signed, active single-key record `x` of the same owner and object. */
  predicate Withdraws(w: Wire, k: Bytes, x: Bytes, e: Bytes) {
    && w.legacy(x).Some? && ProviderOwnerAt(w, x).Some? && ProviderOwnerAt(w, x) == ProviderOwnerAt(w, e)
    && Verifies(w, ProviderOwnerAt(w, x).value, UpdateAt(w, x), w.legacy(x).value.signature)
    && IsActive(PayloadAt(w, x)) && NamesObject(w, k, e)
    && PayloadAt(w, x).value.objectHash == PayloadAt(w, e).value.objectHash && SeqAt(w, x) < SeqAt(w, e)
  }

  /** A signed single-key update with a Provider payload, withdrawn only against the record it withdraws. */
  predicate SignedProvider(w: Wire, k: Bytes, e: Bytes, existing: Option<Bytes>) {
    && (LegacyRecord(w, k, e, IDENTITY) || LegacyRecord(w, k, e, PROVIDER)) && PayloadAt(w, e).Some?
    && (IsActive(PayloadAt(w, e)) || (existing.Some? && Withdraws(w, k, existing.value, e)))
  }

  /** Whose owner key and which seq a single-key write must carry on. */
  predicate CarriesOn(w: Wire, e: Bytes, existing: Option<Bytes>) {
    && BodyOf(w, e).Some?
    && var u := BodyOf(w, e).value;
       && OwnerAs(LegacyKind(u), u).Some?
       && FollowsOwner(w, existing, OwnerAs(LegacyKind(u), u).value, u.seqNo)
  }

  lemma SignedNames(w: Wire, k: Bytes, e: Bytes, kind: nat)
    requires Sound(w) && LegacyRecord(w, k, e, kind)
    ensures BodyOf(w, e).Some? && OwnerName(BodyOf(w, e).value).Some? && BodyOf(w, e).value.auth.None?
    ensures var u := BodyOf(w, e).value; OwnerAs(LegacyKind(u), u).Some?
    ensures w.multisignature(e).None?
  {
  }

  lemma WithdrawsExactly(w: Wire, k: Bytes, x: Bytes, e: Bytes)
    requires Sound(w) && BodyOf(w, e).Some? && ProviderOwnerAt(w, e).Some? && PayloadAt(w, e).Some?
    ensures WithdrawsLegacy(w, k, x, ProviderOwnerAt(w, e).value, PayloadAt(w, e).value, SeqAt(w, e))
            <==> Withdraws(w, k, x, e)
  {
    hide FromHex;
  }

  lemma PreviousOwner(w: Wire, existing: Option<Bytes>, owner: Bytes, seqNo: nat)
    requires Sound(w)
    ensures SeqAndOwnerHold(PreviousEntry(w, existing, 1), owner, seqNo) <==> FollowsOwner(w, existing, owner, seqNo)
  {
  }

  // ---------- Provider writes and reads ----------

  ghost predicate ProviderWritable(w: Wire, k: Bytes, e: Bytes, existing: Option<Bytes>) {
    if w.isMultisignature(e) then
      Authorized(w, e) && AuthAt(w, e).kind == PROVIDER && Replaceable(w, k, e, existing)
    else
      && (existing.Some? ==> !w.isMultisignature(existing.value))
      && SignedProvider(w, k, e, existing) && CarriesOn(w, e, existing)
  }

  lemma WritableNames(w: Wire, k: Bytes, e: Bytes, existing: Option<Bytes>)
    requires Sound(w) && ProviderWritable(w, k, e, existing)
    ensures BodyOf(w, e).Some? && OwnerName(BodyOf(w, e).value).Some? && PayloadAt(w, e).Some?
  {
    hide ThresholdProofs, SignerIdForKey, FromHex;
  }

  lemma LegacyProviderWrite(w: Wire, k: Bytes, e: Bytes, existing: Option<Bytes>)
    requires Sound(w) && !w.isMultisignature(e)
    ensures ProviderOverwrite(w, k, e, existing).Some? <==> ProviderWritable(w, k, e, existing)
    ensures ProviderWritable(w, k, e, existing) ==>
              && BodyOf(w, e).Some? && OwnerName(BodyOf(w, e).value).Some? && PayloadAt(w, e).Some?
              && ProviderOverwrite(w, k, e, existing) == Some(ProviderRecord(w, e, existing))
  {
    hide WithdrawsLegacy, Withdraws, SeqAndOwnerHold, FollowsOwner, LegacyRecord, ValidateLegacyUpdate, PreviousEntry,
         LegacyKind;
    LegacyUpdateExactly(w, k, e, PreviousEntry(w, existing, 1));
    if LegacyRecord(w, k, e, IDENTITY) { SignedNames(w, k, e, IDENTITY); }
    if LegacyRecord(w, k, e, PROVIDER) { SignedNames(w, k, e, PROVIDER); }
    if LegacyRecord(w, k, e, IDENTITY) || LegacyRecord(w, k, e, PROVIDER) {
      var u := BodyOf(w, e).value;
      PreviousOwner(w, existing, OwnerAs(LegacyKind(u), u).value, u.seqNo);
      if existing.Some? && PayloadAt(w, e).Some? { WithdrawsExactly(w, k, existing.value, e); }
    }
  }

  lemma MultisignatureProviderWrite(w: Wire, k: Bytes, e: Bytes, existing: Option<Bytes>)
    requires Sound(w) && w.isMultisignature(e)
    ensures ProviderOverwrite(w, k, e, existing).Some? <==> ProviderWritable(w, k, e, existing)
    ensures ProviderWritable(w, k, e, existing) ==>
              && BodyOf(w, e).Some? && OwnerName(BodyOf(w, e).value).Some? && PayloadAt(w, e).Some?
              && ProviderOverwrite(w, k, e, existing) == Some(ProviderRecord(w, e, existing))
  {
    hide ValidateTransition, Replaceable, Standalone;
    if ProviderOverwrite(w, k, e, existing).Some? {
      var c := OnlyProviderPayloads(w, k, e, existing);
      assert Authorized(w, e) && AuthAt(w, e).kind == PROVIDER;
    }
    if Authorized(w, e) && AuthAt(w, e).kind == PROVIDER {
      TransitionExactly(w, k, e, existing);
      if Replaceable(w, k, e, existing) {
        WritableNames(w, k, e, existing);
        if !IsActive(PayloadAt(w, e)) { OnlySuccessorsWithdraw(w, k, e, existing); }
      }
    }
  }

  /** A multisignature withdrawal always follows an active state of the same owner. */
  lemma OnlySuccessorsWithdraw(w: Wire, k: Bytes, e: Bytes, existing: Option<Bytes>)
    requires Sound(w) && Replaceable(w, k, e, existing) && Authorized(w, e) && !IsActive(PayloadAt(w, e))
    requires PayloadAt(w, e).Some?
    ensures existing.Some? && w.isMultisignature(existing.value) && Authorized(w, existing.value)
    ensures var x := existing.value;
            && PayloadOf(w, UpdateAt(w, x)) == PayloadAt(w, x) && IsActive(PayloadAt(w, x))
            && OwnerName(BodyOf(w, x).value) == OwnerName(BodyOf(w, e).value)
            && BodyOf(w, x).value.seqNo < BodyOf(w, e).value.seqNo
  {
    hide ThresholdProofs, GenesisRecord, UpgradeRecord, Standalone;
    StandaloneDecodes(w, k, existing.value);
  }

  /** Which Provider writes are accepted, and the result of each. */
  lemma ProviderWriteExactly(w: Wire, k: Bytes, e: Bytes, existing: Option<Bytes>)
    requires Sound(w)
    ensures ProviderWritable(w, k, e, existing) ==>
              BodyOf(w, e).Some? && OwnerName(BodyOf(w, e).value).Some? && PayloadAt(w, e).Some?
    ensures ProviderOverwrite(w, k, e, existing) ==
            if ProviderWritable(w, k, e, existing) then Some(ProviderRecord(w, e, existing)) else None
  {
    hide ProviderOverwrite, ProviderWritable;
    if w.isMultisignature(e) {
      MultisignatureProviderWrite(w, k, e, existing);
    } else {
      LegacyProviderWrite(w, k, e, existing);
    }
  }

  /** An active state is read on its own, a withdrawn one against the record it withdrew. */
  ghost predicate ProviderReadable(w: Wire, k: Bytes, e: Bytes, existing: Option<Bytes>) {
    if w.isMultisignature(e) then
      && Authorized(w, e) && PayloadAt(w, e).Some?
      && if IsActive(PayloadAt(w, e)) then Standalone(w, k, e)
         else existing.Some? && AuthAt(w, e).kind == PROVIDER && Replaceable(w, k, e, existing)
    else SignedProvider(w, k, e, existing)
  }

  lemma LegacyProviderRead(w: Wire, k: Bytes, e: Bytes, existing: Option<Bytes>)
    requires Sound(w) && !w.isMultisignature(e)
    ensures ProviderGet(w, k, e, existing).Some? <==> ProviderReadable(w, k, e, existing)
    ensures ProviderReadable(w, k, e, existing) ==>
              && BodyOf(w, e).Some? && OwnerName(BodyOf(w, e).value).Some? && PayloadAt(w, e).Some?
              && ProviderGet(w, k, e, existing) == Some(ProviderRecord(w, e, existing))
  {
    hide WithdrawsLegacy, Withdraws, LegacyRecord, ValidateLegacyUpdate, LegacyKind;
    LegacyUpdateExactly(w, k, e, None);
    if LegacyRecord(w, k, e, IDENTITY) { SignedNames(w, k, e, IDENTITY); }
    if LegacyRecord(w, k, e, PROVIDER) { SignedNames(w, k, e, PROVIDER); }
    if LegacyRecord(w, k, e, IDENTITY) || LegacyRecord(w, k, e, PROVIDER) {
      if existing.Some? && PayloadAt(w, e).Some? { WithdrawsExactly(w, k, existing.value, e); }
    }
  }

  lemma MultisignatureProviderRead(w: Wire, k: Bytes, e: Bytes, existing: Option<Bytes>)
    requires Sound(w) && w.isMultisignature(e)
    ensures ProviderGet(w, k, e, existing).Some? <==> ProviderReadable(w, k, e, existing)
    ensures ProviderReadable(w, k, e, existing) ==>
              && BodyOf(w, e).Some? && OwnerName(BodyOf(w, e).value).Some? && PayloadAt(w, e).Some?
              && ProviderGet(w, k, e, existing) == Some(ProviderRecord(w, e, existing))
  {
    hide ValidateTransition, ValidateEnvelope, Replaceable, Standalone;
    if Authorized(w, e) && PayloadAt(w, e).Some? {
      PayloadMeansProvider(w, e);
      StandaloneExactly(w, k, e);
      TransitionExactly(w, k, e, existing);
      if Standalone(w, k, e) { StandaloneNames(w, k, e); }
      if Replaceable(w, k, e, existing) { WritableNames(w, k, e, existing); }
    }
  }

  lemma PayloadMeansProvider(w: Wire, e: Bytes)
    requires Sound(w) && Authorized(w, e) && PayloadAt(w, e).Some?
    ensures AuthAt(w, e).kind == PROVIDER
  {
  }

  lemma StandaloneNames(w: Wire, k: Bytes, e: Bytes)
    requires Standalone(w, k, e)
    ensures OwnerName(BodyOf(w, e).value).Some?
  {
  }

  /** Which Provider reads succeed, and what each returns. */
  lemma ProviderReadExactly(w: Wire, k: Bytes, e: Bytes, existing: Option<Bytes>)
    requires Sound(w)
    ensures ProviderReadable(w, k, e, existing) ==>
              BodyOf(w, e).Some? && OwnerName(BodyOf(w, e).value).Some? && PayloadAt(w, e).Some?
    ensures ProviderGet(w, k, e, existing) ==
            if ProviderReadable(w, k, e, existing) then Some(ProviderRecord(w, e, existing)) else None
  {
    hide ProviderGet, ProviderReadable;
    if w.isMultisignature(e) {
      MultisignatureProviderRead(w, k, e, existing);
    } else {
      LegacyProviderRead(w, k, e, existing);
    }
  }

  /** Every single-key state of a run carries a valid signature of the owner key it is judged by. */
  lemma RunSignatures(w: Wire, k: Bytes, es: seq<Bytes>, i: nat)
    requires Sound(w) && Run(w, k, es) && i < |es| && !w.isMultisignature(es[i])
    ensures w.legacy(es[i]).Some? && ProviderOwnerAt(w, es[i]).Some?
    ensures var owner := if IdentityShaped(w, es[i]) then OwnerAt(w, es[i]) else ProviderOwnerAt(w, es[i]);
            owner.Some? && w.ed25519(owner.value, w.sha256(UpdateAt(w, es[i])), w.legacy(es[i]).value.signature)
  {
    hide ProviderOverwrite, Withdraws, FollowsOwner;
    assert ProviderOverwrite(w, k, es[i], HeadBefore(es, i)).Some?;
    ProviderWriteExactly(w, k, es[i], HeadBefore(es, i));
  }
}
