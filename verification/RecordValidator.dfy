/**
 record_validator.py: what a write or a read of one record must satisfy, for legacy and
 multisignature envelopes.  None stands for a raised error.
 */
module RecordValidator {
  import opened Basics
  import opened Cbor
  import opened Schema
  import opened Verification
  import opened Lineage

  datatype Metadata = Metadata(
    operation: nat, epoch: nat, threshold: nat, signers: seq<Signer>, predecessor: Bytes, hash: Bytes)

  datatype IdentityResult = IdentityResult(
    recordKey: Bytes, name: Bytes, owner: Bytes, seqNo: nat, auth: Option<Metadata>, state: Option<State>)

  datatype ProviderResult = ProviderResult(
    payload: ProviderPayload, owner: Bytes, seqNo: nat, auth: Option<Metadata>, predecessor: Option<Bytes>)

  function MetadataOf(s: State, a: Authorization): Metadata {
    Metadata(a.operation, a.epoch, a.threshold, s.signers, a.predecessor, s.hash)
  }

  predicate EndsAt(chain: seq<Bytes>, e: Bytes) {
    chain != [] && chain[|chain| - 1] == e
  }

  /** The accepted multisignature state a candidate extends. */
  function CurrentState(
    w: Wire, k: Bytes, auth: Authorization, existing: Bytes, chain: Option<seq<Bytes>>): Option<State>
  {
    if chain.Some? then
      if EndsAt(chain.value, existing) then ValidateHistory(w, k, chain.value) else None
    else if auth.operation == OWNER_KEY_ROTATION then None
    else
      match ValidateEnvelope(w, k, existing)
      case None => None
      case Some(s) => if auth.kind == IDENTITY && s.history.None? then None else Some(s)
  }

  predicate IsActive(p: Option<ProviderPayload>) {
    p.Some? && p.value.Active?
  }

  /** _validate_multisignature_transition. */
  function ValidateTransition(
    w: Wire, k: Bytes, e: Bytes, existing: Option<Bytes>, chain: Option<seq<Bytes>>): Option<State>
  {
    match w.multisignature(e)
    case None => None
    case Some(env) =>
      match DecodeMultisignatureUpdate(w, env.update)
      case None => None
      case Some(u) =>
        var a := u.auth.value;
        var payload := w.providerPayload(u.payload);
        var withdrawing := a.kind == PROVIDER && IsWithdrawn(payload);
        if a.kind == PROVIDER && payload.None? then None
        else
          match existing
          case None => if withdrawing then None else ValidateUpdate(w, k, e, None, None)
          case Some(x) =>
            if !w.isMultisignature(x) then
              // A withdrawal needs an accepted multisignature predecessor.
              if withdrawing then None else ValidateUpdate(w, k, e, None, Some(x))
            else
              match CurrentState(w, k, a, x, chain)
              case None => None
              case Some(s) =>
                if withdrawing && !(s.kind == PROVIDER && IsActive(PayloadOf(w, s.update))) then None
                else ValidateUpdate(w, k, e, Some(s), None)
  }

  // ---------- legacy single-key records ----------

  datatype SeqEntry = SeqEntry(owner: Bytes, seqNo: nat)

  /** The strictly decoded legacy SignedUpdate inside an envelope, and its signature. */
  function DecodeLegacy(w: Wire, e: Bytes): Option<(SignedUpdate, LegacyEnvelope)> {
    match w.legacy(e)
    case None => None
    case Some(env) =>
      match w.signedUpdate(env.update)
      case None => None
      case Some(u) => if u.auth.Some? then None else Some((u, env))
  }

  /** Owner and seq of the legacy envelope being replaced, where they can be read. */
  function PreviousEntry(w: Wire, existing: Option<Bytes>, ownerField: nat): Option<SeqEntry> {
    match existing
    case None => None
    case Some(x) =>
      match w.legacy(x)
      case None => None
      case Some(env) =>
        match w.signedUpdate(env.update)
        case None => None
        case Some(u) =>
          match BytesOf(Lookup(u.fields, ownerField))
          case None => None
          case Some(owner) => Some(SeqEntry(owner, u.seqNo))
  }

  predicate SeqAndOwnerHold(prev: Option<SeqEntry>, owner: Bytes, seqNo: nat) {
    prev.Some? ==> seqNo > prev.value.seqNo && owner == prev.value.owner
  }

  /** validate_signed_update_overwrite: an update that reads as an Identity is judged as one. */
  function ValidateLegacyUpdate(w: Wire, k: Bytes, e: Bytes, prev: Option<SeqEntry>): Option<SignedUpdate> {
    match DecodeLegacy(w, e)
    case None => None
    case Some((u, env)) =>
      var identity := ExtractIdentity(w, u.fields);
      var extracted := if identity.Some? then identity else ExtractProvider(w, u.fields, u.payload);
      match extracted
      case None => None
      case Some((key, owner)) =>
        if key == k && Verifies(w, owner, env.update, env.signature) && SeqAndOwnerHold(prev, owner, u.seqNo)
        then Some(u) else None
  }

  // ---------- Identity records ----------

  function LegacyIdentityResult(k: Bytes, u: SignedUpdate): Option<IdentityResult> {
    match (BytesOf(Lookup(u.fields, 1)), BytesOf(Lookup(u.fields, 2)))
    case (Some(name), Some(owner)) => Some(IdentityResult(k, name, owner, u.seqNo, None, None))
    case _ => None
  }

  function StateIdentityResult(w: Wire, k: Bytes, s: State): Option<IdentityResult> {
    match DecodeMultisignatureUpdate(w, s.update)
    case None => None
    case Some(u) =>
      match (BytesOf(Lookup(u.fields, 1)), BytesOf(Lookup(u.fields, 2)))
      case (Some(name), Some(owner)) =>
        Some(IdentityResult(k, name, owner, u.seqNo, Some(MetadataOf(s, u.auth.value)), Some(s)))
      case _ => None
  }

  function IdentityOverwrite(
    w: Wire, k: Bytes, e: Bytes, existing: Option<Bytes>, chain: Option<seq<Bytes>>): Option<IdentityResult>
  {
    if w.isMultisignature(e) then
      match ValidateTransition(w, k, e, existing, chain)
      case None => None
      case Some(s) => StateIdentityResult(w, k, s)
    else if existing.Some? && w.isMultisignature(existing.value) then None
    else
      match ValidateLegacyUpdate(w, k, e, PreviousEntry(w, existing, 2))
      case None => None
      case Some(u) => LegacyIdentityResult(k, u)
  }

  function IdentityGet(w: Wire, k: Bytes, e: Bytes, chain: Option<seq<Bytes>>): Option<IdentityResult> {
    if w.isMultisignature(e) then
      var state :=
        if chain.None? then ValidateEnvelope(w, k, e)
        else if EndsAt(chain.value, e) then ValidateHistory(w, k, chain.value)
        else None;
      match state
      case None => None
      case Some(s) => if s.kind != IDENTITY || s.history.None? then None else StateIdentityResult(w, k, s)
    else
      match ValidateLegacyUpdate(w, k, e, None)
      case None => None
      case Some(u) => LegacyIdentityResult(k, u)
  }

  // ---------- Provider records ----------

  function ProviderOverwrite(w: Wire, k: Bytes, e: Bytes, existing: Option<Bytes>): Option<ProviderResult> {
    if w.isMultisignature(e) then ProviderMultisignatureOverwrite(w, k, e, existing)
    else if existing.Some? && w.isMultisignature(existing.value) then None
    else ProviderLegacyOverwrite(w, k, e, existing)
  }

  function ProviderMultisignatureOverwrite(
    w: Wire, k: Bytes, e: Bytes, existing: Option<Bytes>): Option<ProviderResult>
  {
    match ValidateTransition(w, k, e, existing, None)
    case None => None
    case Some(s) =>
      match DecodeMultisignatureUpdate(w, s.update)
      case None => None
      case Some(u) =>
        match (w.providerPayload(u.payload), BytesOf(Lookup(u.fields, 1)))
        case (Some(p), Some(owner)) =>
          var meta := Some(MetadataOf(s, u.auth.value));
          if p.Active? then Some(ProviderResult(p, owner, u.seqNo, meta, None))
          else if existing.None? || w.multisignature(existing.value).None? then None
          else
            (match DecodeMultisignatureUpdate(w, w.multisignature(existing.value).value.update)
             case None => None
             case Some(c) =>
               if && IsActive(w.providerPayload(c.payload))
                  && BytesOf(Lookup(c.fields, 1)) == Some(owner)
                  && u.seqNo > c.seqNo
               then Some(ProviderResult(p, owner, u.seqNo, meta, existing)) else None)
        case _ => None
  }

  /** What a legacy tombstone needs of the legacy envelope it withdraws. */
  predicate WithdrawsLegacy(w: Wire, k: Bytes, existing: Bytes, owner: Bytes, p: ProviderPayload, seqNo: nat) {
    match DecodeLegacy(w, existing)
    case None => false
    case Some((x, env)) =>
      && BytesOf(Lookup(x.fields, 1)) == Some(owner)
      && Verifies(w, owner, env.update, env.signature)
      && IsActive(w.providerPayload(x.payload))
      && w.providerPayload(x.payload).value.objectHash == p.objectHash
      && seqNo > x.seqNo
      && FromHex(p.objectHash) == Some(k)
  }

  function ProviderLegacyOverwrite(w: Wire, k: Bytes, e: Bytes, existing: Option<Bytes>): Option<ProviderResult> {
    match ValidateLegacyUpdate(w, k, e, PreviousEntry(w, existing, 1))
    case None => None
    case Some(u) =>
      match (BytesOf(Lookup(u.fields, 1)), w.providerPayload(u.payload))
      case (Some(owner), Some(p)) =>
        if p.Active? then Some(ProviderResult(p, owner, u.seqNo, None, None))
        else if existing.Some? && WithdrawsLegacy(w, k, existing.value, owner, p, u.seqNo)
        then Some(ProviderResult(p, owner, u.seqNo, None, existing))
        else None
      case _ => None
  }

  function ProviderGet(w: Wire, k: Bytes, e: Bytes, existing: Option<Bytes>): Option<ProviderResult> {
    if w.isMultisignature(e) then
      match w.multisignature(e)
      case None => None
      case Some(env) =>
        match DecodeMultisignatureUpdate(w, env.update)
        case None => None
        case Some(u) =>
          match w.providerPayload(u.payload)
          case None => None
          case Some(p) =>
            var withdrawn := p.Withdrawn?;
            if withdrawn && existing.None? then None
            else
              var state :=
                if withdrawn then ValidateTransition(w, k, e, existing, None) else ValidateEnvelope(w, k, e);
              match state
              case None => None
              case Some(s) =>
                Some(ProviderResult(p, s.owner, u.seqNo, Some(MetadataOf(s, u.auth.value)),
                                    if withdrawn then existing else None))
    else
      match ValidateLegacyUpdate(w, k, e, None)
      case None => None
      case Some(u) =>
        match w.providerPayload(u.payload)
        case None => None
        case Some(p) =>
          var owner := OwnerOf(PROVIDER, u.fields);
          if p.Active? then Some(ProviderResult(p, owner, u.seqNo, None, None))
          else if existing.Some? && WithdrawsLegacy(w, k, existing.value, owner, p, u.seqNo)
          then Some(ProviderResult(p, owner, u.seqNo, None, existing))
          else None
  }

  // ---------- a write that was accepted can be read back ----------

  /** The anchor check a replay makes and a single upgrade step does not. */
  ghost predicate IllShapedLegacy(w: Wire, k: Bytes, e: Bytes) {
    DecodeLegacyState(w, k, e).Some? && !PlainIdentity(DecodeLegacyState(w, k, e).value)
  }

  lemma UpdateKeepsEnvelope(w: Wire, k: Bytes, e: Bytes, current: Option<State>, anchor: Option<Bytes>, t: State)
    requires Sound(w) && ValidateUpdate(w, k, e, current, anchor) == Some(t)
    ensures DecodeCandidate(w, e).Some? && t.update == DecodeCandidate(w, e).value.update
    ensures t.kind == DecodeCandidate(w, e).value.auth.kind && t.hash == w.sha256(t.update)
    ensures t.seqNo == DecodeCandidate(w, e).value.body.seqNo
  {
    CandidateDecodes(w, e, DecodeCandidate(w, e).value);
  }

  lemma EnvelopeGenesis(w: Wire, k: Bytes, e: Bytes, s: State)
    requires Sound(w) && ValidateEnvelope(w, k, e) == Some(s) && s.history.Some?
    ensures ValidateGenesis(w, k, e) == Some(s) && s.kind == IDENTITY && s.history == Some([e])
    ensures ValidateHistory(w, k, [e]) == Some(s)
  {
    CandidateDecodes(w, e, DecodeCandidate(w, e).value);
  }

  /**
   The history a write installs replays to the accepted state, unless the write upgraded a
   legacy envelope that no replay accepts as an anchor.
   */
  lemma OverwriteHistoryReplays(
    w: Wire, k: Bytes, e: Bytes, existing: Option<Bytes>, chain: Option<seq<Bytes>>, s: State)
    requires Sound(w) && ValidateTransition(w, k, e, existing, chain) == Some(s) && s.kind == IDENTITY
    ensures s.history.Some? && EndsAt(s.history.value, e)
    ensures if existing.Some? && IllShapedLegacy(w, k, existing.value)
            then s.history == Some([existing.value, e]) && ValidateHistory(w, k, s.history.value).None?
            else ValidateHistory(w, k, s.history.value) == Some(s)
  {
    var c := DecodeCandidate(w, e).value;
    CandidateDecodes(w, e, c);
    if existing.None? {
      GenesisStepEqualsReplay(w, k, e, s);
    } else if w.isMultisignature(existing.value) {
      ExtendsReplay(w, k, e, existing.value, chain, s);
    } else {
      UpgradeHistory(w, k, e, existing.value, s);
    }
  }

  lemma ExtendsReplay(w: Wire, k: Bytes, e: Bytes, x: Bytes, chain: Option<seq<Bytes>>, s: State)
    requires Sound(w) && ValidateTransition(w, k, e, Some(x), chain) == Some(s) && s.kind == IDENTITY
    requires w.isMultisignature(x)
    ensures s.history.Some? && EndsAt(s.history.value, e)
    ensures ValidateHistory(w, k, s.history.value) == Some(s) && !IllShapedLegacy(w, k, x)
  {
    var c := DecodeCandidate(w, e).value;
    CandidateDecodes(w, e, c);
    assert w.legacy(x).None?;
    var current := CurrentState(w, k, c.auth, x, chain).value;
    assert ValidateUpdate(w, k, e, Some(current), None) == Some(s);
    UpdateKeepsEnvelope(w, k, e, Some(current), None, s);
    var h := if chain.Some? then chain.value else [x];
    if chain.None? { EnvelopeGenesis(w, k, x, current); }
    IncrementalEqualsReplay(w, k, h, e, current);
    ReplayInvariant(w, k, h + [e]);
  }

  lemma UpgradeHistory(w: Wire, k: Bytes, e: Bytes, x: Bytes, s: State)
    requires Sound(w) && ValidateUpdate(w, k, e, None, Some(x)) == Some(s) && s.kind == IDENTITY
    ensures s.history == Some([x, e])
    ensures if IllShapedLegacy(w, k, x) then ValidateHistory(w, k, [x, e]).None?
            else ValidateHistory(w, k, [x, e]) == Some(s)
  {
    var c := DecodeCandidate(w, e).value;
    CandidateDecodes(w, e, c);
    assert DecodeLegacyState(w, k, x).Some?;
    LegacyStepVersusReplay(w, k, x, e);
  }

  /** Identity write/read agreement, with the exact family of writes that cannot be read back. */
  lemma IdentityWriteReadAgree(
    w: Wire, k: Bytes, e: Bytes, existing: Option<Bytes>, chain: Option<seq<Bytes>>, r: IdentityResult)
    requires Sound(w) && w.isMultisignature(e)
    requires IdentityOverwrite(w, k, e, existing, chain) == Some(r)
    ensures r.state.Some? && r.state.value.history.Some?
    ensures IdentityGet(w, k, e, r.state.value.history)
            == if existing.Some? && IllShapedLegacy(w, k, existing.value) then None else Some(r)
  {
    var s := ValidateTransition(w, k, e, existing, chain).value;
    TransitionKind(w, k, e, existing, chain, s);
    OverwriteHistoryReplays(w, k, e, existing, chain, s);
  }

  /** Every accepted transition is an accepted step of the state machine. */
  lemma TransitionIsUpdate(w: Wire, k: Bytes, e: Bytes, existing: Option<Bytes>, chain: Option<seq<Bytes>>, s: State)
    returns (current: Option<State>, anchor: Option<Bytes>)
    requires ValidateTransition(w, k, e, existing, chain) == Some(s)
    ensures ValidateUpdate(w, k, e, current, anchor) == Some(s)
  {
    current, anchor := None, None;
    if existing.Some? && w.isMultisignature(existing.value) {
      current := CurrentState(w, k, DecodeCandidate(w, e).value.auth, existing.value, chain);
    } else {
      anchor := existing;
    }
  }

  lemma TransitionKind(w: Wire, k: Bytes, e: Bytes, existing: Option<Bytes>, chain: Option<seq<Bytes>>, s: State)
    requires Sound(w) && ValidateTransition(w, k, e, existing, chain) == Some(s)
    requires StateIdentityResult(w, k, s).Some?
    ensures s.kind == IDENTITY
  {
    var current, anchor := TransitionIsUpdate(w, k, e, existing, chain, s);
    UpdateKeepsEnvelope(w, k, e, current, anchor, s);
    var c := DecodeCandidate(w, e).value;
    CandidateDecodes(w, e, c);
    assert Lookup(c.body.fields, 2).Some? ==> 2 in Keys(c.body.fields);
  }

  /**
   A single-key Identity write against a readable single-key record keeps its owner and raises
   seq; against a multisignature record it is never accepted.
   */
  lemma LegacyIdentityWrite(w: Wire, k: Bytes, e: Bytes, x: Bytes, chain: Option<seq<Bytes>>, r: IdentityResult)
    requires Sound(w) && !w.isMultisignature(e) && IdentityOverwrite(w, k, e, Some(x), chain) == Some(r)
    ensures !w.isMultisignature(x) && r.auth.None? && w.sha256(r.name) == k
    ensures SeqAt(w, e) == r.seqNo && OwnerAt(w, e) == Some(r.owner) && SignedBy(w, r.owner, UpdateAt(w, e))
    ensures w.legacy(x).Some? && OwnerAt(w, x).Some? ==> SeqAt(w, x) < r.seqNo && OwnerAt(w, x) == Some(r.owner)
  {
    var (u, env) := DecodeLegacy(w, e).value;
    assert Verifies(w, r.owner, env.update, env.signature);
  }

  /** Different updates with one digest: a SHA-256 collision. */
  predicate CollidesWith(w: Wire, a: Bytes, b: Bytes) {
    UpdateAt(w, a) != UpdateAt(w, b) && w.sha256(UpdateAt(w, a)) == w.sha256(UpdateAt(w, b))
  }

  /**
   Once a legacy record that replay refuses has been upgraded, no chain whatsoever makes the
   upgraded head readable, short of a SHA-256 collision with the legacy update.
   */
  lemma UpgradeStaysUnreadable(w: Wire, k: Bytes, e: Bytes, x: Bytes, s: State, chain: Option<seq<Bytes>>)
    requires Sound(w) && ValidateUpdate(w, k, e, None, Some(x)) == Some(s) && s.kind == IDENTITY
    requires IllShapedLegacy(w, k, x) && IdentityGet(w, k, e, chain).Some?
    ensures chain.Some? && |chain.value| > 1 && CollidesWith(w, chain.value[|chain.value| - 2], x)
  {
    hide StateOf, BoundTo, IdentityGet, Replay, ValidateHistory, WellShapedAnchor;
    var c := DecodeCandidate(w, e).value;
    CandidateDecodes(w, e, c);
    LegacyDecodes(w, k, x, DecodeLegacyState(w, k, x).value);
    ReadThroughChain(w, k, e, chain);
    var h := chain.value;
    assert Linked(w, h[|h| - 2], h[|h| - 1]);
    NotThatAnchor(w, k, h, x);
  }

  /** A head that is no genesis is only ever read through a longer chain that replays. */
  lemma ReadThroughChain(w: Wire, k: Bytes, e: Bytes, chain: Option<seq<Bytes>>)
    requires Sound(w) && DecodeCandidate(w, e).Some? && DecodeCandidate(w, e).value.auth.operation != GENESIS
    requires IdentityGet(w, k, e, chain).Some?
    ensures chain.Some? && |chain.value| > 1 && chain.value[|chain.value| - 1] == e
    ensures WellShapedAnchor(w, k, chain.value[0]) && LinkedHistory(w, chain.value)
  {
    hide StateOf, BoundTo, Linked, Replay;
    var c := DecodeCandidate(w, e).value;
    CandidateDecodes(w, e, c);
    assert w.isMultisignature(e);
    var h := chain.value;
    ReplayInvariant(w, k, h);
    if |h| == 1 { AnchorOperation(w, k, h[0]); }
  }

  lemma NotThatAnchor(w: Wire, k: Bytes, h: seq<Bytes>, x: Bytes)
    requires Sound(w) && |h| > 1 && IllShapedLegacy(w, k, x)
    requires WellShapedAnchor(w, k, h[0]) && LinkedHistory(w, h)
    ensures UpdateAt(w, h[|h| - 2]) != UpdateAt(w, x)
  {
    var m := |h| - 2;
    LegacyDecodes(w, k, x, DecodeLegacyState(w, k, x).value);
    AnchorOperation(w, k, h[0]);
    if m > 0 {
      assert Linked(w, h[m - 1], h[m]);
    } else if w.multisignature(h[0]).None? {
      PlainAnchor(w, k, h[0]);
    }
  }
}
