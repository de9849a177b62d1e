/**
 The multisignature state machine of verification.py.  A validator returns the accepted
 state, or None where the source raises.
 */
module Verification {
  import opened Basics
  import opened Cbor
  import opened Schema

  datatype State = State(
    recordKey: Bytes, kind: nat, owner: Bytes, update: Bytes, hash: Bytes,
    epoch: nat, seqNo: nat, threshold: nat, signers: seq<Signer>, history: Option<seq<Bytes>>)

  /** A decoded multisignature envelope: SignedUpdate bytes, proofs, fields, derived lookup key. */
  datatype Candidate = Candidate(
    update: Bytes, proofs: seq<Proof>, body: SignedUpdate, auth: Authorization, recordKey: Bytes)

  /** A verified single-key predecessor. */
  datatype Legacy = Legacy(
    update: Bytes, fields: Dict, payload: Dict, seqNo: nat, kind: nat, owner: Bytes)

  // ---------- decoding ----------

  /** Lookup key and owner key of an Identity. */
  function ExtractIdentity(w: Wire, fields: Dict): Option<(Bytes, Bytes)> {
    match (BytesOf(Lookup(fields, 1)), BytesOf(Lookup(fields, 2)))
    case (Some(name), Some(owner)) => Some((w.sha256(name), owner))
    case _ => None
  }

  /** Lookup key and owner key of a Provider record. */
  function ExtractProvider(w: Wire, fields: Dict, payload: Dict): Option<(Bytes, Bytes)> {
    match (BytesOf(Lookup(fields, 1)), w.providerPayload(payload))
    case (Some(owner), Some(p)) =>
      if |p.objectHash| != 64 then None
      else (match FromHex(p.objectHash)
            case None => None
            case Some(key) => Some((key, owner)))
    case _ => None
  }

  function DecodeMultisignatureUpdate(w: Wire, b: Bytes): Option<SignedUpdate> {
    match w.signedUpdate(b)
    case Some(u) => if u.auth.Some? then Some(u) else None
    case None => None
  }

  function DecodeCandidate(w: Wire, e: Bytes): (r: Option<Candidate>)
    ensures r.Some? ==> w.multisignature(e).Some? && r.value.body.auth == Some(r.value.auth)
  {
    match w.multisignature(e)
    case None => None
    case Some(env) =>
      match DecodeMultisignatureUpdate(w, env.update)
      case None => None
      case Some(u) =>
        var a := u.auth.value;
        var extracted :=
          if a.kind == IDENTITY then ExtractIdentity(w, u.fields)
          else if a.kind == PROVIDER then ExtractProvider(w, u.fields, u.payload)
          else None;
        if extracted.None? then None
        else Some(Candidate(env.update, env.proofs, u, a, extracted.value.0))
  }

  /** The owner key sits in field 2 of an Identity and field 1 of a Provider record. */
  function OwnerField(kind: nat, fields: Dict): Option<Item> {
    Lookup(fields, if kind == IDENTITY then 2 else 1)
  }

  function OwnerOf(kind: nat, fields: Dict): Bytes {
    match BytesOf(OwnerField(kind, fields)) case Some(b) => b case None => []
  }

  function CandidateState(w: Wire, k: Bytes, c: Candidate, history: Option<seq<Bytes>>): State {
    State(k, c.auth.kind, OwnerOf(c.auth.kind, c.body.fields), c.update, w.sha256(c.update),
          c.auth.epoch, c.body.seqNo, c.auth.threshold, c.auth.signers,
          if c.auth.kind == IDENTITY then history else None)
  }

  function AppendHistory(s: State, e: Bytes): Option<seq<Bytes>> {
    match s.history case None => None case Some(h) => Some(h + [e])
  }

  function DecodeLegacyState(w: Wire, k: Bytes, e: Bytes): Option<Legacy> {
    match w.legacy(e)
    case None => None
    case Some(env) =>
      match w.signedUpdate(env.update)
      case None => None
      case Some(u) =>
        if u.auth.Some? then None
        else
          var identity := ExtractIdentity(w, u.fields);
          var extracted := if identity.Some? then identity else ExtractProvider(w, u.fields, u.payload);
          var kind := if identity.Some? then IDENTITY else PROVIDER;
          if extracted.None? || extracted.value.0 != k
             || !Verifies(w, extracted.value.1, env.update, env.signature) then None
          else Some(Legacy(env.update, u.fields, u.payload, u.seqNo, kind, extracted.value.1))
  }

  /** A legacy Identity with fields exactly {1,2} and an empty payload. */
  predicate PlainIdentity(l: Legacy) {
    l.kind == IDENTITY && Keys(l.fields) == {1, 2} && l.payload == []
  }

  // ---------- proofs ----------

  /** `dict(signer_set).get(id)`: a later entry would override an earlier one. */
  function KeyOf(signers: seq<Signer>, id: Option<Bytes>): Option<Bytes> {
    if signers == [] then None
    else
      var last := signers[|signers| - 1];
      if id == Some(last.id) then Some(last.key) else KeyOf(signers[..|signers| - 1], id)
  }

  predicate ProofHolds(w: Wire, update: Bytes, p: Proof, signers: seq<Signer>) {
    match KeyOf(signers, p.id)
    case None => false
    case Some(key) => Verifies(w, key, update, p.signature)
  }

  predicate DistinctProofs(proofs: seq<Proof>) {
    forall i, j :: 0 <= i < j < |proofs| ==> proofs[i].id != proofs[j].id
  }

  /** At least `threshold` proofs, from distinct members, every one of them valid. */
  predicate ThresholdProofs(w: Wire, update: Bytes, proofs: seq<Proof>, signers: seq<Signer>, threshold: nat) {
    && |proofs| >= threshold
    && DistinctProofs(proofs)
    && forall i :: 0 <= i < |proofs| ==> ProofHolds(w, update, proofs[i], signers)
  }

  lemma {:induction false} SeenCount(proofs: seq<Proof>, seen: set<Option<Bytes>>)
    requires DistinctProofs(proofs)
    requires forall j :: 0 <= j < |proofs| ==> proofs[j].id in seen
    requires forall x :: x in seen ==> exists j :: 0 <= j < |proofs| && proofs[j].id == x
    ensures |seen| == |proofs|
  {
    if proofs == [] {
      assert seen == {};
    } else {
      var n := |proofs| - 1;
      SeenCount(proofs[..n], seen - {proofs[n].id});
    }
  }

  method ValidateThresholdProofs(
    w: Wire, update: Bytes, proofs: seq<Proof>, signers: seq<Signer>, threshold: nat) returns (ok: bool)
    ensures ok <==> ThresholdProofs(w, update, proofs, signers, threshold)
  {
    if |proofs| < threshold { return false; }
    var seen: set<Option<Bytes>> := {};
    for i := 0 to |proofs|
      invariant forall j :: 0 <= j < i ==> proofs[j].id in seen
      invariant forall x :: x in seen ==> exists j :: 0 <= j < i && proofs[j].id == x
      invariant forall j, l :: 0 <= j < l < i ==> proofs[j].id != proofs[l].id
      invariant forall j :: 0 <= j < i ==> ProofHolds(w, update, proofs[j], signers)
    {
      var id := proofs[i].id;
      if id in seen { return false; }
      seen := seen + {id};
      var key := KeyOf(signers, id);
      if key.None? { return false; }
      if !Verifies(w, key.value, update, proofs[i].signature) { return false; }
    }
    SeenCount(proofs, seen);
    ok := |seen| >= threshold;
  }

  predicate CompleteTwoOfThree(a: Authorization) {
    a.threshold == 2 && |a.signers| == 3
  }

  function IdsOfKey(signers: seq<Signer>, key: Bytes): seq<Bytes> {
    if signers == [] then []
    else (if signers[0].key == key then [signers[0].id] else []) + IdsOfKey(signers[1..], key)
  }

  /** The one member holding this key, if there is exactly one. */
  function SignerIdForKey(signers: seq<Signer>, key: Bytes): Option<Bytes> {
    var ids := IdsOfKey(signers, key);
    if |ids| == 1 then Some(ids[0]) else None
  }

  /** Exactly one proof: by `owner`, under the identifier it has in the new Signer Set. */
  predicate UpgradeProof(w: Wire, c: Candidate, owner: Bytes) {
    && |c.proofs| == 1
    && SignerIdForKey(c.auth.signers, owner).Some?
    && c.proofs[0].id == SignerIdForKey(c.auth.signers, owner)
    && Verifies(w, owner, c.update, c.proofs[0].signature)
  }

  // ---------- transitions ----------

  /** The decoded payload of an accepted Provider state. */
  function PayloadOf(w: Wire, update: Bytes): Option<ProviderPayload> {
    match DecodeMultisignatureUpdate(w, update)
    case None => None
    case Some(u) => w.providerPayload(u.payload)
  }

  predicate IsWithdrawn(p: Option<ProviderPayload>) {
    p.Some? && p.value.Withdrawn?
  }

  predicate CommonTransition(w: Wire, k: Bytes, c: Candidate, s: State) {
    && c.recordKey == k && s.recordKey == k
    && c.auth.kind == s.kind
    && OwnerOf(s.kind, c.body.fields) == s.owner
    && c.body.seqNo > s.seqNo
    && c.auth.predecessor == s.hash
    && (s.kind == PROVIDER ==>
          && PayloadOf(w, s.update).Some? && w.providerPayload(c.body.payload).Some?
          && !(IsWithdrawn(PayloadOf(w, s.update)) && IsWithdrawn(w.providerPayload(c.body.payload))))
  }

  /** Authorised by the set and threshold already in force, and leaving both alone. */
  predicate KeepsSigners(w: Wire, c: Candidate, s: State) {
    && c.auth.epoch == s.epoch
    && c.auth.threshold == s.threshold
    && c.auth.signers == s.signers
    && ThresholdProofs(w, c.update, c.proofs, s.signers, s.threshold)
  }

  function ValidateGenesis(w: Wire, k: Bytes, e: Bytes): Option<State> {
    match DecodeCandidate(w, e)
    case None => None
    case Some(c) =>
      if && c.auth.operation == GENESIS
         && c.auth.epoch == 1
         && c.auth.predecessor == ZeroHash()
         && c.recordKey == k
         && CompleteTwoOfThree(c.auth)
         && ThresholdProofs(w, c.update, c.proofs, c.auth.signers, c.auth.threshold)
      then Some(CandidateState(w, k, c, Some([e]))) else None
  }

  function ValidateOrdinaryUpdate(w: Wire, k: Bytes, e: Bytes, s: State): Option<State> {
    match DecodeCandidate(w, e)
    case None => None
    case Some(c) =>
      if && c.auth.operation == ORDINARY_UPDATE
         && CommonTransition(w, k, c, s)
         && (s.kind == PROVIDER ==> !IsWithdrawn(PayloadOf(w, s.update)))
         && KeepsSigners(w, c, s)
      then Some(CandidateState(w, k, c, AppendHistory(s, e))) else None
  }

  function ValidateSignerReplacement(w: Wire, k: Bytes, e: Bytes, s: State): Option<State> {
    match DecodeCandidate(w, e)
    case None => None
    case Some(c) =>
      if && c.auth.operation == REPLACE_SIGNERS
         && CommonTransition(w, k, c, s)
         && c.auth.epoch > s.epoch
         && CompleteTwoOfThree(c.auth)
         && c.auth.signers != s.signers
         && ThresholdProofs(w, c.update, c.proofs, s.signers, s.threshold)
      then Some(CandidateState(w, k, c, AppendHistory(s, e))) else None
  }

  function ValidateUpgrade(w: Wire, k: Bytes, e: Bytes, anchor: Bytes): Option<State> {
    match (DecodeCandidate(w, e), DecodeLegacyState(w, k, anchor))
    case (Some(c), Some(l)) =>
      if && c.auth.operation == UPGRADE
         && c.recordKey == k
         && c.auth.kind == l.kind
         && c.body.seqNo > l.seqNo
         && c.auth.epoch == 1
         && c.auth.predecessor == w.sha256(l.update)
         && CompleteTwoOfThree(c.auth)
         && OwnerField(l.kind, c.body.fields) == OwnerField(l.kind, l.fields)
         && UpgradeProof(w, c, l.owner)
      then Some(CandidateState(w, k, c, Some([anchor, e]))) else None
    case _ => None
  }

  predicate RotationInvariants(
    k: Bytes, c: Candidate, fields: Dict, recordKey: Bytes, seqNo: nat, hash: Bytes)
  {
    && c.auth.operation == OWNER_KEY_ROTATION
    && c.auth.kind == IDENTITY
    && BytesOf(Lookup(c.body.fields, 1)) == BytesOf(Lookup(fields, 1))
    && BytesOf(Lookup(c.body.fields, 2)) != BytesOf(Lookup(fields, 2))
    && c.recordKey == k && recordKey == k
    && c.body.seqNo == seqNo + 1
    && c.auth.predecessor == hash
  }

  function ValidateRotationFromLegacy(w: Wire, k: Bytes, e: Bytes, anchor: Bytes): Option<State> {
    match (DecodeCandidate(w, e), DecodeLegacyState(w, k, anchor))
    case (Some(c), Some(l)) =>
      if && PlainIdentity(l)
         && RotationInvariants(k, c, l.fields, k, l.seqNo, w.sha256(l.update))
         && c.auth.epoch == 1
         && CompleteTwoOfThree(c.auth)
         && (exists i :: 0 <= i < |c.auth.signers| && c.auth.signers[i].key == OwnerOf(IDENTITY, c.body.fields))
         && |c.proofs| == 1 && c.proofs[0].id == None
         && Verifies(w, l.owner, c.update, c.proofs[0].signature)
      then Some(CandidateState(w, k, c, Some([anchor, e]))) else None
    case _ => None
  }

  // ---------- replay ----------

  /** Where a replay stands: on the verified legacy anchor, or on a multisignature state. */
  datatype Cursor = Anchor(envelope: Bytes) | At(state: State)

  function StartReplay(w: Wire, k: Bytes, e: Bytes): Option<Cursor> {
    match w.multisignature(e)
    case None =>
      (match DecodeLegacyState(w, k, e)
       case Some(l) => if PlainIdentity(l) then Some(Anchor(e)) else None
       case None => None)
    case Some(env) =>
      match DecodeMultisignatureUpdate(w, env.update)
      case None => None
      case Some(u) =>
        if u.auth.value.kind != IDENTITY || u.auth.value.operation != GENESIS then None
        else (match ValidateGenesis(w, k, e) case Some(s) => Some(At(s)) case None => None)
  }

  predicate IsRotation(w: Wire, e: Bytes) {
    match DecodeCandidate(w, e) case Some(c) => c.auth.operation == OWNER_KEY_ROTATION case None => false
  }

  function HistoryLength(s: Option<State>): nat {
    if s.Some? && s.value.history.Some? then |s.value.history.value| else 0
  }

  /** _validate_owner_rotation_from_state: one step at a time, the state's own history is replayed first. */
  function ValidateRotationFromState(w: Wire, k: Bytes, e: Bytes, s: State, verifyHistory: bool): Option<State>
    decreases if verifyHistory then 1 + HistoryLength(Some(s)) else 0, 0
  {
    if s.kind != IDENTITY || s.history.None? then None
    else if s.history.value != [] && w.multisignature(s.history.value[0]).Some? then None
    else if verifyHistory && !(match ValidateHistory(w, k, s.history.value)
                               case None => false
                               case Some(v) => v.hash == s.hash && v.update == s.update) then None
    else
      match (DecodeCandidate(w, e), DecodeMultisignatureUpdate(w, s.update))
      case (Some(c), Some(p)) =>
        if && RotationInvariants(k, c, p.fields, s.recordKey, s.seqNo, s.hash)
           && KeepsSigners(w, c, s)
        then Some(CandidateState(w, k, c, AppendHistory(s, e))) else None
      case _ => None
  }

  /** validate_multisignature_update: one step from an accepted state or a legacy envelope. */
  function ValidateUpdate(w: Wire, k: Bytes, e: Bytes, current: Option<State>, anchor: Option<Bytes>): Option<State>
    decreases if IsRotation(w, e) then 1 + HistoryLength(current) else 0, 1
  {
    match DecodeCandidate(w, e)
    case None => None
    case Some(c) =>
      if c.auth.operation == GENESIS then
        if current.Some? || anchor.Some? then None else ValidateGenesis(w, k, e)
      else if c.auth.operation == UPGRADE then
        if anchor.None? || current.Some? then None else ValidateUpgrade(w, k, e, anchor.value)
      else if c.auth.operation == OWNER_KEY_ROTATION && current.None? then
        if anchor.None? then None else ValidateRotationFromLegacy(w, k, e, anchor.value)
      else if current.None? || anchor.Some? then None
      else if c.auth.operation == OWNER_KEY_ROTATION then ValidateRotationFromState(w, k, e, current.value, true)
      else if c.auth.operation == ORDINARY_UPDATE then ValidateOrdinaryUpdate(w, k, e, current.value)
      else if c.auth.operation == REPLACE_SIGNERS then ValidateSignerReplacement(w, k, e, current.value)
      else None
  }

  /** The loop body of a replay. */
  function ReplayStep(w: Wire, k: Bytes, cur: Cursor, e: Bytes): Option<State>
    decreases 1, 0
  {
    match DecodeCandidate(w, e)
    case None => None
    case Some(c) =>
      match cur
      case Anchor(a) =>
        if c.auth.operation == UPGRADE then ValidateUpgrade(w, k, e, a)
        else if c.auth.operation == OWNER_KEY_ROTATION then ValidateRotationFromLegacy(w, k, e, a)
        else None
      case At(s) =>
        if c.auth.operation == OWNER_KEY_ROTATION then ValidateRotationFromState(w, k, e, s, false)
        else ValidateUpdate(w, k, e, Some(s), None)
  }

  function Replay(w: Wire, k: Bytes, h: seq<Bytes>): Option<Cursor>
    decreases |h|, 1
  {
    if h == [] then None
    else if |h| == 1 then StartReplay(w, k, h[0])
    else
      match Replay(w, k, h[..|h| - 1])
      case None => None
      case Some(cur) =>
        match ReplayStep(w, k, cur, h[|h| - 1])
        case None => None
        case Some(s) => Some(At(s))
  }

  /** The state an envelope history replays to. */
  function ValidateHistory(w: Wire, k: Bytes, h: seq<Bytes>): Option<State>
    decreases |h|, 2
  {
    match Replay(w, k, h)
    case Some(At(s)) => if s.history == Some(h) then Some(s) else None
    case _ => None
  }

  lemma {:induction false} FailedReplayStaysFailed(w: Wire, k: Bytes, h: seq<Bytes>, n: nat)
    requires 0 < n <= |h| && Replay(w, k, h[..n]).None?
    ensures Replay(w, k, h).None?
    decreases |h|
  {
    if n < |h| {
      assert h[..|h| - 1][..n] == h[..n];
      FailedReplayStaysFailed(w, k, h[..|h| - 1], n);
    } else {
      assert h[..n] == h;
    }
  }

  /** validate_multisignature_history: one forward pass over the envelopes. */
  method ValidateMultisignatureHistory(w: Wire, k: Bytes, envelopes: seq<Bytes>) returns (r: Option<State>)
    ensures r == ValidateHistory(w, k, envelopes)
  {
    if envelopes == [] { return None; }
    assert envelopes[..1] == [envelopes[0]];
    var start := StartReplay(w, k, envelopes[0]);
    if start.None? {
      FailedReplayStaysFailed(w, k, envelopes, 1);
      return None;
    }
    var cur := start.value;
    for i := 1 to |envelopes|
      invariant Replay(w, k, envelopes[..i]) == Some(cur)
    {
      assert envelopes[..i + 1][..i] == envelopes[..i];
      var next := ReplayStep(w, k, cur, envelopes[i]);
      if next.None? {
        FailedReplayStaysFailed(w, k, envelopes, i + 1);
        return None;
      }
      cur := At(next.value);
    }
    assert envelopes[..|envelopes|] == envelopes;
    match cur
    case Anchor(_) => r := None;
    case At(s) => r := if s.history == Some(envelopes) then Some(s) else None;
  }

  /** validate_multisignature_envelope: an envelope on its own, judged by its own Signer Set. */
  function ValidateEnvelope(w: Wire, k: Bytes, e: Bytes): Option<State> {
    match DecodeCandidate(w, e)
    case None => None
    case Some(c) =>
      if c.recordKey != k then None
      else if c.auth.operation == GENESIS then ValidateGenesis(w, k, e)
      else if c.auth.kind == IDENTITY || c.auth.operation == OWNER_KEY_ROTATION then None
      else if c.auth.operation == UPGRADE then
        if && c.auth.epoch == 1 && CompleteTwoOfThree(c.auth)
           && UpgradeProof(w, c, OwnerOf(c.auth.kind, c.body.fields))
        then Some(CandidateState(w, k, c, None)) else None
      else if ThresholdProofs(w, c.update, c.proofs, c.auth.signers, c.auth.threshold)
      then Some(CandidateState(w, k, c, None)) else None
  }
}
