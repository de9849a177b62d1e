/**
 Provider writes that are accepted and not what they seem, for every wire on which the few
 signatures involved verify: a signer replacement that is never read back, and a single-key
 update that reads as an Identity and takes over a record's owner field.
 `ProviderRuns.ProviderWriteReadAgree` and `ProviderRuns.LegacyWriteKeepsExactly` give the exact
 conditions.
 */
module ReadBackGap {
  import opened Basics
  import opened Utf8
  import opened Cbor
  import opened KeyOrder
  import opened Schema
  import opened Codec
  import opened Verification
  import opened Lineage
  import opened RecordValidator
  import opened ProviderRuns
  import opened SmallRecords

  /** A payload that decodes to an active object, in canonical order and of less than 4 GiB. */
  ghost predicate ActivePayload(w: Wire, k: Bytes, payload: Dict) {
    && SmallDict(payload)
    && w.providerPayload(payload).Some? && w.providerPayload(payload).value.Active?
    && |w.providerPayload(payload).value.objectHash| == 64
    && FromHex(w.providerPayload(payload).value.objectHash) == Some(k)
  }

  // ---------- a replacement that is not read back ----------

  /** An owner, its payload, and the keys of {a,b,c} and of {d,e,f}; a and b sign the genesis and the replacement. */
  datatype Material = Material(
    owner: Bytes, payload: Dict, first: seq<Bytes>, second: seq<Bytes>,
    genesisSignatures: seq<Bytes>, signatures: seq<Bytes>)

  function Update(m: Material, seqNo: nat, operation: nat, signers: seq<Signer>, predecessor: Bytes): SignedUpdate {
    SignedUpdate(Numbered([ByteString(m.owner)]), m.payload, seqNo,
                 Some(Authorization(PROVIDER, operation, seqNo, 2, signers, predecessor)))
  }

  /** The first three keys as a, b and c, or the last three as d, e and f. */
  function Members(first: byte, keys: seq<Bytes>): seq<Signer>
    requires first == 97 || first == 100
  {
    if |keys| == 3 then Trio(first, keys) else []
  }

  function GenesisUpdate(m: Material): Bytes {
    UpdateBytes(Update(m, 1, GENESIS, Members(97, m.first), ZeroHash()))
  }

  function ReplacementUpdate(w: Wire, m: Material): Bytes {
    UpdateBytes(Update(m, 2, REPLACE_SIGNERS, Members(100, m.second), w.sha256(GenesisUpdate(m))))
  }

  /** Proofs by a and b. */
  function TwoProofs(signatures: seq<Bytes>): seq<Proof> {
    if |signatures| == 2 then [Proof(Some([97]), signatures[0]), Proof(Some([98]), signatures[1])] else []
  }

  predicate BothSign(w: Wire, keys: seq<Bytes>, update: Bytes, signatures: seq<Bytes>) {
    && |keys| == 3 && |signatures| == 2 && |signatures[0]| == 64 && |signatures[1]| == 64
    && Verifies(w, keys[0], update, signatures[0]) && Verifies(w, keys[1], update, signatures[1])
  }

  ghost predicate Signed(w: Wire, k: Bytes, m: Material) {
    && |m.owner| == 32 && ActivePayload(w, k, m.payload)
    && DistinctKeys32(m.first) && DistinctKeys32(m.second)
    && BothSign(w, m.first, GenesisUpdate(m), m.genesisSignatures)
    && BothSign(w, m.first, ReplacementUpdate(w, m), m.signatures)
  }

  function GenesisEnvelope(w: Wire, m: Material): Bytes {
    EnvelopeBytes(w.providerPayload, GenesisUpdate(m), TwoProofs(m.genesisSignatures))
  }

  function ReplacementEnvelope(w: Wire, m: Material): Bytes {
    EnvelopeBytes(w.providerPayload, ReplacementUpdate(w, m), TwoProofs(m.signatures))
  }

  lemma OwnerField1(owner: Bytes)
    requires |owner| == 32
    ensures SmallDict(Numbered([ByteString(owner)])) && Keys(Numbered([ByteString(owner)])) == {1}
    ensures Lookup(Numbered([ByteString(owner)]), 1) == Some(ByteString(owner))
  {
    hide Lookup;
    Fields([ByteString(owner)]);
    assert KeysUpTo(Numbered([ByteString(owner)]), 1);
  }

  lemma TwoProofsAreGood(signatures: seq<Bytes>)
    requires |signatures| == 2 && |signatures[0]| == 64 && |signatures[1]| == 64
    ensures var ps := TwoProofs(signatures);
            && GoodProofs(ps) && SortedBy(ps, ProofKey) && |ps| == 2
            && forall i :: 0 <= i < |ps| && ps[i].id.Some? ==> ValidUtf8(ps[i].id.value)
  {
    LetterIsText(97);
    LetterIsText(98);
    var ps := TwoProofs(signatures);
    assert ProofKey(ps[0]) == [97] && ProofKey(ps[1]) == [98];
  }

  /** Either update, under either set, reads back from its envelope. */
  lemma EnvelopeOf(
    w: Wire, k: Bytes, m: Material, seqNo: nat, operation: nat, signers: seq<Signer>, predecessor: Bytes,
    signatures: seq<Bytes>)
    requires UsesCodec(w) && |m.owner| == 32 && ActivePayload(w, k, m.payload) && 0 < seqNo < WORD
    requires GENESIS <= operation <= OWNER_KEY_ROTATION && GoodTrio(signers) && |predecessor| == 32
    requires |signatures| == 2 && |signatures[0]| == 64 && |signatures[1]| == 64
    ensures var u := Update(m, seqNo, operation, signers, predecessor);
            var e := EnvelopeBytes(w.providerPayload, UpdateBytes(u), TwoProofs(signatures));
            && w.signedUpdate(UpdateBytes(u)) == Some(u)
            && w.multisignature(e) == Some(MultisignatureEnvelope(UpdateBytes(u), TwoProofs(signatures)))
            && DecodeCandidate(w, e) == Some(Candidate(UpdateBytes(u), TwoProofs(signatures), u, u.auth.value, k))
  {
    hide DecodeSignedUpdate, DecodeMultisignatureEnvelope, UpdateBytes, EnvelopeBytes, Numbered, SmallDict, GoodTrio,
         Lookup, ValidUtf8, GoodProofs, SortedBy, TwoProofs;
    var u := Update(m, seqNo, operation, signers, predecessor);
    OwnerField1(m.owner);
    UpdateReads(w.providerPayload, u);
    TwoProofsAreGood(signatures);
    EnvelopeReads(w.providerPayload, UpdateBytes(u), TwoProofs(signatures));
  }

  lemma BothProofsHold(w: Wire, keys: seq<Bytes>, update: Bytes, signatures: seq<Bytes>)
    requires BothSign(w, keys, update, signatures)
    ensures ThresholdProofs(w, update, TwoProofs(signatures), Members(97, keys), 2)
  {
    hide Verifies;
    var ps, ss := TwoProofs(signatures), Members(97, keys);
    assert ss[..2] == [ss[0], ss[1]] && ss[..2][..1] == [ss[0]];
    assert KeyOf(ss, ps[0].id) == KeyOf(ss[..2], ps[0].id) == KeyOf(ss[..2][..1], ps[0].id) == Some(keys[0]);
    assert KeyOf(ss, ps[1].id) == KeyOf(ss[..2], ps[1].id) == Some(keys[1]);
  }

  /** None of d, e and f is a or b. */
  lemma NoProofHolds(w: Wire, keys: seq<Bytes>, update: Bytes, signatures: seq<Bytes>)
    requires |keys| == 3 && |signatures| == 2
    ensures !ThresholdProofs(w, update, TwoProofs(signatures), Members(100, keys), 2)
  {
    var ps, ss := TwoProofs(signatures), Members(100, keys);
    assert ss[..2] == [ss[0], ss[1]] && ss[..2][..1] == [ss[0]] && ss[..2][..1][..0] == [];
    assert KeyOf(ss, ps[0].id) == KeyOf(ss[..2], ps[0].id) == KeyOf(ss[..2][..1], ps[0].id) == None;
    assert !ProofHolds(w, update, ps[0], ss);
  }

  lemma GenesisState(w: Wire, k: Bytes, m: Material)
    requires UsesCodec(w) && Sound(w) && Signed(w, k, m)
    ensures DecodeCandidate(w, GenesisEnvelope(w, m)).Some? && ValidateEnvelope(w, k, GenesisEnvelope(w, m)).Some?
    ensures DecodeCandidate(w, GenesisEnvelope(w, m)).value.auth.operation == GENESIS
    ensures var s := ValidateEnvelope(w, k, GenesisEnvelope(w, m)).value;
            && s.recordKey == k && s.kind == PROVIDER && s.owner == m.owner && s.epoch == 1 && s.seqNo == 1
            && s.threshold == 2 && s.signers == Members(97, m.first)
            && s.update == GenesisUpdate(m) && s.hash == w.sha256(GenesisUpdate(m))
            && w.signedUpdate(s.update).Some? && w.signedUpdate(s.update).value.auth.Some?
            && w.signedUpdate(s.update).value.payload == m.payload
            && BytesOf(Lookup(w.signedUpdate(s.update).value.fields, 1)) == Some(m.owner)
  {
    hide UsesCodec, UpdateBytes, EnvelopeBytes, Numbered, SmallDict, GoodTrio, Lookup, ThresholdProofs, TwoProofs;
    TrioIsGood(97, m.first);
    EnvelopeOf(w, k, m, 1, GENESIS, Members(97, m.first), ZeroHash(), m.genesisSignatures);
    OwnerField1(m.owner);
    BothProofsHold(w, m.first, GenesisUpdate(m), m.genesisSignatures);
  }

  lemma GenesisAccepted(w: Wire, k: Bytes, m: Material)
    requires UsesCodec(w) && Sound(w) && Signed(w, k, m)
    ensures ProviderOverwrite(w, k, GenesisEnvelope(w, m), None).Some? && w.isMultisignature(GenesisEnvelope(w, m))
  {
    hide UsesCodec, BothSign, DistinctKeys32, GenesisEnvelope, GenesisUpdate, ReplacementUpdate, SmallDict;
    var e := GenesisEnvelope(w, m);
    GenesisState(w, k, m);
    var c := DecodeCandidate(w, e).value;
    CandidateDecodes(w, e, c);
    assert w.multisignature(e).Some?;
  }

  lemma ReplacementAccepted(w: Wire, k: Bytes, m: Material)
    requires UsesCodec(w) && Sound(w) && Signed(w, k, m)
    ensures var x, e := GenesisEnvelope(w, m), ReplacementEnvelope(w, m);
            && ProviderOverwrite(w, k, e, Some(x)).Some? && ProviderOverwrite(w, k, e, Some(x)).value.payload.Active?
            && InstallsSigners(w, e) && !OwnQuorum(w, e) && w.isMultisignature(e)
  {
    hide UsesCodec, UpdateBytes, EnvelopeBytes, GenesisEnvelope, GenesisUpdate, ValidateEnvelope, Numbered, SmallDict,
         GoodTrio, Lookup, ThresholdProofs, TwoProofs;
    TrioIsGood(100, m.second);
    EnvelopeOf(w, k, m, 2, REPLACE_SIGNERS, Members(100, m.second), w.sha256(GenesisUpdate(m)), m.signatures);
    OwnerField1(m.owner);
    GenesisState(w, k, m);
    GenesisAccepted(w, k, m);
    BothProofsHold(w, m.first, ReplacementUpdate(w, m), m.signatures);
    NoProofHolds(w, m.second, ReplacementUpdate(w, m), m.signatures);
    assert Members(100, m.second)[0] != Members(97, m.first)[0];
  }

  /**
   A genesis under {a,b,c}, then a replacement that installs {d,e,f} with proofs by a and b: both
   writes are accepted, and the second cannot be read back.
   */
  lemma ReplacementNotReadBack(w: Wire, k: Bytes, m: Material)
    requires UsesCodec(w) && Sound(w) && Signed(w, k, m)
    ensures var x, e := GenesisEnvelope(w, m), ReplacementEnvelope(w, m);
            && ProviderOverwrite(w, k, x, None).Some?
            && ProviderOverwrite(w, k, e, Some(x)).Some?
            && ProviderGet(w, k, e, Some(x)).None?
  {
    hide UsesCodec, Signed, ProviderOverwrite, ProviderGet, GenesisEnvelope, ReplacementEnvelope, OwnQuorum,
         InstallsSigners;
    var x, e := GenesisEnvelope(w, m), ReplacementEnvelope(w, m);
    GenesisAccepted(w, k, m);
    ReplacementAccepted(w, k, m);
    ProviderWriteReadAgree(w, k, e, Some(x), ProviderOverwrite(w, k, e, Some(x)).value);
  }

  // ---------- an update that reads as an Identity ----------

  /** A record of `owner` for the object `k`, and an update over it that reads as an Identity called `name`. */
  datatype Takeover = Takeover(
    owner: Bytes, name: Bytes, payload: Dict, next: Dict, signature: Bytes, nextSignature: Bytes)

  function RecordUpdate(t: Takeover): SignedUpdate {
    SignedUpdate(Numbered([ByteString(t.owner)]), t.payload, 1, None)
  }

  function IdentityUpdate(t: Takeover): SignedUpdate {
    SignedUpdate(Numbered([ByteString(t.name), ByteString(t.owner)]), t.next, 2, None)
  }

  function RecordEnvelope(t: Takeover): Bytes {
    LegacyBytes(LegacyEnvelope(UpdateBytes(RecordUpdate(t)), t.signature))
  }

  function IdentityEnvelope(t: Takeover): Bytes {
    LegacyBytes(LegacyEnvelope(UpdateBytes(IdentityUpdate(t)), t.nextSignature))
  }

  /** The object of the first payload is the digest of `name`; the object of the second is any other one, `j`. */
  ghost predicate SignedTakeover(w: Wire, j: Bytes, t: Takeover) {
    && |t.owner| == 32 && |t.name| < 0x1_0000
    && ActivePayload(w, w.sha256(t.name), t.payload) && ActivePayload(w, j, t.next)
    && |t.signature| < WORD && |t.nextSignature| < WORD
    && Verifies(w, t.owner, UpdateBytes(RecordUpdate(t)), t.signature)
    && Verifies(w, t.owner, UpdateBytes(IdentityUpdate(t)), t.nextSignature)
  }

  lemma RecordReads(w: Wire, j: Bytes, t: Takeover)
    requires UsesCodec(w) && SignedTakeover(w, j, t)
    ensures w.signedUpdate(UpdateBytes(RecordUpdate(t))) == Some(RecordUpdate(t))
    ensures w.legacy(RecordEnvelope(t)) == Some(LegacyEnvelope(UpdateBytes(RecordUpdate(t)), t.signature))
    ensures w.signedUpdate(UpdateBytes(IdentityUpdate(t))) == Some(IdentityUpdate(t))
    ensures w.legacy(IdentityEnvelope(t)) == Some(LegacyEnvelope(UpdateBytes(IdentityUpdate(t)), t.nextSignature))
  {
    hide DecodeSignedUpdate, DecodeSignedEnvelope, UpdateBytes, LegacyBytes, Numbered, SmallDict, Verifies,
         NestsAuthorization;
    Fields([ByteString(t.owner)]);
    Fields([ByteString(t.name), ByteString(t.owner)]);
    UpdateReads(w.providerPayload, RecordUpdate(t));
    UpdateReads(w.providerPayload, IdentityUpdate(t));
    LegacyReads(LegacyEnvelope(UpdateBytes(RecordUpdate(t)), t.signature));
    LegacyReads(LegacyEnvelope(UpdateBytes(IdentityUpdate(t)), t.nextSignature));
  }

  /**
   Both writes are accepted under the lookup key of the first; the second leaves a record whose
   owner field is the name and whose payload names another object.
   */
  lemma IdentityShapedTakesOver(w: Wire, j: Bytes, t: Takeover)
    requires UsesCodec(w) && Sound(w) && SignedTakeover(w, j, t)
    ensures var k, x, e := w.sha256(t.name), RecordEnvelope(t), IdentityEnvelope(t);
            && ProviderOverwrite(w, k, x, None).Some? && ProviderOverwrite(w, k, x, None).value.owner == t.owner
            && ProviderOverwrite(w, k, e, Some(x)).Some? && ProviderOverwrite(w, k, e, Some(x)).value.owner == t.name
            && IdentityShaped(w, e) && PayloadAt(w, e) == w.providerPayload(t.next)
  {
    hide UsesCodec, UpdateBytes, RecordEnvelope, IdentityEnvelope, Numbered, SmallDict, Lookup;
    RecordReads(w, j, t);
    Fields([ByteString(t.owner)]);
    Fields([ByteString(t.name), ByteString(t.owner)]);
    OwnerField1(t.owner);
    LookupNone(Numbered([ByteString(t.owner)]), 2);
  }

  // ---------- such material exists ----------

  function OneObject(d: Dict): Option<ProviderPayload> {
    if d == [] then None else Some(Active(ToHex(ZeroHash())))
  }

  /** The hypotheses above can be met. */
  lemma MaterialExists() returns (w: Wire, m: Material, t: Takeover)
    ensures UsesCodec(w) && Sound(w) && Signed(w, ZeroHash(), m) && SignedTakeover(w, ZeroHash(), t)
  {
    hide UpdateBytes, Numbered, UsesCodec, Sound, SmallDict, ToHex, FromHex;
    w := ObjectWire();
    ObjectWireIsSound();
    var payload := Numbered([Uint(0)]);
    OnePayload(payload);
    var a, b, c, s := Repeat(0, 32), Repeat(1, 32), Repeat(2, 32), Repeat(0, 64);
    assert a[0] == 0 && b[0] == 1 && c[0] == 2;
    m := Material(a, payload, [a, b, c], [a, b, c], [s, s], [s, s]);
    t := Takeover(a, [7], payload, payload, s, s);
  }

  function ObjectWire(): Wire {
    ConcreteWire(OneObject, FlatHash, AnySignature)
  }

  lemma ObjectWireIsSound()
    ensures UsesCodec(ObjectWire()) && Sound(ObjectWire())
  {
    ConcreteWireUsesCodec(OneObject, FlatHash, AnySignature);
    ConcreteWireSound(ObjectWire());
  }

  lemma OnePayload(payload: Dict)
    requires payload == Numbered([Uint(0)])
    ensures ActivePayload(ObjectWire(), ZeroHash(), payload)
  {
    hide FromHex, ToHex;
    HexRoundTrip(ZeroHash());
    Fields([Uint(0)]);
  }
}
