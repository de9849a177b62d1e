/**
 Chains on which the two ways of accepting a history disagree: the upgrade step takes a legacy
 Identity anchor with a third record field, and replay refuses it.  Whatever SHA-256 and Ed25519
 are, two signatures of the owner make such a chain; an incoming PUT then installs it.
 `Lineage.LegacyStepVersusReplay` says exactly which anchors do this.
 */
module AnchorGap {
  import opened Basics
  import opened Utf8
  import opened Cbor
  import opened Schema
  import opened Codec
  import opened Verification
  import opened Lineage
  import opened RecordValidator
  import opened DurableStore
  import opened NodeProtocol
  import opened SmallRecords

  /** Field 3 makes the record one that replay refuses as an anchor. */
  function AnchorOf(name: Bytes, owner: Bytes): SignedUpdate {
    SignedUpdate(Numbered([ByteString(name), ByteString(owner), Uint(0)]), [], 1, None)
  }

  /** The owner's upgrade of that record to a 2-of-3 set of which it is a member. */
  function UpgradeOf(name: Bytes, keys: seq<Bytes>, predecessor: Bytes): SignedUpdate
    requires |keys| == 3
  {
    SignedUpdate(Numbered([ByteString(name), ByteString(keys[0])]), [], 2,
                 Some(Authorization(IDENTITY, UPGRADE, 1, 2, Trio(97, keys), predecessor)))
  }

  /** A name of under 64 KiB, an owner key and two more keys, and the owner's signatures of both updates. */
  datatype Material = Material(
    name: Bytes, owner: Bytes, second: Bytes, third: Bytes, anchorSignature: Bytes, upgradeSignature: Bytes)
  {
    function Members(): (keys: seq<Bytes>)
      ensures |keys| == 3
    {
      [owner, second, third]
    }
  }

  ghost predicate Signed(w: Wire, m: Material) {
    && |m.name| < 0x1_0000 && DistinctKeys32(m.Members()) && |m.anchorSignature| < WORD && |m.upgradeSignature| == 64
    && Verifies(w, m.owner, AnchorUpdateOf(m), m.anchorSignature)
    && Verifies(w, m.owner, UpgradeUpdateOf(w, m), m.upgradeSignature)
  }

  function AnchorUpdateOf(m: Material): Bytes {
    UpdateBytes(AnchorOf(m.name, m.owner))
  }

  function UpgradeUpdateOf(w: Wire, m: Material): Bytes {
    UpdateBytes(UpgradeOf(m.name, m.Members(), w.sha256(AnchorUpdateOf(m))))
  }

  function AnchorEnvelope(m: Material): Bytes {
    LegacyBytes(LegacyEnvelope(AnchorUpdateOf(m), m.anchorSignature))
  }

  function UpgradeProofs(m: Material): seq<Proof> {
    [Proof(Some([97]), m.upgradeSignature)]
  }

  function UpgradeEnvelope(w: Wire, m: Material): Bytes {
    EnvelopeBytes(w.providerPayload, UpgradeUpdateOf(w, m), UpgradeProofs(m))
  }

  // ---------- the two envelopes read back ----------

  lemma AnchorReads(w: Wire, m: Material)
    requires UsesCodec(w) && Signed(w, m)
    ensures w.signedUpdate(AnchorUpdateOf(m)) == Some(AnchorOf(m.name, m.owner))
    ensures w.legacy(AnchorEnvelope(m)) == Some(LegacyEnvelope(AnchorUpdateOf(m), m.anchorSignature))
  {
    hide DecodeSignedUpdate, DecodeSignedEnvelope, UpdateBytes, LegacyBytes, Numbered, SmallDict, Verifies,
         NestsAuthorization;
    Fields([ByteString(m.name), ByteString(m.owner), Uint(0)]);
    NoFields();
    UpdateReads(w.providerPayload, AnchorOf(m.name, m.owner));
    LegacyReads(LegacyEnvelope(AnchorUpdateOf(m), m.anchorSignature));
  }

  lemma UpgradedReads(w: Wire, m: Material)
    requires UsesCodec(w) && Sound(w) && Signed(w, m)
    ensures w.signedUpdate(UpgradeUpdateOf(w, m))
            == Some(UpgradeOf(m.name, m.Members(), w.sha256(AnchorUpdateOf(m))))
    ensures w.multisignature(UpgradeEnvelope(w, m))
            == Some(MultisignatureEnvelope(UpgradeUpdateOf(w, m), UpgradeProofs(m)))
  {
    hide DecodeSignedUpdate, DecodeMultisignatureEnvelope, UpdateBytes, EnvelopeBytes, Numbered, SmallDict, Verifies,
         GoodTrio, Lookup, ValidUtf8;
    var u := UpgradeOf(m.name, m.Members(), w.sha256(AnchorUpdateOf(m)));
    Fields([ByteString(m.name), ByteString(m.owner)]);
    NoFields();
    TrioIsGood(97, m.Members());
    UpdateReads(w.providerPayload, u);
    LetterIsText(97);
    EnvelopeReads(w.providerPayload, UpgradeUpdateOf(w, m), UpgradeProofs(m));
  }

  // ---------- the step accepts and the replay refuses ----------

  lemma FieldsRead(w: Wire, m: Material)
    requires Signed(w, m)
    ensures var f := AnchorOf(m.name, m.owner).fields;
            && Lookup(f, 1) == Some(ByteString(m.name)) && Lookup(f, 2) == Some(ByteString(m.owner)) && 3 in Keys(f)
    ensures var f := UpgradeOf(m.name, m.Members(), []).fields;
            Lookup(f, 1) == Some(ByteString(m.name)) && Lookup(f, 2) == Some(ByteString(m.owner))
  {
    hide Lookup, SmallDict, Verifies;
    Fields([ByteString(m.name), ByteString(m.owner)]);
    Fields([ByteString(m.name), ByteString(m.owner), Uint(0)]);
  }

  lemma AnchorIsIllShaped(w: Wire, m: Material)
    requires UsesCodec(w) && Signed(w, m)
    ensures IllShapedLegacy(w, w.sha256(m.name), AnchorEnvelope(m))
    ensures var l := DecodeLegacyState(w, w.sha256(m.name), AnchorEnvelope(m)).value;
            l.update == AnchorUpdateOf(m) && l.owner == m.owner && l.kind == IDENTITY && l.seqNo == 1
            && l.fields == AnchorOf(m.name, m.owner).fields
  {
    hide UsesCodec, Lookup, Numbered, AnchorEnvelope, AnchorUpdateOf;
    AnchorReads(w, m);
    FieldsRead(w, m);
  }

  lemma OwnerIsFirst(keys: seq<Bytes>)
    requires DistinctKeys32(keys)
    ensures SignerIdForKey(Trio(97, keys), keys[0]) == Some([97])
  {
    var ss := Trio(97, keys);
    assert IdsOfKey(ss[1..], keys[0]) == IdsOfKey(ss[2..], keys[0]) == [];
  }

  /** The state the upgrade step gives, with a history that no replay accepts. */
  lemma UpgradeAccepted(w: Wire, m: Material)
    requires UsesCodec(w) && Sound(w) && Signed(w, m)
    ensures var r := ValidateUpdate(w, w.sha256(m.name), UpgradeEnvelope(w, m), None, Some(AnchorEnvelope(m)));
            && r.Some? && r.value.kind == IDENTITY && r.value.seqNo == 2
            && r.value.update == UpgradeUpdateOf(w, m) && r.value.hash == w.sha256(UpgradeUpdateOf(w, m))
            && r.value.history == Some([AnchorEnvelope(m), UpgradeEnvelope(w, m)])
  {
    hide UsesCodec, Lookup, Numbered, AnchorEnvelope, UpgradeEnvelope, AnchorUpdateOf, UpgradeUpdateOf,
         DecodeLegacyState, SignerIdForKey;
    UpgradedReads(w, m);
    AnchorIsIllShaped(w, m);
    FieldsRead(w, m);
    OwnerIsFirst(m.Members());
    var u := UpgradeOf(m.name, m.Members(), w.sha256(AnchorUpdateOf(m)));
    assert u.fields == UpgradeOf(m.name, m.Members(), []).fields;
  }

  /**
   For every wire on which the owner's two signatures verify, the upgrade step accepts the chain
   and the replay of the very same two envelopes does not.
   */
  lemma UpgradeAcceptedReplayRefused(w: Wire, m: Material)
    requires UsesCodec(w) && Sound(w) && Signed(w, m)
    ensures ValidateUpdate(w, w.sha256(m.name), UpgradeEnvelope(w, m), None, Some(AnchorEnvelope(m))).Some?
    ensures ValidateHistory(w, w.sha256(m.name), [AnchorEnvelope(m), UpgradeEnvelope(w, m)]).None?
  {
    hide UsesCodec, Signed, ValidateUpdate, ValidateHistory, AnchorEnvelope, UpgradeEnvelope;
    UpgradeAccepted(w, m);
    AnchorIsIllShaped(w, m);
    LegacyStepVersusReplay(w, w.sha256(m.name), AnchorEnvelope(m), UpgradeEnvelope(w, m));
  }

  // ---------- and a node takes it ----------

  function GapActions(w: Wire, m: Material): seq<Action> {
    [IncomingPut(w.sha256(m.name), UpgradeEnvelope(w, m), Some(AnchorEnvelope(m)), true)]
  }

  /**
   One incoming PUT over the legacy record in the DHT makes it the accepted head of a fresh node,
   with a history that does not replay; and no chain makes that head readable again, short of a
   SHA-256 collision with the legacy update.
   */
  lemma UnreadableHeadReached(w: Wire, m: Material)
    requires UsesCodec(w) && Sound(w) && Signed(w, m)
    ensures var k, x, e := w.sha256(m.name), AnchorEnvelope(m), UpgradeEnvelope(w, m);
            var slot := SlotAt(RunAll(w, FRESH_NODE, GapActions(w, m)), k);
            && slot == Slot(Some(e), Meta(2, w.sha256(UpgradeUpdateOf(w, m))), Some([x, e]))
            && ValidateHistory(w, k, [x, e]).None?
            && forall chain :: IdentityGet(w, k, e, chain).Some? ==>
                 chain.Some? && |chain.value| > 1 && CollidesWith(w, chain.value[|chain.value| - 2], x)
  {
    hide UsesCodec, Sound, Signed, ValidateUpdate, ValidateHistory, AnchorEnvelope, UpgradeEnvelope, IdentityGet,
         CollidesWith, RunAll, SlotAt, GapActions;
    UpgradeAcceptedReplayRefused(w, m);
    UpgradeAccepted(w, m);
    NeverReadable(w, m);
    PutInstalls(w, m, ValidateUpdate(w, w.sha256(m.name), UpgradeEnvelope(w, m), None, Some(AnchorEnvelope(m))).value);
  }

  lemma NeverReadable(w: Wire, m: Material)
    requires UsesCodec(w) && Sound(w) && Signed(w, m)
    ensures var k, x, e := w.sha256(m.name), AnchorEnvelope(m), UpgradeEnvelope(w, m);
            forall chain :: IdentityGet(w, k, e, chain).Some? ==>
              chain.Some? && |chain.value| > 1 && CollidesWith(w, chain.value[|chain.value| - 2], x)
  {
    hide UsesCodec, Sound, Signed, ValidateUpdate, AnchorEnvelope, UpgradeEnvelope, IdentityGet, IllShapedLegacy,
         CollidesWith;
    var k, x, e := w.sha256(m.name), AnchorEnvelope(m), UpgradeEnvelope(w, m);
    AnchorIsIllShaped(w, m);
    UpgradeAccepted(w, m);
    forall chain | IdentityGet(w, k, e, chain).Some?
      ensures chain.Some? && |chain.value| > 1 && CollidesWith(w, chain.value[|chain.value| - 2], x)
    {
      UpgradeStaysUnreadable(w, k, e, x, ValidateUpdate(w, k, e, None, Some(x)).value, chain);
    }
  }

  lemma PutInstalls(w: Wire, m: Material, s: State)
    requires UsesCodec(w) && Sound(w) && Signed(w, m)
    requires ValidateUpdate(w, w.sha256(m.name), UpgradeEnvelope(w, m), None, Some(AnchorEnvelope(m))) == Some(s)
    ensures SlotAt(RunAll(w, FRESH_NODE, GapActions(w, m)), w.sha256(m.name))
            == Slot(Some(UpgradeEnvelope(w, m)), Meta(s.seqNo, s.hash), s.history)
  {
    hide UsesCodec, ValidateUpdate, AnchorEnvelope, UpgradeEnvelope, AnchorUpdateOf, UpgradeUpdateOf, Lookup, Numbered,
         DecodeLegacyState;
    var k, x, e := w.sha256(m.name), AnchorEnvelope(m), UpgradeEnvelope(w, m);
    UpgradedReads(w, m);
    AnchorReads(w, m);
    FieldsRead(w, m);
    UpgradeAccepted(w, m);
    assert w.isMultisignature(e) && !w.isMultisignature(x);
    assert IdentityOverwrite(w, k, e, Some(x), None).Some?;
    assert GapActions(w, m)[..0] == [];
  }

  // ---------- such material exists ----------

  function NoPayload(d: Dict): Option<ProviderPayload> { None }

  /** The hypotheses above can be met. */
  lemma MaterialExists() returns (w: Wire, m: Material)
    ensures UsesCodec(w) && Sound(w) && Signed(w, m)
  {
    w := ConcreteWire(NoPayload, FlatHash, AnySignature);
    ConcreteWireUsesCodec(NoPayload, FlatHash, AnySignature);
    ConcreteWireSound(w);
    m := Material([7], Repeat(0, 32), Repeat(1, 32), Repeat(2, 32), [], Repeat(0, 64));
    assert m.owner[0] == 0 && m.second[0] == 1 && m.third[0] == 2;
  }
}
