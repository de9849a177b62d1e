/**
 The wire format itself: where each part of a record sits in its map, exactly which records can
 be encoded, and the encoder's agreement with the examples of RFC 7049.
 */
module WireFormat {
  import opened Basics
  import opened Utf8
  import opened Cbor
  import opened KeyOrder
  import opened Schema
  import opened Codec

  // ---------- layout ----------

  predicate SignerLayout(x: Item, s: Signer) {
    && x.Map? && Keys(x.entries) == {1, 2}
    && Lookup(x.entries, 1) == Some(Text(s.id)) && Lookup(x.entries, 2) == Some(ByteString(s.key))
  }

  predicate ProofLayout(x: Item, p: Proof) {
    && x.Map? && Keys(x.entries) == {1, 2}
    && Lookup(x.entries, 1) == Some(match p.id case Some(id) => Text(id) case None => Null)
    && Lookup(x.entries, 2) == Some(ByteString(p.signature))
  }

  predicate AuthorizationLayout(x: Item, a: Authorization) {
    && x.Map? && Keys(x.entries) == {1, 2, 3, 4, 5, 6, 7}
    && Lookup(x.entries, 1) == Some(Uint(1))
    && Lookup(x.entries, 2) == Some(Uint(a.kind)) && Lookup(x.entries, 3) == Some(Uint(a.operation))
    && Lookup(x.entries, 4) == Some(Uint(a.epoch)) && Lookup(x.entries, 5) == Some(Uint(a.threshold))
    && Lookup(x.entries, 7) == Some(ByteString(a.predecessor))
    && match Lookup(x.entries, 6)
       case Some(Array(xs)) =>
         |xs| == |a.signers| && forall i :: 0 <= i < |xs| ==> SignerLayout(xs[i], a.signers[i])
       case _ => false
  }

  predicate UpdateLayout(x: Item, u: SignedUpdate) {
    && x.Map? && Keys(x.entries) == (if u.auth.Some? then {1, 2, 3, 4} else {1, 2, 3})
    && Lookup(x.entries, 1) == Some(Map(u.fields)) && Lookup(x.entries, 2) == Some(Map(u.payload))
    && Lookup(x.entries, 3) == Some(Uint(u.seqNo))
    && (u.auth.Some? ==> Lookup(x.entries, 4).Some? && AuthorizationLayout(Lookup(x.entries, 4).value, u.auth.value))
  }

  predicate EnvelopeLayout(x: Item, env: MultisignatureEnvelope) {
    && x.Map? && Keys(x.entries) == {1, 2, 3}
    && Lookup(x.entries, 1) == Some(Uint(1)) && Lookup(x.entries, 2) == Some(ByteString(env.update))
    && match Lookup(x.entries, 3)
       case Some(Array(xs)) =>
         |xs| == |env.proofs| && forall i :: 0 <= i < |xs| ==> ProofLayout(xs[i], env.proofs[i])
       case _ => false
  }

  predicate LegacyLayout(x: Item, env: LegacyEnvelope) {
    && x.Map? && Keys(x.entries) == {1, 2}
    && Lookup(x.entries, 1) == Some(ByteString(env.update)) && Lookup(x.entries, 2) == Some(ByteString(env.signature))
  }

  lemma ColumnsAreKeys(x: Item, n: nat)
    requires Columns(x, n).Some?
    ensures x.Map? && forall k: nat :: k in Keys(x.entries) <==> 1 <= k <= n
    ensures forall k: nat :: 1 <= k <= n ==> Lookup(x.entries, k) == Some(Columns(x, n).value[k - 1])
  {
    forall k: nat | 1 <= k <= n ensures Lookup(x.entries, k) == Some(Columns(x, n).value[k - 1]) {
      assert k in Keys(x.entries) && Columns(x, n).value[k - 1] == LookupKey(x.entries, k);
    }
  }

  lemma ReadSignerLayout(x: Item)
    ensures ReadSigner(x).Some? ==> SignerLayout(x, ReadSigner(x).value)
  {
    hide Lookup, Columns;
    if ReadSigner(x).Some? { ColumnsAreKeys(x, 2); }
  }

  lemma ReadProofLayout(x: Item)
    ensures ReadProof(x).Some? ==> ProofLayout(x, ReadProof(x).value)
  {
    hide Lookup, Columns;
    if ReadProof(x).Some? { ColumnsAreKeys(x, 2); }
  }

  lemma ReadAuthorizationLayout(x: Item)
    ensures ReadAuthorization(x).Some? ==> AuthorizationLayout(x, ReadAuthorization(x).value)
  {
    hide Lookup, Columns, ReadSigner, SignerLayout;
    if ReadAuthorization(x).Some? {
      ColumnsAreKeys(x, 7);
      var xs := Columns(x, 7).value[5].items;
      forall i | 0 <= i < |xs| ensures SignerLayout(xs[i], ReadAuthorization(x).value.signers[i]) {
        ReadSignerLayout(xs[i]);
      }
    }
  }

  /** Every accepted SignedUpdate has its parts at their keys, and no other keys. */
  lemma DecodedUpdateLayout(decoder: PayloadDecoder, b: Bytes)
    requires DecodeSignedUpdate(decoder, b).Some?
    ensures Loads(b).Some? && UpdateLayout(Loads(b).value, DecodeSignedUpdate(decoder, b).value)
  {
    hide Lookup, Columns, Loads, IsCanonicalCbor, AuthorizationLayout, ReadAuthorization, NormalizeUpdate;
    CanonicalReencodes(b);
    var x := Loads(b).value;
    var vs := ReadUpdateColumns(x).value;
    ColumnsAreKeys(x, |vs|);
    if |vs| == 4 { ReadAuthorizationLayout(vs[3]); }
    NormalizedIsRead(decoder, ReadUpdate(x).value);
  }

  /** So has every accepted multisignature envelope. */
  lemma DecodedEnvelopeLayout(decoder: PayloadDecoder, b: Bytes)
    requires DecodeMultisignatureEnvelope(decoder, b).Some?
    ensures Loads(b).Some? && EnvelopeLayout(Loads(b).value, DecodeMultisignatureEnvelope(decoder, b).value)
  {
    hide Lookup, Columns, Loads, IsCanonicalCbor, CarriesAuthorization, NormalizeProofs, ReadProof, ProofLayout;
    CanonicalReencodes(b);
    var x := Loads(b).value;
    ColumnsAreKeys(x, 3);
    var xs := Columns(x, 3).value[2].items;
    forall i | 0 <= i < |xs| ensures ProofLayout(xs[i], ReadEnvelope(x).value.proofs[i]) {
      ReadProofLayout(xs[i]);
    }
  }

  /** And every accepted single-key envelope. */
  lemma DecodedLegacyLayout(b: Bytes)
    requires DecodeSignedEnvelope(b).Some?
    ensures Loads(b).Some? && LegacyLayout(Loads(b).value, DecodeSignedEnvelope(b).value)
  {
    hide Lookup, Columns, Loads, IsCanonicalCbor;
    CanonicalReencodes(b);
    ColumnsAreKeys(Loads(b).value, 2);
  }

  /**
   What is seen of bytes that were not validated: they count as a multisignature envelope when they
   are a map keyed {1,2,3}, and the update inside is key 1 of a two-key map or key 2 of a three-key one.
   */
  lemma LooseLayout(b: Bytes)
    ensures LooksLikeMultisignature(b) <==>
              Loads(b).Some? && Loads(b).value.Map? && Keys(Loads(b).value.entries) == {1, 2, 3}
    ensures LooseUpdate(b) ==
            if Loads(b).None? || !Loads(b).value.Map? then None
            else var d := Loads(b).value.entries;
                 if Keys(d) == {1, 2} then BytesOf(Lookup(d, 1))
                 else if Keys(d) == {1, 2, 3} then BytesOf(Lookup(d, 2)) else None
  {
    hide Lookup, Columns, Loads;
    if Loads(b).Some? {
      KeysOf(Loads(b).value, 2);
      KeysOf(Loads(b).value, 3);
    }
  }

  lemma KeysOf(x: Item, n: nat)
    requires n == 2 || n == 3
    ensures Columns(x, n).Some? <==> x.Map? && Keys(x.entries) == if n == 2 then {1, 2} else {1, 2, 3}
    ensures Columns(x, n).Some? ==>
              forall k: nat :: 1 <= k <= n ==> Lookup(x.entries, k) == Some(Columns(x, n).value[k - 1])
  {
    hide Lookup;
    if Columns(x, n).Some? { ColumnsAreKeys(x, n); }
    if x.Map? && Keys(x.entries) == if n == 2 then {1, 2} else {1, 2, 3} {
      forall i | 0 <= i < |x.entries| ensures 1 <= x.entries[i].key <= n {
        KeyMember(x.entries, i);
      }
    }
  }

  lemma NormalizedIsRead(decoder: PayloadDecoder, u: SignedUpdate)
    ensures NormalizeUpdate(decoder, u, false).Some? ==> NormalizeUpdate(decoder, u, false) == Some(u)
  {
  }

  // ---------- what can be encoded ----------

  predicate EncodableSigner(s: Signer) {
    0 < |s.id| <= 256 && ValidUtf8(s.id) && |s.key| == 32
  }

  predicate EncodableAuthorization(a: Authorization) {
    && a.kind in {1, 2} && a.operation in {1, 2, 3, 4, 5} && a.epoch < WORD && 1 <= a.threshold <= |a.signers| < WORD
    && |a.predecessor| == 32
    && (forall i :: 0 <= i < |a.signers| ==> EncodableSigner(a.signers[i]))
    && forall i, j :: 0 <= i < j < |a.signers| ==>
         a.signers[i].id != a.signers[j].id && a.signers[i].key != a.signers[j].key
  }

  /** An Identity holds just a name and a 32-byte owner key; a Provider record an owner key and a known payload. */
  predicate ShapeOfKind(decoder: PayloadDecoder, u: SignedUpdate, kind: nat) {
    match kind
    case 1 =>
      && Keys(u.fields) == {1, 2} && |u.payload| == 0
      && Lookup(u.fields, 1).value.ByteString? && Lookup(u.fields, 2).value.ByteString?
      && |Lookup(u.fields, 2).value.bytes| == 32
    case 2 =>
      && Keys(u.fields) == {1} && Lookup(u.fields, 1).value.ByteString? && |Lookup(u.fields, 1).value.bytes| == 32
      && decoder(u.payload).Some?
    case _ => false
  }

  lemma ShapeExactly(decoder: PayloadDecoder, u: SignedUpdate, kind: nat)
    ensures KindBinding(decoder, u, kind) <==> ShapeOfKind(decoder, u, kind)
  {
    hide Lookup;
  }

  predicate EncodableUpdate(decoder: PayloadDecoder, u: SignedUpdate) {
    && WellFormedDict(u.fields) && WellFormedDict(u.payload) && PlainKeys(u.fields) && PlainKeys(u.payload)
    && u.seqNo < WORD
    && (u.auth.Some? ==> EncodableAuthorization(u.auth.value) && ShapeOfKind(decoder, u, u.auth.value.kind))
  }

  predicate EncodableProof(p: Proof) {
    && |p.signature| == 64
    && (p.id.Some? ==> 0 < |p.id.value| <= 256 && ValidUtf8(p.id.value))
  }

  lemma SignerEncodes(s: Signer)
    ensures EncodableSigner(s) <==> GoodSigner(s) && WellFormed(SignerItem(s))
  {
    hide ValidUtf8;
    NumberedWellFormed([Text(s.id), ByteString(s.key)]);
    assert WellFormed(SignerItem(s)) ==>
      WellFormed([Text(s.id), ByteString(s.key)][0]) && WellFormed([Text(s.id), ByteString(s.key)][1]);
  }

  /** Ordering the Signers does not change whether they can be encoded. */
  lemma SignersEncode(signers: seq<Signer>)
    ensures var n := NormalizeSigners(signers, true);
            (signers != [] && |signers| < WORD
             && (forall i :: 0 <= i < |signers| ==> EncodableSigner(signers[i]))
             && (forall i, j :: 0 <= i < j < |signers| ==>
                   signers[i].id != signers[j].id && signers[i].key != signers[j].key))
            <==> n.Some? && |n.value| < WORD && WellFormed(Array(BuildAll(n.value, SignerItem)))
    ensures NormalizeSigners(signers, true).Some? ==> |NormalizeSigners(signers, true).value| == |signers|
  {
    hide EncodableSigner, GoodSigner, SignerItem, Sort, SortedBy;
    var n := NormalizeSigners(signers, true);
    forall s ensures EncodableSigner(s) <==> GoodSigner(s) && WellFormed(SignerItem(s)) {
      SignerEncodes(s);
    }
    DistinctNames(signers);
    SortSorts(signers, SignerId);
    if n.Some? {
      assert |multiset(n.value)| == |n.value| && |multiset(signers)| == |signers|;
      var xs := BuildAll(n.value, SignerItem);
      if forall i :: 0 <= i < |signers| ==> EncodableSigner(signers[i]) {
        forall i | 0 <= i < |xs| ensures WellFormed(xs[i]) {
          assert n.value[i] in multiset(signers);
        }
      }
      if forall i :: 0 <= i < |xs| ==> WellFormed(xs[i]) {
        forall i | 0 <= i < |signers| ensures EncodableSigner(signers[i]) {
          assert signers[i] in multiset(n.value);
          var j :| 0 <= j < |n.value| && n.value[j] == signers[i];
          assert WellFormed(xs[j]);
        }
      }
    }
  }

  lemma DistinctNames(signers: seq<Signer>)
    ensures DistinctBy(signers, SignerId) && DistinctBy(signers, SignerKey) <==>
              forall i, j :: 0 <= i < j < |signers| ==>
                signers[i].id != signers[j].id && signers[i].key != signers[j].key
  {
    if DistinctBy(signers, SignerId) && DistinctBy(signers, SignerKey) {
      forall i, j | 0 <= i < j < |signers|
        ensures signers[i].id != signers[j].id && signers[i].key != signers[j].key
      {
        assert SignerId(signers[i]) != SignerId(signers[j]) && SignerKey(signers[i]) != SignerKey(signers[j]);
      }
    }
  }

  lemma AuthorizationEncodes(a: Authorization)
    ensures EncodableAuthorization(a) <==>
              && NormalizeAuthorization(a, true).Some?
              && WellFormed(AuthorizationItem(NormalizeAuthorization(a, true).value))
  {
    hide EncodableSigner, SignerItem, NormalizeSigners, GoodSigners, SortedBy;
    SignersEncode(a.signers);
    var n := NormalizeAuthorization(a, true);
    if n.Some? {
      var vs := AuthorizationColumns(n.value, BuildAll(n.value.signers, SignerItem));
      NumberedWellFormed(vs);
      assert (forall i :: 0 <= i < |vs| ==> WellFormed(vs[i])) <==>
               WellFormed(vs[3]) && WellFormed(vs[4]) && WellFormed(vs[5]);
    }
  }

  /** Exactly which records encode_signed_update accepts, in whatever order their keys and Signers come. */
  lemma UpdateEncodesExactly(decoder: PayloadDecoder, u: SignedUpdate)
    ensures EncodeSignedUpdate(decoder, u).Some? <==> EncodableUpdate(decoder, u)
  {
    hide EncodableAuthorization, AuthorizationItem, NormalizeAuthorization, KindBinding, ShapeOfKind, PlainKeys,
         WellFormedDict, Loads, IsCanonicalCbor;
    if u.auth.Some? {
      AuthorizationEncodes(u.auth.value);
      ShapeExactly(decoder, u, u.auth.value.kind);
    }
    var n := NormalizeUpdate(decoder, u, true);
    if n.Some? {
      var vs := UpdateColumns(n.value);
      NumberedWellFormed(vs);
      assert vs[0] == Map(u.fields) && vs[1] == Map(u.payload) && vs[2] == Uint(u.seqNo);
      assert (forall i :: 0 <= i < |vs| ==> WellFormed(vs[i])) <==>
               && WellFormed(vs[0]) && WellFormed(vs[1]) && WellFormed(vs[2])
               && (u.auth.Some? ==> WellFormed(vs[3]));
      DictWellFormed(u.fields);
      DictWellFormed(u.payload);
    }
    if u.auth.Some? && EncodableAuthorization(u.auth.value) { NormalizedKind(u.auth.value); }
    if u.auth.Some? && NormalizeAuthorization(u.auth.value, true).Some? { NormalizedKind(u.auth.value); }
  }

  lemma DictWellFormed(d: Dict)
    ensures WellFormed(Map(d)) <==> WellFormedDict(d)
  {
  }

  lemma NormalizedKind(a: Authorization)
    ensures NormalizeAuthorization(a, true).Some? ==> NormalizeAuthorization(a, true).value.kind == a.kind
  {
  }

  lemma ProofEncodesExactly(p: Proof)
    ensures EncodableProof(p) <==> GoodProof(p) && WellFormed(ProofItem(p))
  {
    hide ValidUtf8;
    var vs := [ProofIdItem(p.id), ByteString(p.signature)];
    NumberedWellFormed(vs);
    assert WellFormed(ProofItem(p)) ==> WellFormed(vs[0]);
  }

  lemma EnvelopeItemEncodes(update: Bytes, ps: seq<Proof>)
    ensures WellFormed(EnvelopeItem(update, ps)) <==>
              |update| < WORD && |ps| < WORD && forall i :: 0 <= i < |ps| ==> WellFormed(ProofItem(ps[i]))
  {
    hide ProofItem;
    var xs := BuildAll(ps, ProofItem);
    var vs := EnvelopeColumns(update, xs);
    NumberedWellFormed(vs);
    assert vs[0] == Uint(1) && vs[1] == ByteString(update) && vs[2] == Array(xs);
    if WellFormed(EnvelopeItem(update, ps)) {
      assert WellFormed(vs[1]) && WellFormed(vs[2]);
      forall i | 0 <= i < |ps| ensures WellFormed(ProofItem(ps[i])) {
        assert WellFormed(xs[i]);
      }
    }
  }

  /** Exactly which envelopes encode_multisignature_envelope accepts. */
  lemma EnvelopeEncodesExactly(decoder: PayloadDecoder, update: Bytes, proofs: seq<Proof>)
    ensures EncodeMultisignatureEnvelope(decoder, update, proofs).Some? <==>
              && CarriesAuthorization(decoder, update) && |update| < WORD && |proofs| < WORD
              && (forall i :: 0 <= i < |proofs| ==> EncodableProof(proofs[i]))
              && forall i, j :: 0 <= i < j < |proofs| ==> proofs[i].id != proofs[j].id
  {
    hide CarriesAuthorization, EncodableProof, GoodProof, EnvelopeItem, Sort, SortedBy, Loads, IsCanonicalCbor,
         WellFormed;
    var n := NormalizeProofs(proofs, true);
    forall p ensures EncodableProof(p) <==> GoodProof(p) && WellFormed(ProofItem(p)) {
      ProofEncodesExactly(p);
    }
    if forall i :: 0 <= i < |proofs| ==> GoodProof(proofs[i]) { DistinctIds(proofs); }
    if n.Some? {
      SortSorts(proofs, ProofKey);
      SameProofs(proofs, n.value);
      EnvelopeItemEncodes(update, n.value);
    }
  }

  lemma SameProofs(ps: seq<Proof>, qs: seq<Proof>)
    requires multiset(ps) == multiset(qs)
    ensures |ps| == |qs|
    ensures (forall i :: 0 <= i < |ps| ==> EncodableProof(ps[i])) <==>
              forall i :: 0 <= i < |qs| ==> EncodableProof(qs[i])
  {
    hide EncodableProof;
    assert |multiset(ps)| == |ps| && |multiset(qs)| == |qs|;
    forall i | 0 <= i < |ps| ensures ps[i] in qs {
      assert ps[i] in multiset(qs);
    }
    forall i | 0 <= i < |qs| ensures qs[i] in ps {
      assert qs[i] in multiset(ps);
    }
  }

  /** Non-empty identifiers, and null, are told apart by their sort keys. */
  lemma DistinctIds(ps: seq<Proof>)
    requires forall i :: 0 <= i < |ps| ==> GoodProof(ps[i])
    ensures DistinctBy(ps, ProofKey) <==> forall i, j :: 0 <= i < j < |ps| ==> ps[i].id != ps[j].id
  {
    forall i, j | 0 <= i < j < |ps| ensures ProofKey(ps[i]) == ProofKey(ps[j]) <==> ps[i].id == ps[j].id {
      assert GoodProof(ps[i]) && GoodProof(ps[j]);
    }
  }

  // ---------- the encoder against appendix A of RFC 7049 ----------

  lemma IntegerExamples()
    ensures Head(0, 0) == [0x00] && Head(0, 23) == [0x17] && Head(0, 24) == [0x18, 0x18]
    ensures Head(0, 1000) == [0x19, 0x03, 0xE8] && Head(0, 1000000) == [0x1A, 0x00, 0x0F, 0x42, 0x40]
  {
    assert BigEndian(24, 1) == BigEndian(0, 0) + [24];
    assert BigEndian(1000, 2) == BigEndian(3, 1) + [0xE8] && BigEndian(3, 1) == BigEndian(0, 0) + [3];
    assert BigEndian(1000000, 4) == BigEndian(3906, 3) + [0x40] && BigEndian(3906, 3) == BigEndian(15, 2) + [0x42];
    assert BigEndian(15, 2) == BigEndian(0, 1) + [0x0F] && BigEndian(0, 1) == BigEndian(0, 0) + [0];
  }

  lemma StringExamples()
    ensures Plain(ByteString([1, 2, 3, 4])) == [0x44, 1, 2, 3, 4]
    ensures ValidUtf8([0x61]) && Plain(Text([0x61])) == [0x61, 0x61]
    ensures Plain(Uint(10)) == [0x0A] && Plain(Null) == [0xF6]
  {
    assert [0x61][1..] == [];
  }

  lemma ArrayExample()
    ensures Plain(Array([Uint(1), Uint(2)])) == [0x82, 1, 2]
  {
    var xs := [Uint(1), Uint(2)];
    assert xs[1..] == [Uint(2)] && xs[1..][1..] == [];
    assert PlainItems(xs[1..]) == [2] + PlainItems([]);
  }

  lemma MapExample()
    ensures WellFormed(Map([Entry(1, Uint(2))])) && Plain(Map([Entry(1, Uint(2))])) == [0xA1, 1, 2]
  {
    var d := [Entry(1, Uint(2))];
    assert WellFormedEntry(d[0]) && d[1..] == [];
    assert PlainEntry(d[0]) == [1, 2];
  }

  /** And the decoder's leniency: an argument wider than it need be, bytes after the item, a key given twice. */
  lemma LenientExamples()
    ensures Loads([0x18, 0x01]) == Some(Uint(1)) && !IsCanonicalCbor([0x18, 0x01])
    ensures Loads([0x07, 0xFF]) == Some(Uint(7)) && !IsCanonicalCbor([0x07, 0xFF])
    ensures Loads([0xA2, 1, 2, 1, 3]) == Some(Map([Entry(1, Uint(3))]))
  {
    LenientIntegers();
    LenientMap();
  }

  lemma LenientIntegers()
    ensures Loads([0x18, 0x01]) == Some(Uint(1)) && Dumps(Uint(1)) == [1]
    ensures Loads([0x07, 0xFF]) == Some(Uint(7)) && Dumps(Uint(7)) == [7]
  {
    var b: Bytes := [0x18, 0x01];
    assert b[1..] == [1] && [1][..1] == [1] && FromBigEndian([1]) == 256 * FromBigEndian([1][..0]) + 1;
    assert ParseHead(b) == Some((0, 1, []));
    assert ParseHead([0x07, 0xFF]) == Some((0, 7, [0xFF]));
  }

  lemma LenientMap()
    ensures Loads([0xA2, 1, 2, 1, 3]) == Some(Map([Entry(1, Uint(3))]))
  {
    var b: Bytes := [0xA2, 1, 2, 1, 3];
    SmallHead(1, [2, 1, 3]);
    SmallHead(2, [1, 3]);
    SmallHead(1, [3]);
    SmallHead(3, []);
    assert ParseHead(b) == Some((5, 2, [1, 2, 1, 3]));
    var first := Assign([], Entry(1, Uint(2)));
    assert Assign(first, Entry(1, Uint(3))) == [Entry(1, Uint(3))];
    assert ParseEntries(1, [1, 3], first) == ParseEntries(0, [], [Entry(1, Uint(3))]);
    assert ParseEntries(2, [1, 2, 1, 3], []) == ParseEntries(1, [1, 3], first);
  }

  lemma SmallHead(n: byte, rest: Bytes)
    requires n < 24
    ensures ParseHead([n] + rest) == Some((0, n as nat, rest)) && ParseKey([n] + rest) == Some((n as nat, [], rest))
    ensures Parse([n] + rest) == Some(Parsed(Uint(n as nat), rest))
  {
    assert ([n] + rest)[1..] == rest;
  }
}
