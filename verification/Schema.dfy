/**
 The decoded records, and the codecs and primitives the validators call.  SHA-256, Ed25519
 verification (section 5.1.7 of RFC 8032) and the Provider payload schema stay uninterpreted;
 module `Codec` builds a `Wire` from the concrete CBOR codec and proves `Sound` of it.
 */
module Schema {
  import opened Basics
  import opened Cbor

  const IDENTITY := 1
  const PROVIDER := 2

  const GENESIS := 1
  const ORDINARY_UPDATE := 2
  const REPLACE_SIGNERS := 3
  const UPGRADE := 4
  const OWNER_KEY_ROTATION := 5

  function ZeroHash(): (r: Bytes)
    ensures |r| == 32
  {
    seq(32, i => 0)
  }

  /** A Signer Set member; `id` holds the UTF-8 bytes of the identifier. */
  datatype Signer = Signer(id: Bytes, key: Bytes)

  /** `id` is None for the null signer_id of a legacy owner rotation. */
  datatype Proof = Proof(id: Option<Bytes>, signature: Bytes)

  datatype Authorization = Authorization(
    kind: nat, operation: nat, epoch: nat, threshold: nat, signers: seq<Signer>, predecessor: Bytes)

  /** `auth` is None for the legacy form with keys {1,2,3}. */
  datatype SignedUpdate = SignedUpdate(fields: Dict, payload: Dict, seqNo: nat, auth: Option<Authorization>)

  datatype MultisignatureEnvelope = MultisignatureEnvelope(update: Bytes, proofs: seq<Proof>)

  datatype LegacyEnvelope = LegacyEnvelope(update: Bytes, signature: Bytes)

  datatype ProviderPayload =
    | Active(objectHash: Bytes)
    | Withdrawn(objectHash: Bytes, replacement: Option<Bytes>)

  datatype Wire = Wire(
    isMultisignature: Bytes -> bool,
    looseUpdate: Bytes -> Option<Bytes>,
    looseSeq: Bytes -> Option<nat>,
    multisignature: Bytes -> Option<MultisignatureEnvelope>,
    legacy: Bytes -> Option<LegacyEnvelope>,
    signedUpdate: Bytes -> Option<SignedUpdate>,
    providerPayload: Dict -> Option<ProviderPayload>,
    sha256: Bytes -> Bytes,
    ed25519: (Bytes, Bytes, Bytes) -> bool)

  // ---------- what a decoded authorization map guarantees ----------

  ghost predicate DistinctSigners(signers: seq<Signer>) {
    forall i, j :: 0 <= i < j < |signers| ==>
      signers[i].id != signers[j].id && signers[i].key != signers[j].key
  }

  ghost predicate WellFormedAuthorization(a: Authorization) {
    && (a.kind == IDENTITY || a.kind == PROVIDER)
    && GENESIS <= a.operation <= OWNER_KEY_ROTATION
    && 1 <= a.threshold <= |a.signers|
    && DistinctSigners(a.signers)
    && |a.predecessor| == 32
  }

  predicate IsBytes(x: Option<Item>) {
    x.Some? && x.value.ByteString?
  }

  /** The record an authorization map may be bound to. */
  predicate KindBinding(providerPayload: Dict -> Option<ProviderPayload>, u: SignedUpdate, kind: nat) {
    if kind == IDENTITY then
      && Keys(u.fields) == {1, 2} && u.payload == []
      && IsBytes(Lookup(u.fields, 1))
      && IsBytes(Lookup(u.fields, 2)) && |Lookup(u.fields, 2).value.bytes| == 32
    else
      && kind == PROVIDER
      && Keys(u.fields) == {1}
      && IsBytes(Lookup(u.fields, 1)) && |Lookup(u.fields, 1).value.bytes| == 32
      && providerPayload(u.payload).Some?
  }

  /** What the decoders guarantee; `Codec.ConcreteWireSound` proves it of the concrete ones. */
  ghost predicate Sound(w: Wire) {
    && w.providerPayload([]).None?
    && (forall b :: |w.sha256(b)| == 32)
    && (forall b :: w.multisignature(b).Some? ==>
          && w.isMultisignature(b)
          && w.looseUpdate(b) == Some(w.multisignature(b).value.update)
          && w.signedUpdate(w.multisignature(b).value.update).Some?
          && w.signedUpdate(w.multisignature(b).value.update).value.auth.Some?)
    && (forall b :: w.legacy(b).Some? ==>
          && !w.isMultisignature(b)
          && w.looseUpdate(b) == Some(w.legacy(b).value.update)
          && (w.signedUpdate(w.legacy(b).value.update).Some? ==>
                w.signedUpdate(w.legacy(b).value.update).value.auth.None?))
    && (forall u :: w.signedUpdate(u).Some? ==>
          && w.looseSeq(u) == Some(w.signedUpdate(u).value.seqNo)
          && (w.signedUpdate(u).value.auth.Some? ==>
                && WellFormedAuthorization(w.signedUpdate(u).value.auth.value)
                && KindBinding(w.providerPayload, w.signedUpdate(u).value, w.signedUpdate(u).value.auth.value.kind)))
  }

  /** The signed message is the digest of the canonical SignedUpdate bytes. */
  predicate Verifies(w: Wire, key: Bytes, update: Bytes, signature: Bytes) {
    w.ed25519(key, w.sha256(update), signature)
  }

  function BytesOf(x: Option<Item>): Option<Bytes> {
    if IsBytes(x) then Some(x.value.bytes) else None
  }

  // ---------- hexadecimal object hashes, held as ASCII bytes ----------

  function HexDigit(c: byte): Option<nat> {
    if 0x30 <= c <= 0x39 then Some(c - 0x30)
    else if 0x41 <= c <= 0x46 then Some(c - 0x37)
    else if 0x61 <= c <= 0x66 then Some(c - 0x57)
    else None
  }

  /** bytes.fromhex on an even run of hexadecimal digits. */
  function FromHex(s: Bytes): (r: Option<Bytes>)
    ensures r.Some? ==> |s| == 2 * |r.value|
  {
    if s == [] then Some([])
    else if |s| == 1 then None
    else
      match (HexDigit(s[0]), HexDigit(s[1]), FromHex(s[2..]))
      case (Some(hi), Some(lo), Some(rest)) => HexBound(s[0]); HexBound(s[1]); Some([16 * hi + lo] + rest)
      case _ => None
  }

  lemma HexBound(c: byte)
    ensures HexDigit(c).Some? ==> HexDigit(c).value < 16
  {
  }

  function LowerHexDigit(n: nat): byte
    requires n < 16
  {
    if n < 10 then 0x30 + n else 0x57 + n
  }

  /** bytes.hex. */
  function ToHex(b: Bytes): (r: Bytes)
    ensures |r| == 2 * |b|
  {
    if b == [] then [] else [LowerHexDigit(b[0] / 16), LowerHexDigit(b[0] % 16)] + ToHex(b[1..])
  }

  /** Reading back the hexadecimal form of any bytes. */
  lemma {:induction false} HexRoundTrip(b: Bytes)
    ensures FromHex(ToHex(b)) == Some(b)
  {
    if b == [] {
    } else {
      HexRoundTrip(b[1..]);
      assert ToHex(b)[2..] == ToHex(b[1..]);
      assert b == [b[0]] + b[1..];
    }
  }

  /** Hexadecimal digits in lower case. */
  function LowerCase(s: Bytes): (r: Bytes)
    ensures |r| == |s| && forall i :: 0 <= i < |s| ==> r[i] == if 0x41 <= s[i] <= 0x46 then s[i] + 0x20 else s[i]
  {
    seq(|s|, i requires 0 <= i < |s| => if 0x41 <= s[i] <= 0x46 then s[i] + 0x20 else s[i])
  }

  lemma DigitExactly(c: byte, n: nat)
    requires n < 16
    ensures HexDigit(c) == Some(n) <==> LowerCase([c]) == [LowerHexDigit(n)]
  {
    assert LowerCase([c])[0] == if 0x41 <= c <= 0x46 then c + 0x20 else c;
  }

  lemma FromHexStep(s: Bytes, b: Bytes)
    requires |s| >= 2 && b != []
    ensures FromHex(s) == Some(b) <==>
              && HexDigit(s[0]) == Some(b[0] / 16) && HexDigit(s[1]) == Some(b[0] % 16)
              && FromHex(s[2..]) == Some(b[1..])
  {
    HexBound(s[0]);
    HexBound(s[1]);
    assert b == [b[0]] + b[1..];
  }

  lemma ToHexStep(t: Bytes, b: Bytes)
    requires |t| >= 2 && b != []
    ensures t == ToHex(b) <==>
              t[0] == LowerHexDigit(b[0] / 16) && t[1] == LowerHexDigit(b[0] % 16) && t[2..] == ToHex(b[1..])
  {
    assert t == [t[0], t[1]] + t[2..];
  }

  /** Exactly the hexadecimal forms of b, in either case, read as b. */
  lemma {:induction false} FromHexExactly(s: Bytes, b: Bytes)
    ensures FromHex(s) == Some(b) <==> LowerCase(s) == ToHex(b)
  {
    if |s| < 2 || b == [] {
      assert |LowerCase(s)| == |s|;
    } else {
      FromHexExactly(s[2..], b[1..]);
      FromHexStep(s, b);
      ToHexStep(LowerCase(s), b);
      DigitExactly(s[0], b[0] / 16);
      DigitExactly(s[1], b[0] % 16);
      hide FromHex, ToHex, HexDigit, LowerHexDigit;
      assert LowerCase(s)[2..] == LowerCase(s[2..]);
      assert LowerCase([s[0]]) == [LowerCase(s)[0]] && LowerCase([s[1]]) == [LowerCase(s)[1]];
    }
  }
}
