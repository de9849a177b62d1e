/**
 Building small records whose encodings are known to read back: the material of the concrete
 chains in `AnchorGap` and `ReadBackGap`.
 */
module SmallRecords {
  import opened Basics
  import opened Utf8
  import opened Cbor
  import opened KeyOrder
  import opened Schema
  import opened Codec

  // ---------- a bound on the length of an encoding ----------

  function Weight(x: Item): nat
    decreases x, 0
  {
    match x
    case Uint(_) => 9
    case ByteString(b) => 9 + |b|
    case Text(t) => 9 + |t|
    case Array(items) => 9 + ItemsWeight(items)
    case Map(entries) => 9 + EntriesWeight(entries)
    case Spelled(encoding) => |encoding|
    case Null => 1
  }

  function ItemsWeight(xs: seq<Item>): nat
    decreases xs, 1
  {
    if xs == [] then 0 else Weight(xs[0]) + ItemsWeight(xs[1..])
  }

  function EntryWeight(e: Entry): nat
    decreases e, 0
  {
    match e case Entry(_, v, _) => 9 + Weight(v)
  }

  function EntriesWeight(d: Dict): nat
    decreases d, 1
  {
    if d == [] then 0 else EntryWeight(d[0]) + EntriesWeight(d[1..])
  }

  lemma {:induction false} PlainWeight(x: Item)
    requires WellFormed(x)
    ensures |Plain(x)| <= Weight(x)
    decreases x, 0
  {
    match x
    case Array(items) => PlainItemsWeight(items);
    case Map(entries) => PlainEntriesWeight(entries);
    case _ =>
  }

  lemma {:induction false} PlainItemsWeight(xs: seq<Item>)
    requires forall i :: 0 <= i < |xs| ==> WellFormed(xs[i])
    ensures |PlainItems(xs)| <= ItemsWeight(xs)
    decreases xs, 1
  {
    if xs == [] {
    } else {
      PlainWeight(xs[0]);
      PlainItemsWeight(xs[1..]);
    }
  }

  lemma {:induction false} PlainEntryWeight(e: Entry)
    requires WellFormedEntry(e)
    ensures |PlainEntry(e)| <= EntryWeight(e)
    decreases e, 0
  {
    match e case Entry(_, v, _) =>
      KeyInverse(e, []);
      PlainWeight(v);
  }

  lemma {:induction false} PlainEntriesWeight(d: Dict)
    requires forall i :: 0 <= i < |d| ==> WellFormedEntry(d[i])
    ensures |PlainEntries(d)| <= EntriesWeight(d)
    decreases d, 1
  {
    if d == [] {
    } else {
      PlainEntryWeight(d[0]);
      PlainEntriesWeight(d[1..]);
    }
  }

  lemma {:induction false} ItemsWeightBound(xs: seq<Item>, m: nat)
    requires forall i :: 0 <= i < |xs| ==> Weight(xs[i]) <= m
    ensures ItemsWeight(xs) <= |xs| * m
  {
    hide Weight;
    if xs == [] {
    } else {
      ItemsWeightBound(xs[1..], m);
      assert |xs| * m == m + |xs[1..]| * m;
    }
  }

  lemma {:induction false} EntriesWeightBound(d: Dict, m: nat)
    requires forall i :: 0 <= i < |d| ==> EntryWeight(d[i]) <= m
    ensures EntriesWeight(d) <= |d| * m
  {
    hide EntryWeight;
    if d == [] {
    } else {
      EntriesWeightBound(d[1..], m);
      assert |d| * m == m + |d[1..]| * m;
    }
  }

  lemma RecordWeight(vs: seq<Item>, m: nat)
    requires forall i :: 0 <= i < |vs| ==> Weight(vs[i]) <= m
    ensures Weight(Map(Numbered(vs))) <= 9 + |vs| * (m + 9)
  {
    var d := Numbered(vs);
    forall i | 0 <= i < |d| ensures EntryWeight(d[i]) <= m + 9 {
      assert d[i] == Entry(i + 1, vs[i]);
    }
    EntriesWeightBound(d, m + 9);
  }

  // ---------- dicts ----------

  const LIMIT := 0x1_0000_0000

  /** An encodable dict of less than 4 GiB, keyed by unsigned integers and already in canonical order. */
  predicate SmallDict(d: Dict) {
    WellFormed(Map(d)) && CanonicalDict(d) == d && PlainKeys(d) && Weight(Map(d)) <= LIMIT
  }

  predicate ShortField(v: Item) {
    v == Uint(0) || (v.ByteString? && |v.bytes| < 0x1_0000)
  }

  /** A dict of short fields keyed 1..n is small, and looks up as built. */
  lemma Fields(vs: seq<Item>)
    requires |vs| <= 3 && forall i :: 0 <= i < |vs| ==> ShortField(vs[i])
    ensures SmallDict(Numbered(vs)) && KeysUpTo(Numbered(vs), |vs|)
    ensures forall k: nat :: 1 <= k <= |vs| ==> Lookup(Numbered(vs), k) == Some(vs[k - 1])
  {
    FieldsAreSmall(vs);
    ColumnsForth(vs);
    forall k: nat | 1 <= k <= |vs| ensures Lookup(Numbered(vs), k) == Some(vs[k - 1]) {
      LookupAt(Numbered(vs), k - 1);
    }
  }

  lemma FieldsAreSmall(vs: seq<Item>)
    requires |vs| <= 3 && forall i :: 0 <= i < |vs| ==> ShortField(vs[i])
    ensures SmallDict(Numbered(vs))
  {
    hide WellFormed, Canonical, CanonicalDict, EntriesWeight, ShortField;
    forall i | 0 <= i < |vs| ensures Weight(vs[i]) <= 0x1_0009 && WellFormed(vs[i]) && Canonical(vs[i]) == vs[i] {
      ShortFieldIsSmall(vs[i]);
    }
    NumberedWellFormed(vs);
    NumberedFixed(vs);
    CanonicalMap(Numbered(vs));
    RecordWeight(vs, 0x1_0009);
  }

  lemma ShortFieldIsSmall(v: Item)
    requires ShortField(v)
    ensures Weight(v) <= 0x1_0009 && WellFormed(v) && Canonical(v) == v
  {
  }

  lemma CanonicalMap(d: Dict)
    ensures Canonical(Map(d)) == Map(CanonicalDict(d))
  {
  }

  lemma NoFields()
    ensures SmallDict([])
  {
    Fields([]);
    assert Numbered([]) == [];
  }

  // ---------- three Signers ----------

  predicate GoodTrio(ss: seq<Signer>) {
    && |ss| == 3 && GoodSigners(ss) && SortedBy(ss, SignerId)
    && forall i :: 0 <= i < |ss| ==> ValidUtf8(ss[i].id)
  }

  /** Three keys under the one-letter identifiers that follow `first`. */
  function Trio(first: byte, keys: seq<Bytes>): seq<Signer>
    requires 97 <= first <= 120 && |keys| == 3
  {
    [Signer([first], keys[0]), Signer([first + 1], keys[1]), Signer([first + 2], keys[2])]
  }

  predicate DistinctKeys32(keys: seq<Bytes>) {
    && |keys| == 3 && keys[0] != keys[1] && keys[0] != keys[2] && keys[1] != keys[2]
    && forall i :: 0 <= i < 3 ==> |keys[i]| == 32
  }

  lemma LetterIsText(c: byte)
    requires c < 0x80
    ensures ValidUtf8([c])
  {
    assert [c][1..] == [];
  }

  lemma TrioIsGood(first: byte, keys: seq<Bytes>)
    requires 97 <= first <= 120 && DistinctKeys32(keys)
    ensures GoodTrio(Trio(first, keys))
  {
    hide ValidUtf8;
    var ss := Trio(first, keys);
    LetterIsText(first);
    LetterIsText(first + 1);
    LetterIsText(first + 2);
    assert [first][1..] == [first + 1][1..] == [first + 2][1..] == [];
  }

  lemma TrioIsSmall(ss: seq<Signer>)
    requires GoodTrio(ss)
    ensures WellFormed(Array(BuildAll(ss, SignerItem))) && Weight(Array(BuildAll(ss, SignerItem))) <= 1680
  {
    hide ValidUtf8, SortedBy;
    var xs := BuildAll(ss, SignerItem);
    forall i | 0 <= i < |xs| ensures Weight(xs[i]) <= 557 && WellFormed(xs[i]) {
      assert GoodSigner(ss[i]);
      RecordWeight([Text(ss[i].id), ByteString(ss[i].key)], 265);
      NumberedWellFormed([Text(ss[i].id), ByteString(ss[i].key)]);
    }
    ItemsWeightBound(xs, 557);
  }

  // ---------- authorizations ----------

  predicate ReadyAuthorization(a: Authorization) {
    && (a.kind == IDENTITY || a.kind == PROVIDER) && GENESIS <= a.operation <= OWNER_KEY_ROTATION
    && a.epoch < WORD && a.threshold == 2 && GoodTrio(a.signers) && |a.predecessor| == 32
  }

  lemma AuthorizationIsSmall(a: Authorization)
    requires ReadyAuthorization(a)
    ensures WellFormed(AuthorizationItem(a)) && Weight(AuthorizationItem(a)) <= 11832
  {
    hide GoodTrio, ItemsWeight, EntriesWeight, BuildAll;
    var vs := AuthorizationColumns(a, BuildAll(a.signers, SignerItem));
    TrioIsSmall(a.signers);
    RecordWeight(vs, 1680);
    NumberedWellFormed(vs);
  }

  lemma AuthorizationIsNormal(a: Authorization)
    requires ReadyAuthorization(a)
    ensures NormalizeAuthorization(a, false) == Some(a)
  {
    SortFixesSorted(a.signers, SignerId);
  }

  // ---------- updates ----------

  predicate Ready(decoder: PayloadDecoder, u: SignedUpdate) {
    && SmallDict(u.fields) && SmallDict(u.payload) && u.seqNo < WORD
    && (u.auth.Some? ==> ReadyAuthorization(u.auth.value) && KindBinding(decoder, u, u.auth.value.kind))
  }

  function UpdateBytes(u: SignedUpdate): Bytes {
    match Encode(UpdateItem(u)) case Some(b) => b case None => []
  }

  lemma UpdateIsSmall(decoder: PayloadDecoder, u: SignedUpdate)
    requires Ready(decoder, u)
    ensures WellFormed(UpdateItem(u)) && Weight(UpdateItem(u)) <= 8 * LIMIT && Canonical(UpdateItem(u)) == UpdateItem(u)
  {
    hide WellFormed, Canonical, CanonicalDict, AuthorizationItem, ReadyAuthorization, KindBinding, EntriesWeight,
         PlainKeys;
    if u.auth.Some? { AuthorizationIsSmall(u.auth.value); }
    SmallNumber(u.seqNo);
    RecordWeight(UpdateColumns(u), LIMIT);
    NumberedWellFormed(UpdateColumns(u));
    UpdateCanonical(u);
  }

  lemma SmallNumber(n: nat)
    requires n < WORD
    ensures WellFormed(Uint(n)) && Weight(Uint(n)) == 9
  {
  }

  /** Such an update reads back from its own bytes. */
  lemma UpdateReads(decoder: PayloadDecoder, u: SignedUpdate)
    requires Ready(decoder, u)
    ensures DecodeSignedUpdate(decoder, UpdateBytes(u)) == Some(u) && |UpdateBytes(u)| <= 8 * LIMIT
    ensures u.auth.None? ==> !NestsAuthorization(UpdateBytes(u))
  {
    hide Loads, IsCanonicalCbor, Weight, Canonical, WellFormed, UpdateItem, ReadUpdate, KindBinding, ReadyAuthorization,
         NormalizeAuthorization, CanonicalDict;
    UpdateIsSmall(decoder, u);
    PlainWeight(UpdateItem(u));
    UpdateForth(u);
    if u.auth.Some? { AuthorizationIsNormal(u.auth.value); } else { NoFourthKey(u); }
  }

  lemma NoFourthKey(u: SignedUpdate)
    requires u.auth.None?
    ensures match UpdateItem(u) case Map(d) => 4 !in Keys(d) case _ => true
  {
  }

  // ---------- envelopes ----------

  function EnvelopeBytes(decoder: PayloadDecoder, update: Bytes, proofs: seq<Proof>): Bytes {
    match EncodeMultisignatureEnvelope(decoder, update, proofs) case Some(b) => b case None => []
  }

  lemma EnvelopeReads(decoder: PayloadDecoder, update: Bytes, proofs: seq<Proof>)
    requires CarriesAuthorization(decoder, update) && |update| < WORD && |proofs| < WORD
    requires GoodProofs(proofs) && SortedBy(proofs, ProofKey)
    requires forall i :: 0 <= i < |proofs| && proofs[i].id.Some? ==> ValidUtf8(proofs[i].id.value)
    ensures DecodeMultisignatureEnvelope(decoder, EnvelopeBytes(decoder, update, proofs))
            == Some(MultisignatureEnvelope(update, proofs))
  {
    hide ValidUtf8, CarriesAuthorization, GoodProofs, EncodeMultisignatureEnvelope, DecodeMultisignatureEnvelope;
    EnvelopeEncodes(decoder, update, proofs);
    EnvelopeEncodeDecode(decoder, update, proofs, EnvelopeBytes(decoder, update, proofs));
    SortFixesSorted(proofs, ProofKey);
  }

  function LegacyBytes(env: LegacyEnvelope): Bytes {
    match EncodeSignedEnvelope(env) case Some(b) => b case None => []
  }

  lemma LegacyReads(env: LegacyEnvelope)
    requires |env.update| < WORD && |env.signature| < WORD && !NestsAuthorization(env.update)
    ensures DecodeSignedEnvelope(LegacyBytes(env)) == Some(env)
  {
    hide DecodeSignedEnvelope, NestsAuthorization, Loads, IsCanonicalCbor;
    NumberedWellFormed([ByteString(env.update), ByteString(env.signature)]);
    LegacyEncodeDecode(env, LegacyBytes(env));
  }

  // ---------- primitives for showing that hypotheses can be met ----------

  function FlatHash(b: Bytes): Bytes { ZeroHash() }

  function AnySignature(key: Bytes, message: Bytes, signature: Bytes): bool { true }

  function Repeat(b: byte, n: nat): (r: Bytes)
    ensures |r| == n && forall i :: 0 <= i < n ==> r[i] == b
  {
    seq(n, i => b)
  }
}
