/**
 The concrete codecs of encoding.py and signed_envelope.py over the CBOR subset of module
 `Cbor`.  A builder turns a record into the item the source encodes, a reader checks an item
 the way the source checks a decoded dict; an error raised by the source is None.
 */
module Codec {
  import opened Basics
  import opened Utf8
  import opened Cbor
  import opened KeyOrder
  import opened Schema

  type PayloadDecoder = Dict -> Option<ProviderPayload>

  // ---------- Signer Sets ----------

  function SignerId(s: Signer): Bytes { s.id }

  function SignerKey(s: Signer): Bytes { s.key }

  predicate GoodSigner(s: Signer) {
    0 < |s.id| <= 256 && |s.key| == 32
  }

  predicate GoodSigners(s: seq<Signer>) {
    && s != []
    && (forall i :: 0 <= i < |s| ==> GoodSigner(s[i]))
    && DistinctBy(s, SignerId) && DistinctBy(s, SignerKey)
  }

  /** Sorted by UTF-8 identifier: imposed when encoding, demanded when decoding. */
  function NormalizeSigners(s: seq<Signer>, sort: bool): (r: Option<seq<Signer>>)
    ensures r.Some? ==> GoodSigners(r.value) && SortedBy(r.value, SignerId) && multiset(r.value) == multiset(s)
    ensures r.Some? && !sort ==> r.value == s
  {
    SortSorts(s, SignerId);
    GoodSignersUnordered(s, Sort(s, SignerId));
    if !GoodSigners(s) || (!sort && s != Sort(s, SignerId)) then None else Some(Sort(s, SignerId))
  }

  lemma GoodSignersUnordered(s: seq<Signer>, t: seq<Signer>)
    requires multiset(s) == multiset(t)
    ensures GoodSigners(s) ==> GoodSigners(t)
  {
    if GoodSigners(s) {
      assert |multiset(s)| == |s| && |multiset(t)| == |t|;
      DistinctIsUnordered(s, t, SignerId);
      DistinctIsUnordered(s, t, SignerKey);
      forall i | 0 <= i < |t| ensures GoodSigner(t[i]) {
        assert t[i] in multiset(s);
      }
    }
  }

  /** _validate_signer_entries: one pass over the entries with the identifiers and keys seen so far. */
  method ValidateSignerEntries(entries: seq<Signer>, sort: bool) returns (r: Option<seq<Signer>>)
    ensures r == NormalizeSigners(entries, sort)
  {
    hide Sort, SortedBy;
    if entries == [] { return None; }
    var normalized: seq<Signer>, seenIds: set<Bytes>, seenKeys: set<Bytes> := [], {}, {};
    for i := 0 to |entries|
      invariant normalized == entries[..i]
      invariant seenIds == set j | 0 <= j < i :: SignerId(entries[j])
      invariant seenKeys == set j | 0 <= j < i :: SignerKey(entries[j])
      invariant forall j :: 0 <= j < i ==> GoodSigner(entries[j])
      invariant forall j, l :: 0 <= j < l < i ==>
                  SignerId(entries[j]) != SignerId(entries[l]) && SignerKey(entries[j]) != SignerKey(entries[l])
    {
      var e := entries[i];
      if e.id == [] || |e.id| > 256 || |e.key| != 32 { return None; }
      if SignerId(e) in seenIds || SignerKey(e) in seenKeys { return None; }
      seenIds, seenKeys := seenIds + {SignerId(e)}, seenKeys + {SignerKey(e)};
      normalized := normalized + [e];
    }
    assert entries[..|entries|] == entries;
    var ordered := Sort(normalized, SignerId);
    if !sort && normalized != ordered { return None; }
    r := Some(if sort then ordered else normalized);
  }

  // ---------- proofs ----------

  /** The sort key of a proof: the null identifier sorts first. */
  function ProofKey(p: Proof): Bytes {
    match p.id case None => [] case Some(id) => id
  }

  predicate GoodProof(p: Proof) {
    (p.id.Some? ==> 0 < |p.id.value| <= 256) && |p.signature| == 64
  }

  predicate GoodProofs(ps: seq<Proof>) {
    (forall i :: 0 <= i < |ps| ==> GoodProof(ps[i])) && DistinctBy(ps, ProofKey)
  }

  function NormalizeProofs(ps: seq<Proof>, sort: bool): (r: Option<seq<Proof>>)
    ensures r.Some? ==> GoodProofs(r.value) && SortedBy(r.value, ProofKey) && multiset(r.value) == multiset(ps)
    ensures r.Some? && !sort ==> r.value == ps
  {
    SortSorts(ps, ProofKey);
    GoodProofsUnordered(ps, Sort(ps, ProofKey));
    if !GoodProofs(ps) || (!sort && ps != Sort(ps, ProofKey)) then None else Some(Sort(ps, ProofKey))
  }

  lemma GoodProofsUnordered(ps: seq<Proof>, qs: seq<Proof>)
    requires multiset(ps) == multiset(qs)
    ensures GoodProofs(ps) ==> GoodProofs(qs)
  {
    if GoodProofs(ps) {
      DistinctIsUnordered(ps, qs, ProofKey);
      forall i | 0 <= i < |qs| ensures GoodProof(qs[i]) {
        assert qs[i] in multiset(ps);
      }
    }
  }

  /** _validate_proofs: one pass with the identifiers seen so far, null among them. */
  method ValidateProofs(proofs: seq<Proof>, sort: bool) returns (r: Option<seq<Proof>>)
    ensures r == NormalizeProofs(proofs, sort)
  {
    hide Sort, SortedBy;
    var normalized: seq<Proof>, seen: set<Option<Bytes>> := [], {};
    for i := 0 to |proofs|
      invariant normalized == proofs[..i]
      invariant forall id :: id in seen <==> exists j :: 0 <= j < i && proofs[j].id == id
      invariant forall j :: 0 <= j < i ==> GoodProof(proofs[j])
      invariant forall j, l :: 0 <= j < l < i ==> ProofKey(proofs[j]) != ProofKey(proofs[l])
    {
      var p := proofs[i];
      if p.id.Some? && (p.id.value == [] || |p.id.value| > 256) { return None; }
      if p.id in seen {
        ghost var j :| 0 <= j < i && proofs[j].id == p.id;
        assert ProofKey(proofs[j]) == ProofKey(proofs[i]);
        return None;
      }
      if |p.signature| != 64 { return None; }
      seen := seen + {p.id};
      normalized := normalized + [p];
    }
    assert proofs[..|proofs|] == proofs;
    var ordered := Sort(normalized, ProofKey);
    if !sort && normalized != ordered { return None; }
    r := Some(if sort then ordered else normalized);
  }

  // ---------- dicts keyed 1..n ----------

  function Numbered(vs: seq<Item>): (d: Dict)
    ensures |d| == |vs| && forall i :: 0 <= i < |d| ==> d[i] == Entry(i + 1, vs[i])
  {
    seq(|vs|, i requires 0 <= i < |vs| => Entry(i + 1, vs[i]))
  }

  /** The values of a map whose keys are exactly 1..n, in that order. */
  function Columns(x: Item, n: nat): (r: Option<seq<Item>>)
    ensures r.Some? ==> x.Map? && |r.value| == n
  {
    if !x.Map? || !KeysUpTo(x.entries, n) then None
    else Some(seq(n, (i: nat) requires i < n => LookupKey(x.entries, i + 1)))
  }

  /** `d[k]` for a key that is there. */
  function LookupKey(d: Dict, k: nat): Item
    requires k in Keys(d)
  {
    Lookup(d, k).value
  }

  lemma ColumnsForth(vs: seq<Item>)
    ensures Columns(Map(Numbered(vs)), |vs|) == Some(vs)
  {
    var d := Numbered(vs);
    forall k: nat | 1 <= k <= |vs| ensures k in Keys(d) && LookupKey(d, k) == vs[k - 1] {
      KeyMember(d, k - 1);
      LookupAt(d, k - 1);
    }
    assert Columns(Map(d), |vs|).value == vs;
  }

  lemma NumberedWellFormed(vs: seq<Item>)
    requires |vs| < WORD
    ensures WellFormed(Map(Numbered(vs))) <==> forall i :: 0 <= i < |vs| ==> WellFormed(vs[i])
  {
    var d := Numbered(vs);
    assert forall i :: 0 <= i < |d| ==> (WellFormedEntry(d[i]) <==> WellFormed(vs[i]));
    if WellFormed(Map(d)) {
      forall i | 0 <= i < |vs| ensures WellFormed(vs[i]) {
        assert WellFormedEntry(d[i]);
      }
    }
  }

  lemma NumberedCanonical(vs: seq<Item>)
    requires |vs| < WORD
    ensures Canonical(Map(Numbered(vs))) == Map(Numbered(CanonicalItems(vs)))
  {
    hide Sort, SortedBy, EntryKey, CanonicalItems;
    var d := Numbered(vs);
    IncreasingStays(d);
    forall i | 0 <= i < |vs| ensures CanonicalEntries(d)[i] == Numbered(CanonicalItems(vs))[i] {
      CanonicalEntriesAt(d, i);
      CanonicalItemsAt(vs, i);
    }
    assert CanonicalEntries(d) == Numbered(CanonicalItems(vs));
  }

  lemma MapParts(d: Dict)
    requires WellFormed(Map(d))
    ensures DistinctKeys(d) && forall i :: 0 <= i < |d| ==> WellFormed(d[i].value)
  {
    forall i | 0 <= i < |d| ensures WellFormed(d[i].value) {
      assert WellFormedEntry(d[i]) && d[i] == Entry(d[i].key, d[i].value, d[i].spelling);
    }
  }

  lemma ColumnsAreWellFormed(x: Item, n: nat)
    requires WellFormed(x) && Columns(x, n).Some?
    ensures forall v :: v in Columns(x, n).value ==> WellFormed(v)
  {
    hide WellFormed;
    var d, vs := x.entries, Columns(x, n).value;
    MapParts(d);
    forall i: nat | i < n ensures WellFormed(vs[i]) {
      assert i + 1 in Keys(d) && vs[i] == LookupKey(d, i + 1);
      var j :| 0 <= j < |d| && d[j].key == i + 1;
      LookupAt(d, j);
    }
  }

  /** A canonical map with keys 1..n, none of them spelled otherwise, is determined by its columns. */
  lemma ColumnsBack(x: Item, n: nat)
    requires WellFormed(x) && Canonical(x) == x && Columns(x, n).Some? && PlainKeys(x.entries)
    ensures x == Map(Numbered(Columns(x, n).value))
    ensures forall v :: v in Columns(x, n).value ==> WellFormed(v) && Canonical(v) == v
  {
    hide Lookup, WellFormed, Canonical, KeysUpTo, IncreasingKeys, DistinctKeys;
    var d, vs := x.entries, Columns(x, n).value;
    CanonicalMap(d);
    MapParts(d);
    OneToN(d, n);
    forall i: nat | i < n ensures d[i] == Entry(i + 1, vs[i]) && vs[i] == d[i].value {
      LookupAt(d, i);
      assert vs[i] == LookupKey(d, i + 1);
      assert d[i] == Entry(d[i].key, d[i].value, d[i].spelling);
    }
    assert d == Numbered(vs);
  }

  // ---------- lists of records ----------

  function BuildAll<T>(ts: seq<T>, build: T -> Item): (xs: seq<Item>)
    ensures |xs| == |ts| && forall i :: 0 <= i < |ts| ==> xs[i] == build(ts[i])
  {
    seq(|ts|, i requires 0 <= i < |ts| => build(ts[i]))
  }

  function ReadAll<T>(xs: seq<Item>, read: Item -> Option<T>): (r: Option<seq<T>>)
    ensures r.Some? <==> forall i :: 0 <= i < |xs| ==> read(xs[i]).Some?
    ensures r.Some? ==> |r.value| == |xs| && forall i :: 0 <= i < |xs| ==> read(xs[i]) == Some(r.value[i])
  {
    if xs == [] then Some([])
    else
      match (read(xs[0]), ReadAll(xs[1..], read))
      case (Some(t), Some(ts)) => assert xs == [xs[0]] + xs[1..]; Some([t] + ts)
      case _ => assert xs == [xs[0]] + xs[1..]; None
  }

  lemma FixedItems(xs: seq<Item>)
    requires forall i :: 0 <= i < |xs| ==> Canonical(xs[i]) == xs[i]
    ensures CanonicalItems(xs) == xs
  {
    forall i | 0 <= i < |xs| ensures CanonicalItems(xs)[i] == xs[i] {
      CanonicalItemsAt(xs, i);
    }
  }

  /** A record whose components are in canonical order is in canonical order. */
  lemma NumberedFixed(vs: seq<Item>)
    requires |vs| < WORD && forall i :: 0 <= i < |vs| ==> Canonical(vs[i]) == vs[i]
    ensures Canonical(Map(Numbered(vs))) == Map(Numbered(vs))
  {
    NumberedCanonical(vs);
    FixedItems(vs);
  }

  /** A list of canonical items that reads as `ts` is the list built from `ts`. */
  lemma ListBack<T>(xs: seq<Item>, read: Item -> Option<T>, build: T -> Item)
    requires ReadAll(xs, read).Some?
    requires forall i :: 0 <= i < |xs| ==> xs[i] == build(read(xs[i]).value)
    ensures xs == BuildAll(ReadAll(xs, read).value, build)
  {
  }

  lemma ListForth<T>(ts: seq<T>, read: Item -> Option<T>, build: T -> Item)
    requires forall i :: 0 <= i < |ts| ==> read(build(ts[i])) == Some(ts[i])
    ensures ReadAll(BuildAll(ts, build), read) == Some(ts)
  {
    var xs := BuildAll(ts, build);
    assert forall i :: 0 <= i < |xs| ==> read(xs[i]) == Some(ts[i]);
    assert ReadAll(xs, read).value == ts;
  }

  // ---------- one Signer, one proof ----------

  function SignerItem(s: Signer): Item {
    Map(Numbered([Text(s.id), ByteString(s.key)]))
  }

  function ReadSigner(x: Item): Option<Signer> {
    match Columns(x, 2)
    case None => None
    case Some(vs) => if vs[0].Text? && vs[1].ByteString? then Some(Signer(vs[0].utf8, vs[1].bytes)) else None
  }

  lemma SignerForth(s: Signer)
    ensures ReadSigner(SignerItem(s)) == Some(s) && Canonical(SignerItem(s)) == SignerItem(s)
  {
    hide Columns;
    var vs := [Text(s.id), ByteString(s.key)];
    ColumnsForth(vs);
    NumberedFixed(vs);
  }

  /** A map whose own keys are all written as unsigned integers. */
  predicate PlainMap(x: Item) {
    x.Map? && PlainKeys(x.entries)
  }

  predicate PlainMaps(xs: seq<Item>) {
    forall i :: 0 <= i < |xs| ==> PlainMap(xs[i])
  }

  lemma SignerBack(x: Item)
    requires WellFormed(x) && Canonical(x) == x && ReadSigner(x).Some? && PlainMap(x)
    ensures x == SignerItem(ReadSigner(x).value)
  {
    hide Columns, WellFormed, Canonical;
    ColumnsBack(x, 2);
    var s := ReadSigner(x).value;
    assert Columns(x, 2).value == [Text(s.id), ByteString(s.key)];
  }

  function ProofIdItem(id: Option<Bytes>): Item {
    match id case None => Null case Some(text) => Text(text)
  }

  function ProofItem(p: Proof): Item {
    Map(Numbered([ProofIdItem(p.id), ByteString(p.signature)]))
  }

  function ReadProof(x: Item): Option<Proof> {
    match Columns(x, 2)
    case None => None
    case Some(vs) =>
      if !vs[1].ByteString? then None
      else match vs[0]
           case Null => Some(Proof(None, vs[1].bytes))
           case Text(id) => Some(Proof(Some(id), vs[1].bytes))
           case _ => None
  }

  lemma ProofForth(p: Proof)
    ensures ReadProof(ProofItem(p)) == Some(p) && Canonical(ProofItem(p)) == ProofItem(p)
  {
    hide Columns;
    var vs := [ProofIdItem(p.id), ByteString(p.signature)];
    ColumnsForth(vs);
    NumberedFixed(vs);
  }

  lemma ProofBack(x: Item)
    requires WellFormed(x) && Canonical(x) == x && ReadProof(x).Some? && PlainMap(x)
    ensures x == ProofItem(ReadProof(x).value)
  {
    hide Columns, WellFormed, Canonical;
    ColumnsBack(x, 2);
    var p := ReadProof(x).value;
    assert Columns(x, 2).value == [ProofIdItem(p.id), ByteString(p.signature)];
  }

  // ---------- the authorization map ----------

  function AuthorizationColumns(a: Authorization, xs: seq<Item>): (vs: seq<Item>)
    ensures |vs| == 7
  {
    [Uint(1), Uint(a.kind), Uint(a.operation), Uint(a.epoch), Uint(a.threshold), Array(xs), ByteString(a.predecessor)]
  }

  function AuthorizationItem(a: Authorization): Item {
    Map(Numbered(AuthorizationColumns(a, BuildAll(a.signers, SignerItem))))
  }

  function ReadAuthorization(x: Item): Option<Authorization> {
    match Columns(x, 7)
    case None => None
    case Some(vs) =>
      if vs[0] != Uint(1) || !vs[1].Uint? || !vs[2].Uint? || !vs[3].Uint? || !vs[4].Uint?
         || !vs[5].Array? || !vs[6].ByteString? then None
      else
        match ReadAll(vs[5].items, ReadSigner)
        case None => None
        case Some(signers) => Some(Authorization(vs[1].n, vs[2].n, vs[3].n, vs[4].n, signers, vs[6].bytes))
  }

  /** validate_authorization_map, once the components have the right types. */
  function NormalizeAuthorization(a: Authorization, sort: bool): (r: Option<Authorization>)
    ensures r.Some? ==> WellFormedAuthorization(r.value)
    ensures r.Some? && !sort ==> r.value == a
  {
    match NormalizeSigners(a.signers, sort)
    case None => None
    case Some(signers) =>
      assert forall i, j :: 0 <= i < j < |signers| ==>
        SignerId(signers[i]) != SignerId(signers[j]) && SignerKey(signers[i]) != SignerKey(signers[j]);
      if && (a.kind == IDENTITY || a.kind == PROVIDER)
         && GENESIS <= a.operation <= OWNER_KEY_ROTATION
         && 1 <= a.threshold <= |signers|
         && |a.predecessor| == 32
      then Some(a.(signers := signers)) else None
  }

  lemma SignersForth(signers: seq<Signer>)
    ensures ReadAll(BuildAll(signers, SignerItem), ReadSigner) == Some(signers)
    ensures Canonical(Array(BuildAll(signers, SignerItem))) == Array(BuildAll(signers, SignerItem))
  {
    var xs := BuildAll(signers, SignerItem);
    forall i | 0 <= i < |xs|
      ensures Canonical(xs[i]) == xs[i] && ReadSigner(SignerItem(signers[i])) == Some(signers[i])
    {
      SignerForth(signers[i]);
    }
    FixedItems(xs);
    ListForth(signers, ReadSigner, SignerItem);
  }

  lemma SignersBack(xs: seq<Item>)
    requires WellFormed(Array(xs)) && Canonical(Array(xs)) == Array(xs)
    requires ReadAll(xs, ReadSigner).Some? && PlainMaps(xs)
    ensures xs == BuildAll(ReadAll(xs, ReadSigner).value, SignerItem)
  {
    forall i | 0 <= i < |xs| ensures xs[i] == SignerItem(ReadSigner(xs[i]).value) {
      CanonicalItemsAt(xs, i);
      SignerBack(xs[i]);
    }
    ListBack(xs, ReadSigner, SignerItem);
  }

  lemma AuthorizationForth(a: Authorization)
    ensures ReadAuthorization(AuthorizationItem(a)) == Some(a)
    ensures Canonical(AuthorizationItem(a)) == AuthorizationItem(a)
  {
    hide Columns, ReadAll;
    SignersForth(a.signers);
    var vs := AuthorizationColumns(a, BuildAll(a.signers, SignerItem));
    ColumnsForth(vs);
    NumberedFixed(vs);
  }

  /** An authorization map, and every Signer in it, with plain keys. */
  predicate PlainAuthorization(x: Item) {
    PlainMap(x) && match Lookup(x.entries, 6) case Some(Array(xs)) => PlainMaps(xs) case _ => true
  }

  lemma AuthorizationIsPlain(a: Authorization)
    ensures PlainAuthorization(AuthorizationItem(a))
  {
    hide Lookup;
    var vs := AuthorizationColumns(a, BuildAll(a.signers, SignerItem));
    LookupAt(Numbered(vs), 5);
  }

  lemma AuthorizationBack(x: Item)
    requires WellFormed(x) && Canonical(x) == x && ReadAuthorization(x).Some? && PlainAuthorization(x)
    ensures x == AuthorizationItem(ReadAuthorization(x).value)
  {
    hide WellFormed, Canonical, ReadAll, NormalizeSigners, Lookup, KeysUpTo;
    var a, vs := ReadAuthorization(x).value, Columns(x, 7).value;
    ColumnsBack(x, 7);
    assert vs[5] in vs && vs[5] == LookupKey(x.entries, 6);
    SignersBack(vs[5].items);
    assert vs == AuthorizationColumns(a, vs[5].items);
  }

  // ---------- SignedUpdate ----------

  /** A list canonically encoded, or None for a value outside the CBOR subset. */
  function Encode(x: Item): (r: Option<Bytes>)
    ensures r.Some? ==> IsCanonicalCbor(r.value) && Loads(r.value) == Some(Canonical(x))
  {
    if !WellFormed(x) then None
    else
      EncodedIsCanonical(x);
      Some(Dumps(x))
  }

  lemma EncodedIsCanonical(x: Item)
    requires WellFormed(x)
    ensures IsCanonicalCbor(Dumps(x)) && Loads(Dumps(x)) == Some(Canonical(x))
  {
    hide Dumps, Loads, WellFormed, Canonical;
    LoadsDumps(x);
    CanonicalIffEncoded(Dumps(x));
  }

  lemma CanonicalReencodes(b: Bytes)
    requires IsCanonicalCbor(b)
    ensures Loads(b).Some? && WellFormed(Loads(b).value) && Canonical(Loads(b).value) == Loads(b).value
    ensures Encode(Loads(b).value) == Some(b)
  {
    CanonicalBytesDecodeInOrder(b);
  }

  function UpdateColumns(u: SignedUpdate): (vs: seq<Item>)
    ensures |vs| == if u.auth.Some? then 4 else 3
  {
    [Map(u.fields), Map(u.payload), Uint(u.seqNo)]
    + match u.auth case None => [] case Some(a) => [AuthorizationItem(a)]
  }

  function UpdateItem(u: SignedUpdate): Item {
    Map(Numbered(UpdateColumns(u)))
  }

  /** What encode_signed_update makes of its arguments before encoding them; fields and payload take int keys only. */
  function NormalizeUpdate(decoder: PayloadDecoder, u: SignedUpdate, sort: bool): (r: Option<SignedUpdate>)
    ensures r.Some? && !sort ==> r.value == u
  {
    if !PlainKeys(u.fields) || !PlainKeys(u.payload) then None
    else
      match u.auth
      case None => Some(u)
      case Some(a) =>
        match NormalizeAuthorization(a, sort)
        case None => None
        case Some(n) => if KindBinding(decoder, u, n.kind) then Some(u.(auth := Some(n))) else None
  }

  function EncodeSignedUpdate(decoder: PayloadDecoder, u: SignedUpdate): Option<Bytes> {
    match NormalizeUpdate(decoder, u, true) case None => None case Some(n) => Encode(UpdateItem(n))
  }

  /** The parts of a SignedUpdate map with keys {1,2,3} or {1,2,3,4}. */
  function ReadUpdateColumns(x: Item): (r: Option<seq<Item>>)
    ensures r.Some? ==> x.Map? && 3 <= |r.value| <= 4
  {
    if Columns(x, 3).Some? then Columns(x, 3) else Columns(x, 4)
  }

  function ReadUpdate(x: Item): Option<SignedUpdate> {
    match ReadUpdateColumns(x)
    case None => None
    case Some(vs) =>
      if !vs[0].Map? || !vs[1].Map? || !vs[2].Uint? then None
      else if |vs| == 3 then Some(SignedUpdate(vs[0].entries, vs[1].entries, vs[2].n, None))
      else match ReadAuthorization(vs[3])
           case None => None
           case Some(a) => Some(SignedUpdate(vs[0].entries, vs[1].entries, vs[2].n, Some(a)))
  }

  function DecodeSignedUpdate(decoder: PayloadDecoder, b: Bytes): Option<SignedUpdate> {
    if !IsCanonicalCbor(b) then None
    else match ReadUpdate(Loads(b).value) case None => None case Some(u) => NormalizeUpdate(decoder, u, false)
  }

  lemma UpdateForth(u: SignedUpdate)
    ensures ReadUpdate(UpdateItem(u)) == Some(u)
  {
    hide Columns, ReadAuthorization, AuthorizationItem;
    var vs := UpdateColumns(u);
    ColumnsForth(vs);
    if Columns(UpdateItem(u), 3).Some? { ColumnsAreExact(UpdateItem(u), |vs|, 3); }
    if u.auth.Some? { AuthorizationForth(u.auth.value); }
  }

  lemma ColumnsAreExact(x: Item, m: nat, n: nat)
    requires Columns(x, m).Some? && Columns(x, n).Some?
    ensures m == n
  {
    assert m > 0 ==> m in Keys(x.entries);
    assert n > 0 ==> n in Keys(x.entries);
  }

  /** The maps of a SignedUpdate's own schema, fields and payload apart, with plain keys. */
  predicate PlainUpdate(x: Item) {
    PlainMap(x) && match Lookup(x.entries, 4) case Some(y) => PlainAuthorization(y) case None => true
  }

  lemma UpdateIsPlain(u: SignedUpdate)
    ensures PlainUpdate(UpdateItem(u))
  {
    hide Lookup, AuthorizationItem, PlainAuthorization;
    var d := Numbered(UpdateColumns(u));
    if u.auth.Some? {
      LookupAt(d, 3);
      AuthorizationIsPlain(u.auth.value);
    } else {
      LookupNone(d, 4);
    }
  }

  lemma UpdateBack(x: Item)
    requires WellFormed(x) && Canonical(x) == x && ReadUpdate(x).Some? && PlainUpdate(x)
    ensures x == UpdateItem(ReadUpdate(x).value)
  {
    hide WellFormed, Canonical, ReadAuthorization, AuthorizationItem, PlainAuthorization, Lookup, KeysUpTo;
    var u, vs := ReadUpdate(x).value, ReadUpdateColumns(x).value;
    ColumnsBack(x, |vs|);
    if |vs| == 4 {
      assert vs[3] in vs && vs[3] == LookupKey(x.entries, 4);
      assert Lookup(x.entries, 4).Some?;
      AuthorizationBack(vs[3]);
    }
    assert vs == UpdateColumns(u);
  }

  /**
   When encode(decode(b)) == b for an accepted SignedUpdate: exactly when every map of its schema
   writes its keys as unsigned integers, and not as the booleans or floats equal to them.
   */
  lemma UpdateDecodeEncode(decoder: PayloadDecoder, b: Bytes)
    requires DecodeSignedUpdate(decoder, b).Some?
    ensures EncodeSignedUpdate(decoder, DecodeSignedUpdate(decoder, b).value) == Some(b)
            <==> PlainUpdate(Loads(b).value)
  {
    hide Loads, WellFormed, Canonical, ReadUpdate, UpdateItem, Sort, SortedBy, PlainUpdate, IsCanonicalCbor;
    var u := DecodeSignedUpdate(decoder, b).value;
    CanonicalReencodes(b);
    if PlainUpdate(Loads(b).value) {
      UpdateBack(Loads(b).value);
    } else if EncodeSignedUpdate(decoder, u) == Some(b) {
      UpdateCanonical(u);
      UpdateIsPlain(u.(fields := CanonicalDict(u.fields), payload := CanonicalDict(u.payload)));
    }
  }

  /** {2: {}, 3: 0, true: {}}, where Python reads key 1: accepted, and the same record as {1: {}, 2: {}, 3: 0}. */
  lemma TrueForOne(decoder: PayloadDecoder) returns (b: Bytes, c: Bytes)
    ensures DecodeSignedUpdate(decoder, b) == DecodeSignedUpdate(decoder, c) == Some(SignedUpdate([], [], 0, None))
    ensures b != c && EncodeSignedUpdate(decoder, SignedUpdate([], [], 0, None)) == Some(c)
  {
    hide Loads, IsCanonicalCbor, Dumps, ReadUpdate, Numbered, Canonical, WellFormed, PlainUpdate;
    var u := SignedUpdate([], [], 0, None);
    var d := [Entry(2, Map([])), Entry(3, Uint(0)), Entry(1, Map([]), [0xF5])];
    SpelledExample(d);
    b := Encode(Map(d)).value;
    EmptyUpdate();
    UpdateForth(u);
    c := Encode(UpdateItem(u)).value;
    UpdateIsPlain(u);
  }

  lemma EmptyUpdate()
    ensures var u := SignedUpdate([], [], 0, None);
            WellFormed(UpdateItem(u)) && Canonical(UpdateItem(u)) == UpdateItem(u)
  {
    hide Numbered;
    var u := SignedUpdate([], [], 0, None);
    assert CanonicalDict([]) == [];
    NumberedWellFormed(UpdateColumns(u));
    NumberedFixed(UpdateColumns(u));
  }

  lemma SpelledColumns(d: Dict)
    requires d == [Entry(2, Map([])), Entry(3, Uint(0)), Entry(1, Map([]), [0xF5])]
    ensures Columns(Map(d), 3) == Some([Map([]), Map([]), Uint(0)])
  {
    hide Lookup;
    KeyMember(d, 0);
    KeyMember(d, 1);
    KeyMember(d, 2);
    LookupAt(d, 0);
    LookupAt(d, 1);
    LookupAt(d, 2);
    assert Columns(Map(d), 3).value == [LookupKey(d, 1), LookupKey(d, 2), LookupKey(d, 3)];
  }

  lemma LastByteDecides(a: byte, b: byte, c: byte)
    requires b < c
    ensures !BytesLess([a, c], [a, b])
  {
    assert [a, c][1..] == [c] && [a, b][1..] == [b];
  }

  lemma SpelledCanonical(d: Dict)
    requires d == [Entry(2, Map([])), Entry(3, Uint(0)), Entry(1, Map([]), [0xF5])]
    ensures Canonical(Map(d)) == Map(d)
  {
    assert EntryKey(d[0]) == [1, 2] && EntryKey(d[1]) == [1, 3] && EntryKey(d[2]) == [1, 0xF5];
    LastByteDecides(1, 2, 3);
    LastByteDecides(1, 2, 0xF5);
    LastByteDecides(1, 3, 0xF5);
    assert SortedBy(d, EntryKey);
    hide EntryKey, SortedBy;
    SortFixesSorted(d, EntryKey);
    assert Canonical(Map([])) == Map([]);
    forall i | 0 <= i < |d| ensures CanonicalEntries(d)[i] == d[i] {
      CanonicalEntriesAt(d, i);
    }
    assert CanonicalEntries(d) == d;
  }

  lemma SpelledExample(d: Dict)
    requires d == [Entry(2, Map([])), Entry(3, Uint(0)), Entry(1, Map([]), [0xF5])]
    ensures WellFormed(Map(d)) && Canonical(Map(d)) == Map(d) && !PlainMap(Map(d))
    ensures ReadUpdate(Map(d)) == Some(SignedUpdate([], [], 0, None))
  {
    hide Canonical, Columns;
    SpelledCanonical(d);
    SpelledColumns(d);
    assert forall i :: 0 <= i < |d| ==> WellFormedEntry(d[i]);
    assert d[2].spelling != [];
  }

  /** Reading a dict by key cannot depend on the order of its keys, at any depth. */
  ghost predicate IgnoresKeyOrder(decoder: PayloadDecoder) {
    forall d: Dict :: WellFormedDict(d) ==> decoder(CanonicalDict(d)) == decoder(d)
  }

  /** What encoding a SignedUpdate settles: the order of dict keys and of Signers. */
  function CanonicalUpdate(u: SignedUpdate): SignedUpdate {
    SignedUpdate(CanonicalDict(u.fields), CanonicalDict(u.payload), u.seqNo,
                 match u.auth case None => None case Some(a) => Some(a.(signers := Sort(a.signers, SignerId))))
  }

  lemma UpdateWellFormed(u: SignedUpdate)
    requires WellFormed(UpdateItem(u))
    ensures WellFormedDict(u.fields) && WellFormedDict(u.payload)
  {
    var vs := UpdateColumns(u);
    NumberedWellFormed(vs);
    assert WellFormed(vs[0]) && WellFormed(vs[1]);
  }

  lemma UpdateCanonical(u: SignedUpdate)
    ensures Canonical(UpdateItem(u))
            == UpdateItem(u.(fields := CanonicalDict(u.fields), payload := CanonicalDict(u.payload)))
  {
    hide AuthorizationItem, Sort;
    var vs := UpdateColumns(u);
    var cs := UpdateColumns(u.(fields := CanonicalDict(u.fields), payload := CanonicalDict(u.payload)));
    NumberedCanonical(vs);
    forall i | 0 <= i < |vs| ensures CanonicalItems(vs)[i] == cs[i] {
      CanonicalItemsAt(vs, i);
      if i == 3 { AuthorizationForth(u.auth.value); }
    }
    assert CanonicalItems(vs) == cs;
  }

  lemma BindingIgnoresKeyOrder(decoder: PayloadDecoder, u: SignedUpdate, v: SignedUpdate, kind: nat)
    requires IgnoresKeyOrder(decoder) && WellFormedDict(u.fields) && WellFormedDict(u.payload)
    requires v.fields == CanonicalDict(u.fields) && v.payload == CanonicalDict(u.payload)
    ensures KindBinding(decoder, u, kind) == KindBinding(decoder, v, kind)
  {
    hide Lookup, Sort;
    CanonicalDictKeys(u.fields);
    CanonicalDictLookup(u.fields, 1);
    CanonicalDictLookup(u.fields, 2);
    assert |CanonicalDict(u.payload)| == |u.payload|;
  }

  lemma NormalizingTwice(a: Authorization)
    requires NormalizeAuthorization(a, true).Some?
    ensures NormalizeAuthorization(a, true).value == a.(signers := Sort(a.signers, SignerId))
    ensures NormalizeAuthorization(NormalizeAuthorization(a, true).value, false) == NormalizeAuthorization(a, true)
  {
    var n := NormalizeSigners(a.signers, true).value;
    SortFixesSorted(n, SignerId);
  }

  /** decode(encode(u)) is u with its dicts in canonical order and its Signers sorted by identifier. */
  lemma UpdateEncodeDecode(decoder: PayloadDecoder, u: SignedUpdate, b: Bytes)
    requires IgnoresKeyOrder(decoder) && EncodeSignedUpdate(decoder, u) == Some(b)
    ensures DecodeSignedUpdate(decoder, b) == Some(CanonicalUpdate(u))
  {
    hide WellFormed, Canonical, ReadUpdate, UpdateItem, Loads, IsCanonicalCbor, KindBinding, IgnoresKeyOrder, Sort,
         NormalizeAuthorization, PlainKeys;
    CanonicalDictPlain(u.fields);
    CanonicalDictPlain(u.payload);
    var n := NormalizeUpdate(decoder, u, true).value;
    var c := n.(fields := CanonicalDict(n.fields), payload := CanonicalDict(n.payload));
    UpdateCanonical(n);
    UpdateForth(c);
    if u.auth.Some? {
      UpdateWellFormed(n);
      NormalizingTwice(u.auth.value);
      BindingIgnoresKeyOrder(decoder, u, c, n.auth.value.kind);
    }
    assert c == CanonicalUpdate(u);
  }

  /** The same record written in any order of keys, at any depth, and of Signers. */
  ghost predicate SameUpTo(u: SignedUpdate, v: SignedUpdate) {
    && CanonicalDict(u.fields) == CanonicalDict(v.fields) && CanonicalDict(u.payload) == CanonicalDict(v.payload)
    && u.seqNo == v.seqNo
    && match (u.auth, v.auth)
       case (None, None) => true
       case (Some(a), Some(b)) => multiset(a.signers) == multiset(b.signers) && a == b.(signers := a.signers)
       case _ => false
  }

  /** Permuting the entries of an encodable dict is one way of writing it in another order. */
  lemma PermutedIsSame(u: SignedUpdate, v: SignedUpdate)
    requires WellFormedDict(u.fields) && WellFormedDict(u.payload) && u.seqNo == v.seqNo && u.auth == v.auth
    requires multiset(u.fields) == multiset(v.fields) && multiset(u.payload) == multiset(v.payload)
    ensures SameUpTo(u, v)
  {
    CanonicalDictUnordered(u.fields, v.fields);
    CanonicalDictUnordered(u.payload, v.payload);
  }

  lemma SameDictWellFormed(d: Dict, e: Dict)
    requires WellFormedDict(d) && CanonicalDict(d) == CanonicalDict(e)
    ensures WellFormedDict(e)
  {
    hide Sort;
    assert WellFormed(Map(d));
    CanonicalWellFormed(Map(d));
    assert Canonical(Map(e)) == Canonical(Map(d));
    WellFormedCanonical(Map(e));
  }

  lemma AuthorizationUnordered(a: Authorization, b: Authorization)
    requires multiset(a.signers) == multiset(b.signers) && a == b.(signers := a.signers)
    ensures NormalizeAuthorization(a, true) == NormalizeAuthorization(b, true)
  {
    GoodSignersUnordered(a.signers, b.signers);
    GoodSignersUnordered(b.signers, a.signers);
    if GoodSigners(a.signers) { SortIsUnordered(a.signers, b.signers, SignerId); }
  }

  lemma ItemUnordered(u: SignedUpdate, v: SignedUpdate)
    requires WellFormed(UpdateItem(u)) && u.seqNo == v.seqNo && u.auth == v.auth
    requires CanonicalDict(u.fields) == CanonicalDict(v.fields) && CanonicalDict(u.payload) == CanonicalDict(v.payload)
    ensures WellFormed(UpdateItem(v)) && Canonical(UpdateItem(u)) == Canonical(UpdateItem(v))
    ensures WellFormedDict(u.fields) && WellFormedDict(u.payload)
    ensures WellFormedDict(v.fields) && WellFormedDict(v.payload)
  {
    hide AuthorizationItem, CanonicalDict;
    UpdateWellFormed(u);
    SameDictWellFormed(u.fields, v.fields);
    SameDictWellFormed(u.payload, v.payload);
    UpdateCanonical(u);
    UpdateCanonical(v);
    var us, vs := UpdateColumns(u), UpdateColumns(v);
    NumberedWellFormed(us);
    NumberedWellFormed(vs);
    forall i | 0 <= i < |vs| ensures WellFormed(vs[i]) {
      assert WellFormed(us[i]);
      assert i == 0 || i == 1 || vs[i] == us[i];
    }
  }

  lemma EncodedEitherWay(decoder: PayloadDecoder, u: SignedUpdate, v: SignedUpdate)
    requires IgnoresKeyOrder(decoder) && SameUpTo(u, v) && EncodeSignedUpdate(decoder, u).Some?
    ensures EncodeSignedUpdate(decoder, v) == EncodeSignedUpdate(decoder, u)
  {
    hide UpdateItem, Canonical, WellFormed, NormalizeAuthorization, KindBinding, IgnoresKeyOrder, CanonicalDict, Sort,
         PlainKeys;
    CanonicalDictPlain(u.fields);
    CanonicalDictPlain(u.payload);
    CanonicalDictPlain(v.fields);
    CanonicalDictPlain(v.payload);
    var n := NormalizeUpdate(decoder, u, true).value;
    var m := v.(auth := n.auth);
    ItemUnordered(n, m);
    DumpsInjective(UpdateItem(n), UpdateItem(m));
    if u.auth.Some? {
      AuthorizationUnordered(u.auth.value, v.auth.value);
      var c := n.(fields := CanonicalDict(n.fields), payload := CanonicalDict(n.payload));
      BindingIgnoresKeyOrder(decoder, u, c, n.auth.value.kind);
      BindingIgnoresKeyOrder(decoder, v, c, n.auth.value.kind);
    }
  }

  /** Encoding ignores the input order of dict keys and Signers, in what it accepts and what it emits. */
  lemma UpdateEncodingUnordered(decoder: PayloadDecoder, u: SignedUpdate, v: SignedUpdate)
    requires IgnoresKeyOrder(decoder) && SameUpTo(u, v)
    ensures EncodeSignedUpdate(decoder, u) == EncodeSignedUpdate(decoder, v)
  {
    if EncodeSignedUpdate(decoder, u).Some? {
      EncodedEitherWay(decoder, u, v);
    } else if EncodeSignedUpdate(decoder, v).Some? {
      EncodedEitherWay(decoder, v, u);
    }
  }

  // ---------- envelopes ----------

  /** decode_multisignature_signed_update succeeds. */
  predicate CarriesAuthorization(decoder: PayloadDecoder, update: Bytes) {
    DecodeSignedUpdate(decoder, update).Some? && DecodeSignedUpdate(decoder, update).value.auth.Some?
  }

  function EnvelopeColumns(update: Bytes, xs: seq<Item>): (vs: seq<Item>)
    ensures |vs| == 3
  {
    [Uint(1), ByteString(update), Array(xs)]
  }

  function EnvelopeItem(update: Bytes, proofs: seq<Proof>): Item {
    Map(Numbered(EnvelopeColumns(update, BuildAll(proofs, ProofItem))))
  }

  /** encode_multisignature_envelope with its default version and sort_proofs. */
  function EncodeMultisignatureEnvelope(decoder: PayloadDecoder, update: Bytes, proofs: seq<Proof>): Option<Bytes> {
    match NormalizeProofs(proofs, true)
    case None => None
    case Some(ps) => if CarriesAuthorization(decoder, update) then Encode(EnvelopeItem(update, ps)) else None
  }

  function ReadEnvelope(x: Item): Option<MultisignatureEnvelope> {
    match Columns(x, 3)
    case None => None
    case Some(vs) =>
      if vs[0] != Uint(1) || !vs[1].ByteString? || !vs[2].Array? then None
      else match ReadAll(vs[2].items, ReadProof)
           case None => None
           case Some(ps) => Some(MultisignatureEnvelope(vs[1].bytes, ps))
  }

  function DecodeMultisignatureEnvelope(decoder: PayloadDecoder, b: Bytes): Option<MultisignatureEnvelope> {
    if !IsCanonicalCbor(b) then None
    else match ReadEnvelope(Loads(b).value)
         case None => None
         case Some(env) =>
           if CarriesAuthorization(decoder, env.update) && NormalizeProofs(env.proofs, false).Some?
           then Some(env) else None
  }

  lemma ProofsForth(ps: seq<Proof>)
    ensures ReadAll(BuildAll(ps, ProofItem), ReadProof) == Some(ps)
    ensures Canonical(Array(BuildAll(ps, ProofItem))) == Array(BuildAll(ps, ProofItem))
  {
    var xs := BuildAll(ps, ProofItem);
    forall i | 0 <= i < |xs| ensures Canonical(xs[i]) == xs[i] && ReadProof(ProofItem(ps[i])) == Some(ps[i]) {
      ProofForth(ps[i]);
    }
    FixedItems(xs);
    ListForth(ps, ReadProof, ProofItem);
  }

  lemma ProofsBack(xs: seq<Item>)
    requires WellFormed(Array(xs)) && Canonical(Array(xs)) == Array(xs)
    requires ReadAll(xs, ReadProof).Some? && PlainMaps(xs)
    ensures xs == BuildAll(ReadAll(xs, ReadProof).value, ProofItem)
  {
    forall i | 0 <= i < |xs| ensures xs[i] == ProofItem(ReadProof(xs[i]).value) {
      CanonicalItemsAt(xs, i);
      ProofBack(xs[i]);
    }
    ListBack(xs, ReadProof, ProofItem);
  }

  lemma EnvelopeForth(update: Bytes, ps: seq<Proof>)
    ensures ReadEnvelope(EnvelopeItem(update, ps)) == Some(MultisignatureEnvelope(update, ps))
    ensures Canonical(EnvelopeItem(update, ps)) == EnvelopeItem(update, ps)
  {
    hide Columns, ReadAll;
    ProofsForth(ps);
    var vs := EnvelopeColumns(update, BuildAll(ps, ProofItem));
    ColumnsForth(vs);
    NumberedFixed(vs);
  }

  /** An envelope, and every proof in it, with plain keys. */
  predicate PlainEnvelope(x: Item) {
    PlainMap(x) && match Lookup(x.entries, 3) case Some(Array(xs)) => PlainMaps(xs) case _ => true
  }

  lemma EnvelopeIsPlain(update: Bytes, ps: seq<Proof>)
    ensures PlainEnvelope(EnvelopeItem(update, ps))
  {
    hide Lookup;
    LookupAt(Numbered(EnvelopeColumns(update, BuildAll(ps, ProofItem))), 2);
  }

  lemma EnvelopeBack(x: Item)
    requires WellFormed(x) && Canonical(x) == x && ReadEnvelope(x).Some? && PlainEnvelope(x)
    ensures x == EnvelopeItem(ReadEnvelope(x).value.update, ReadEnvelope(x).value.proofs)
  {
    hide WellFormed, Canonical, ReadAll, Lookup, KeysUpTo;
    var env, vs := ReadEnvelope(x).value, Columns(x, 3).value;
    ColumnsBack(x, 3);
    assert vs[2] in vs && vs[2] == LookupKey(x.entries, 3);
    assert Lookup(x.entries, 3).Some?;
    ProofsBack(vs[2].items);
    assert vs == EnvelopeColumns(env.update, vs[2].items);
  }

  /** decode(encode(x)) is x with its proofs sorted by identifier. */
  lemma EnvelopeEncodeDecode(decoder: PayloadDecoder, update: Bytes, proofs: seq<Proof>, b: Bytes)
    requires EncodeMultisignatureEnvelope(decoder, update, proofs) == Some(b)
    ensures DecodeMultisignatureEnvelope(decoder, b) == Some(MultisignatureEnvelope(update, Sort(proofs, ProofKey)))
  {
    hide ReadEnvelope, EnvelopeItem, WellFormed, Canonical, Loads, IsCanonicalCbor, CarriesAuthorization;
    var ps := NormalizeProofs(proofs, true).value;
    EnvelopeForth(update, ps);
    SortFixesSorted(ps, ProofKey);
  }

  /** encode(decode(b)) == b for an accepted multisignature envelope exactly when its own maps have plain keys. */
  lemma EnvelopeDecodeEncode(decoder: PayloadDecoder, b: Bytes)
    requires DecodeMultisignatureEnvelope(decoder, b).Some?
    ensures var env := DecodeMultisignatureEnvelope(decoder, b).value;
            EncodeMultisignatureEnvelope(decoder, env.update, env.proofs) == Some(b) <==> PlainEnvelope(Loads(b).value)
  {
    hide ReadEnvelope, EnvelopeItem, WellFormed, Canonical, Loads, CarriesAuthorization, Sort, SortedBy, PlainEnvelope,
         IsCanonicalCbor;
    var env := DecodeMultisignatureEnvelope(decoder, b).value;
    CanonicalReencodes(b);
    if PlainEnvelope(Loads(b).value) {
      EnvelopeBack(Loads(b).value);
    } else if EncodeMultisignatureEnvelope(decoder, env.update, env.proofs) == Some(b) {
      EnvelopeForth(env.update, env.proofs);
      EnvelopeIsPlain(env.update, env.proofs);
    }
  }

  /** Encoding ignores the input order of proofs. */
  lemma EnvelopeEncodingUnordered(decoder: PayloadDecoder, update: Bytes, ps: seq<Proof>, qs: seq<Proof>)
    requires multiset(ps) == multiset(qs)
    ensures EncodeMultisignatureEnvelope(decoder, update, ps) == EncodeMultisignatureEnvelope(decoder, update, qs)
  {
    GoodProofsUnordered(ps, qs);
    GoodProofsUnordered(qs, ps);
    if GoodProofs(ps) { SortIsUnordered(ps, qs, ProofKey); }
  }

  // ---------- single-key envelopes ----------

  function LegacyItem(env: LegacyEnvelope): Item {
    Map(Numbered([ByteString(env.update), ByteString(env.signature)]))
  }

  function EncodeSignedEnvelope(env: LegacyEnvelope): Option<Bytes> {
    Encode(LegacyItem(env))
  }

  /** `isinstance(loads(b), dict) and 4 in loads(b)`, false where loads raises. */
  predicate NestsAuthorization(b: Bytes) {
    match Loads(b) case Some(Map(d)) => 4 in Keys(d) case _ => false
  }

  function ReadLegacy(x: Item): Option<LegacyEnvelope> {
    match Columns(x, 2)
    case None => None
    case Some(vs) =>
      if !vs[0].ByteString? || !vs[1].ByteString? then None else Some(LegacyEnvelope(vs[0].bytes, vs[1].bytes))
  }

  function DecodeSignedEnvelope(b: Bytes): Option<LegacyEnvelope> {
    if !IsCanonicalCbor(b) then None
    else match ReadLegacy(Loads(b).value)
         case None => None
         case Some(env) => if NestsAuthorization(env.update) then None else Some(env)
  }

  /** decode(encode(x)) is x, except that an update with key 4 can be written but never read. */
  lemma LegacyEncodeDecode(env: LegacyEnvelope, b: Bytes)
    requires EncodeSignedEnvelope(env) == Some(b)
    ensures DecodeSignedEnvelope(b) == if NestsAuthorization(env.update) then None else Some(env)
  {
    hide Columns, Loads, IsCanonicalCbor;
    var vs := [ByteString(env.update), ByteString(env.signature)];
    ColumnsForth(vs);
    NumberedFixed(vs);
  }

  /** encode(decode(b)) == b for an accepted single-key envelope exactly when its own keys are plain. */
  lemma LegacyDecodeEncode(b: Bytes)
    requires DecodeSignedEnvelope(b).Some?
    ensures EncodeSignedEnvelope(DecodeSignedEnvelope(b).value) == Some(b) <==> PlainMap(Loads(b).value)
  {
    hide Columns, Loads, WellFormed, Canonical, IsCanonicalCbor;
    CanonicalReencodes(b);
    var x, env := Loads(b).value, DecodeSignedEnvelope(b).value;
    var vs := [ByteString(env.update), ByteString(env.signature)];
    if PlainMap(x) {
      ColumnsBack(x, 2);
      assert Columns(x, 2).value == vs;
    } else if EncodeSignedEnvelope(env) == Some(b) {
      LegacyItemFixed(env);
    }
  }

  lemma LegacyItemFixed(env: LegacyEnvelope)
    ensures Canonical(LegacyItem(env)) == LegacyItem(env) && PlainMap(LegacyItem(env))
  {
    NumberedFixed([ByteString(env.update), ByteString(env.signature)]);
  }

  // ---------- stored histories ----------

  function BytesItem(b: Bytes): Item { ByteString(b) }

  function ReadBytes(x: Item): Option<Bytes> { BytesOf(Some(x)) }

  /** What put_if_newer writes under the history key. */
  function EncodeHistory(h: seq<Bytes>): Option<Bytes> {
    Encode(Array(BuildAll(h, BytesItem)))
  }

  /** What get_history makes of the stored bytes. */
  function DecodeHistory(b: Bytes): Option<seq<Bytes>> {
    if !IsCanonicalCbor(b) then None
    else match Loads(b).value
         case Array(xs) => if xs == [] then None else ReadAll(xs, ReadBytes)
         case _ => None
  }

  /** A stored non-empty history reads back as it was, nothing else reads back as it, and none reads as empty. */
  lemma HistoryRoundTrip(h: seq<Bytes>, b: Bytes)
    ensures h != [] ==> (EncodeHistory(h) == Some(b) <==> DecodeHistory(b) == Some(h))
    ensures DecodeHistory(b) != Some([])
  {
    var xs := BuildAll(h, BytesItem);
    FixedItems(xs);
    ListForth(h, ReadBytes, BytesItem);
    if DecodeHistory(b) == Some(h) {
      CanonicalReencodes(b);
      ListBack(Loads(b).value.items, ReadBytes, BytesItem);
    }
  }

  // ---------- the wire the validators run on ----------

  /** A dict with keys {1,2,3}, however encoded and whatever its values. */
  predicate LooksLikeMultisignature(b: Bytes) {
    match Loads(b) case Some(x) => Columns(x, 3).Some? case None => false
  }

  /** The nested update _extract_seq loads: key 1 of a two-key map, key 2 of a three-key one. */
  function LooseUpdate(b: Bytes): Option<Bytes> {
    match Loads(b)
    case None => None
    case Some(x) =>
      if Columns(x, 2).Some? then BytesOf(Some(Columns(x, 2).value[0]))
      else if Columns(x, 3).Some? then BytesOf(Some(Columns(x, 3).value[1]))
      else None
  }

  /** `loads(update)[3]` where that is a non-negative int: of a dict, a list or a byte string. */
  function LooseSeq(update: Bytes): Option<nat> {
    match Loads(update)
    case Some(Map(d)) => (match Lookup(d, 3) case Some(Uint(n)) => Some(n) case _ => None)
    case Some(Array(xs)) => if |xs| > 3 && xs[3].Uint? then Some(xs[3].n) else None
    case Some(ByteString(s)) => if |s| > 3 then Some(s[3]) else None
    case _ => None
  }

  function ConcreteWire(
    decoder: PayloadDecoder, sha256: Bytes -> Bytes, ed25519: (Bytes, Bytes, Bytes) -> bool): Wire
  {
    Wire(LooksLikeMultisignature, LooseUpdate, LooseSeq,
         b => DecodeMultisignatureEnvelope(decoder, b), DecodeSignedEnvelope,
         b => DecodeSignedUpdate(decoder, b), decoder, sha256, ed25519)
  }

  lemma MultisignatureDecodesSoundly(decoder: PayloadDecoder, b: Bytes)
    requires DecodeMultisignatureEnvelope(decoder, b).Some?
    ensures LooksLikeMultisignature(b)
    ensures LooseUpdate(b) == Some(DecodeMultisignatureEnvelope(decoder, b).value.update)
  {
    hide Columns, Loads, CarriesAuthorization, ReadAll;
    var x := Loads(b).value;
    if Columns(x, 2).Some? { ColumnsAreExact(x, 2, 3); }
  }

  lemma LegacyDecodesSoundly(decoder: PayloadDecoder, b: Bytes)
    requires DecodeSignedEnvelope(b).Some?
    ensures !LooksLikeMultisignature(b) && LooseUpdate(b) == Some(DecodeSignedEnvelope(b).value.update)
    ensures !CarriesAuthorization(decoder, DecodeSignedEnvelope(b).value.update)
  {
    var x, update := Loads(b).value, DecodeSignedEnvelope(b).value.update;
    if Columns(x, 3).Some? { ColumnsAreExact(x, 2, 3); }
    if CarriesAuthorization(decoder, update) { FourthKey(decoder, update); }
  }

  lemma FourthKey(decoder: PayloadDecoder, update: Bytes)
    requires CarriesAuthorization(decoder, update)
    ensures NestsAuthorization(update)
  {
    hide ReadAuthorization, NormalizeUpdate, Loads;
    var x := Loads(update).value;
    assert ReadUpdate(x).Some? && ReadUpdate(x).value.auth.Some?;
    assert Columns(x, 4).Some? && 4 in Keys(x.entries);
  }

  lemma SeqIsLoose(decoder: PayloadDecoder, update: Bytes)
    requires DecodeSignedUpdate(decoder, update).Some?
    ensures LooseSeq(update) == Some(DecodeSignedUpdate(decoder, update).value.seqNo)
  {
    hide ReadAuthorization, NormalizeUpdate, Loads;
    var x := Loads(update).value;
    var vs := ReadUpdateColumns(x).value;
    assert 3 in Keys(x.entries) && vs[2] == LookupKey(x.entries, 3);
    assert Lookup(x.entries, 3).Some?;
  }

  /** The decoders of `w` are the ones above, for its own payload schema. */
  ghost predicate UsesCodec(w: Wire) {
    && (forall b :: w.isMultisignature(b) == LooksLikeMultisignature(b))
    && (forall b :: w.looseUpdate(b) == LooseUpdate(b) && w.looseSeq(b) == LooseSeq(b))
    && (forall b :: w.multisignature(b) == DecodeMultisignatureEnvelope(w.providerPayload, b))
    && (forall b :: w.legacy(b) == DecodeSignedEnvelope(b))
    && (forall b :: w.signedUpdate(b) == DecodeSignedUpdate(w.providerPayload, b))
  }

  /** The codecs keep every promise the validators rely on. */
  lemma ConcreteWireSound(w: Wire)
    requires UsesCodec(w) && w.providerPayload([]).None? && forall b :: |w.sha256(b)| == 32
    ensures Sound(w)
  {
    hide ReadUpdate, ReadEnvelope, ReadLegacy, Loads, IsCanonicalCbor, LooksLikeMultisignature, LooseUpdate, LooseSeq,
         NestsAuthorization;
    forall b | w.multisignature(b).Some?
      ensures w.isMultisignature(b) && w.looseUpdate(b) == Some(w.multisignature(b).value.update)
      ensures CarriesAuthorization(w.providerPayload, w.multisignature(b).value.update)
    {
      MultisignatureDecodesSoundly(w.providerPayload, b);
    }
    forall b | w.legacy(b).Some?
      ensures !w.isMultisignature(b) && w.looseUpdate(b) == Some(w.legacy(b).value.update)
      ensures !CarriesAuthorization(w.providerPayload, w.legacy(b).value.update)
    {
      LegacyDecodesSoundly(w.providerPayload, b);
    }
    forall u | w.signedUpdate(u).Some? ensures w.looseSeq(u) == Some(w.signedUpdate(u).value.seqNo) {
      SeqIsLoose(w.providerPayload, u);
    }
  }

  /** Such a wire exists whatever the primitives are. */
  lemma ConcreteWireUsesCodec(decoder: PayloadDecoder, sha256: Bytes -> Bytes, ed25519: (Bytes, Bytes, Bytes) -> bool)
    ensures UsesCodec(ConcreteWire(decoder, sha256, ed25519))
  {
  }

  /** The identifiers in a decoded Signer Set are text of 1 to 256 bytes. */
  lemma MembersAreText(decoder: PayloadDecoder, update: Bytes)
    requires CarriesAuthorization(decoder, update)
    ensures var signers := DecodeSignedUpdate(decoder, update).value.auth.value.signers;
            GoodSigners(signers) && |signers| < WORD && forall i :: 0 <= i < |signers| ==> ValidUtf8(signers[i].id)
  {
    hide ReadAuthorization, ValidUtf8, Loads, Sort, SortedBy, KindBinding, Columns, WellFormed, PlainKeys;
    var x := Loads(update).value;
    CanonicalReencodes(update);
    var vs := ReadUpdateColumns(x).value;
    ColumnsAreWellFormed(x, |vs|);
    assert vs[3] in vs;
    SignerTexts(vs[3]);
  }

  lemma SignerTexts(x: Item)
    requires WellFormed(x) && ReadAuthorization(x).Some?
    ensures var signers := ReadAuthorization(x).value.signers;
            |signers| < WORD && forall i :: 0 <= i < |signers| ==> ValidUtf8(signers[i].id)
  {
    hide ValidUtf8, Columns;
    ColumnsAreWellFormed(x, 7);
    var vs := Columns(x, 7).value;
    assert vs[5] in vs;
    var xs := vs[5].items;
    forall i | 0 <= i < |xs| ensures ValidUtf8(ReadSigner(xs[i]).value.id) {
      ColumnsAreWellFormed(xs[i], 2);
      assert Columns(xs[i], 2).value[0] in Columns(xs[i], 2).value;
    }
  }

  lemma ProofEncodes(p: Proof)
    requires GoodProof(p) && (p.id.Some? ==> ValidUtf8(p.id.value))
    ensures WellFormed(ProofItem(p))
  {
    NumberedWellFormed([ProofIdItem(p.id), ByteString(p.signature)]);
  }

  /** Encoding an envelope fails only for its update, its proofs, or an unencodable size or text. */
  lemma EnvelopeEncodes(decoder: PayloadDecoder, update: Bytes, proofs: seq<Proof>)
    requires CarriesAuthorization(decoder, update) && |update| < WORD
    requires GoodProofs(proofs) && |proofs| < WORD
    requires forall i :: 0 <= i < |proofs| && proofs[i].id.Some? ==> ValidUtf8(proofs[i].id.value)
    ensures EncodeMultisignatureEnvelope(decoder, update, proofs).Some?
  {
    hide ValidUtf8, CarriesAuthorization, SortedBy, Sort, ProofItem, GoodProof, IsCanonicalCbor, Loads;
    var ps := NormalizeProofs(proofs, true).value;
    assert |multiset(ps)| == |ps| && |multiset(proofs)| == |proofs|;
    var xs := BuildAll(ps, ProofItem);
    forall i | 0 <= i < |xs| ensures WellFormed(xs[i]) {
      assert ps[i] in multiset(proofs);
      ProofEncodes(ps[i]);
    }
    NumberedWellFormed(EnvelopeColumns(update, xs));
  }
}
