/**
 Collecting detached proofs for one SignedUpdate (multisig_bundle.py): merging does not
 depend on the order in which they arrive, and what finalisation emits has its quorum.
 */
module Bundle {
  import opened Basics
  import opened Utf8
  import opened Cbor
  import opened Schema
  import opened Codec
  import opened Verification
  import opened Lineage
  import opened RecordValidator
  import opened ProviderRuns

  /** One detached signature over exact SignedUpdate bytes; `id` is the UTF-8 identifier. */
  datatype DetachedProof = DetachedProof(update: Bytes, id: Bytes, signature: Bytes)

  datatype MultisignatureBundle = MultisignatureBundle(update: Bytes, proofs: seq<DetachedProof>)

  function ProofId(p: DetachedProof): Bytes { p.id }

  function ToWire(p: DetachedProof): Proof { Proof(Some(p.id), p.signature) }

  function WireProofs(ps: seq<DetachedProof>): (r: seq<Proof>)
    ensures |r| == |ps| && forall i :: 0 <= i < |ps| ==> r[i] == ToWire(ps[i])
  {
    seq(|ps|, i requires 0 <= i < |ps| => ToWire(ps[i]))
  }

  /** The constructor: the update must carry an authorization; proofs are kept sorted by identifier. */
  function NewBundle(w: Wire, update: Bytes, proofs: seq<DetachedProof>): Option<MultisignatureBundle> {
    if DecodeMultisignatureUpdate(w, update).None? then None
    else Some(MultisignatureBundle(update, Sort(proofs, ProofId)))
  }

  /** A bundle some constructor call returned, from proofs with non-empty identifiers. */
  predicate Constructed(w: Wire, b: MultisignatureBundle) {
    && DecodeMultisignatureUpdate(w, b.update).Some?
    && SortedBy(b.proofs, ProofId)
    && forall i :: 0 <= i < |b.proofs| ==> b.proofs[i].id != []
  }

  function AuthorizationOf(w: Wire, b: MultisignatureBundle): Authorization
    requires DecodeMultisignatureUpdate(w, b.update).Some?
  {
    DecodeMultisignatureUpdate(w, b.update).value.auth.value
  }

  /** _validate_proof. */
  predicate ValidProof(w: Wire, b: MultisignatureBundle, p: DetachedProof)
    requires DecodeMultisignatureUpdate(w, b.update).Some?
  {
    && p.update == b.update
    && |p.signature| == 64
    && ProofHolds(w, b.update, ToWire(p), AuthorizationOf(w, b).signers)
  }

  predicate HasProofBy(ps: seq<DetachedProof>, id: Bytes) {
    exists i :: 0 <= i < |ps| && ps[i].id == id
  }

  /** merge_proof. */
  function MergeProof(w: Wire, b: MultisignatureBundle, p: DetachedProof): (r: Option<MultisignatureBundle>)
    requires DecodeMultisignatureUpdate(w, b.update).Some?
    ensures r.Some? ==> r.value.update == b.update
  {
    if HasProofBy(b.proofs, p.id) || !ValidProof(w, b, p) then None
    else NewBundle(w, b.update, b.proofs + [p])
  }

  function MergeAll(w: Wire, b: MultisignatureBundle, ps: seq<DetachedProof>): (r: Option<MultisignatureBundle>)
    requires DecodeMultisignatureUpdate(w, b.update).Some?
    decreases |ps|
  {
    if ps == [] then Some(b)
    else match MergeProof(w, b, ps[0]) case None => None case Some(m) => MergeAll(w, m, ps[1..])
  }

  /** merge_proofs: the loop rebinding `merged`. */
  method MergeProofs(w: Wire, b: MultisignatureBundle, proofs: seq<DetachedProof>)
    returns (r: Option<MultisignatureBundle>)
    requires DecodeMultisignatureUpdate(w, b.update).Some?
    ensures r == MergeAll(w, b, proofs)
  {
    var merged := b;
    for i := 0 to |proofs|
      invariant merged.update == b.update && MergeAll(w, b, proofs) == MergeAll(w, merged, proofs[i..])
    {
      assert proofs[i..][1..] == proofs[i + 1..];
      var next := MergeProof(w, merged, proofs[i]);
      if next.None? { return None; }
      merged := next.value;
    }
    r := Some(merged);
  }

  // ---------- merging is confluent ----------

  /** Valid proofs, from distinct members none of whom the bundle already has a proof of. */
  predicate Mergeable(w: Wire, b: MultisignatureBundle, ps: seq<DetachedProof>)
    requires DecodeMultisignatureUpdate(w, b.update).Some?
  {
    && DistinctBy(ps, ProofId)
    && (forall i :: 0 <= i < |ps| ==> ValidProof(w, b, ps[i]))
    && forall i :: 0 <= i < |ps| ==> !HasProofBy(b.proofs, ps[i].id)
  }

  /** Exactly when merging a list of proofs succeeds, and what it gives: one sort of them all. */
  lemma {:induction false} MergeAllIsOneSort(w: Wire, b: MultisignatureBundle, ps: seq<DetachedProof>)
    requires DecodeMultisignatureUpdate(w, b.update).Some? && SortedBy(b.proofs, ProofId)
    ensures MergeAll(w, b, ps)
            == if Mergeable(w, b, ps) then Some(MultisignatureBundle(b.update, Sort(b.proofs + ps, ProofId))) else None
    decreases |ps|
  {
    hide Sort, SortedBy, ProofHolds, HasProofBy;
    if ps == [] {
      assert b.proofs + ps == b.proofs;
      SortFixesSorted(b.proofs, ProofId);
    } else {
      MergeableSplits(w, b, ps);
      var next := MergeProof(w, b, ps[0]);
      if next.Some? {
        SortSorts(b.proofs + [ps[0]], ProofId);
        MergeAllIsOneSort(w, next.value, ps[1..]);
        SortAbsorbs(b.proofs + [ps[0]], ps[1..], ProofId);
        assert b.proofs + [ps[0]] + ps[1..] == b.proofs + ps;
      }
    }
  }

  lemma MergeableSplits(w: Wire, b: MultisignatureBundle, ps: seq<DetachedProof>)
    requires DecodeMultisignatureUpdate(w, b.update).Some? && ps != []
    ensures Mergeable(w, b, ps) <==>
              MergeProof(w, b, ps[0]).Some? && Mergeable(w, MergeProof(w, b, ps[0]).value, ps[1..])
  {
    hide ProofHolds, HasProofBy, Sort, DecodeMultisignatureUpdate;
    var p, rest := ps[0], ps[1..];
    var s := Sort(b.proofs + [p], ProofId);
    assert ps == [p] + rest;
    FirstIsDistinct(p, rest);
    forall i | 0 <= i < |rest|
      ensures HasProofBy(s, rest[i].id) <==> HasProofBy(b.proofs, rest[i].id) || rest[i].id == p.id
    {
      HasProofAfter(b.proofs, p, rest[i].id);
    }
  }

  lemma FirstIsDistinct(p: DetachedProof, rest: seq<DetachedProof>)
    ensures DistinctBy([p] + rest, ProofId) <==>
              DistinctBy(rest, ProofId) && forall i :: 0 <= i < |rest| ==> rest[i].id != p.id
  {
    var all := [p] + rest;
    assert forall i :: 0 <= i < |rest| ==> all[i + 1] == rest[i];
    if DistinctBy(all, ProofId) {
      forall i, j | 0 <= i < j < |rest| ensures ProofId(rest[i]) != ProofId(rest[j]) {
        assert ProofId(all[i + 1]) != ProofId(all[j + 1]);
      }
      forall i | 0 <= i < |rest| ensures rest[i].id != p.id {
        assert ProofId(all[0]) != ProofId(all[i + 1]);
      }
    }
  }

  lemma HasProofAfter(ps: seq<DetachedProof>, p: DetachedProof, id: Bytes)
    ensures HasProofBy(Sort(ps + [p], ProofId), id) <==> HasProofBy(ps, id) || id == p.id
  {
    hide Sort;
    var all, s := ps + [p], Sort(ps + [p], ProofId);
    SortSorts(all, ProofId);
    if HasProofBy(s, id) {
      var i :| 0 <= i < |s| && s[i].id == id;
      assert s[i] in multiset(all);
    }
    if HasProofBy(ps, id) {
      var i :| 0 <= i < |ps| && ps[i].id == id;
      assert all[i] in multiset(s);
    } else if id == p.id {
      assert all[|ps|] in multiset(s);
    }
  }

  lemma MergeableUnordered(w: Wire, b: MultisignatureBundle, ps: seq<DetachedProof>, qs: seq<DetachedProof>)
    requires DecodeMultisignatureUpdate(w, b.update).Some? && multiset(ps) == multiset(qs) && Mergeable(w, b, ps)
    ensures Mergeable(w, b, qs)
  {
    hide ProofHolds, HasProofBy;
    DistinctIsUnordered(ps, qs, ProofId);
    forall i | 0 <= i < |qs| ensures ValidProof(w, b, qs[i]) && !HasProofBy(b.proofs, qs[i].id) {
      assert qs[i] in multiset(ps);
    }
  }

  /** Proofs arriving in any order are accepted or refused alike, and give the same bundle and bytes. */
  lemma MergingIsConfluent(w: Wire, b: MultisignatureBundle, ps: seq<DetachedProof>, qs: seq<DetachedProof>)
    requires DecodeMultisignatureUpdate(w, b.update).Some? && SortedBy(b.proofs, ProofId)
    requires multiset(ps) == multiset(qs)
    ensures MergeAll(w, b, ps) == MergeAll(w, b, qs)
  {
    hide Mergeable, MergeAll, Sort;
    MergeAllIsOneSort(w, b, ps);
    MergeAllIsOneSort(w, b, qs);
    if Mergeable(w, b, ps) {
      MergeableUnordered(w, b, ps, qs);
      assert DistinctBy(ps, ProofId) by { MergeableDistinct(w, b, ps); }
      SortIsUnordered(ps, qs, ProofId);
      SortOfAppend(b.proofs, ps, ProofId);
      SortOfAppend(b.proofs, qs, ProofId);
    } else if Mergeable(w, b, qs) {
      MergeableUnordered(w, b, qs, ps);
    }
  }

  lemma MergeableDistinct(w: Wire, b: MultisignatureBundle, ps: seq<DetachedProof>)
    requires DecodeMultisignatureUpdate(w, b.update).Some? && Mergeable(w, b, ps)
    ensures DistinctBy(ps, ProofId)
  {
  }

  // ---------- serialisation ----------

  function ToCbor(w: Wire, b: MultisignatureBundle): Option<Bytes> {
    EncodeMultisignatureEnvelope(w.providerPayload, b.update, WireProofs(b.proofs))
  }

  function FromWire(update: Bytes, ps: seq<Proof>): (r: Option<seq<DetachedProof>>)
    ensures r.Some? <==> forall i :: 0 <= i < |ps| ==> ps[i].id.Some? && ps[i].id.value != []
    ensures r.Some? ==> |r.value| == |ps|
    ensures r.Some? ==> forall i :: 0 <= i < |ps| ==>
                          r.value[i] == DetachedProof(update, ps[i].id.value, ps[i].signature)
  {
    if ps == [] then Some([])
    else
      assert ps == [ps[0]] + ps[1..];
      match FromWire(update, ps[1..])
      case None => None
      case Some(rest) =>
        if ps[0].id.None? || ps[0].id.value == [] then None
        else Some([DetachedProof(update, ps[0].id.value, ps[0].signature)] + rest)
  }

  function FromCbor(w: Wire, bytes: Bytes): Option<MultisignatureBundle> {
    match w.multisignature(bytes)
    case None => None
    case Some(env) =>
      match FromWire(env.update, env.proofs)
      case None => None
      case Some(ps) => NewBundle(w, env.update, ps)
  }

  lemma WireProofsSorted(ps: seq<DetachedProof>)
    requires SortedBy(ps, ProofId)
    ensures SortedBy(WireProofs(ps), ProofKey)
  {
    var qs := WireProofs(ps);
    assert forall i :: 0 <= i < |ps| ==> ProofKey(qs[i]) == ProofId(ps[i]);
  }

  /** from_cbor(to_cbor(b)) == b for a constructed bundle whose proofs are bound to its own update. */
  lemma BundleRoundTrip(w: Wire, b: MultisignatureBundle, bytes: Bytes)
    requires UsesCodec(w) && Constructed(w, b) && ToCbor(w, b) == Some(bytes)
    requires forall i :: 0 <= i < |b.proofs| ==> b.proofs[i].update == b.update
    ensures FromCbor(w, bytes) == Some(b)
  {
    hide EncodeMultisignatureEnvelope, DecodeMultisignatureEnvelope, DecodeMultisignatureUpdate, SortedBy, Sort;
    var ps := WireProofs(b.proofs);
    EnvelopeEncodeDecode(w.providerPayload, b.update, ps, bytes);
    WireProofsSorted(b.proofs);
    SortFixesSorted(ps, ProofKey);
    SortFixesSorted(b.proofs, ProofId);
    assert FromWire(b.update, ps).value == b.proofs;
  }

  // ---------- finalisation ----------

  /** Distinct identifiers and every proof valid. */
  predicate Collected(w: Wire, b: MultisignatureBundle)
    requires DecodeMultisignatureUpdate(w, b.update).Some?
  {
    && DistinctBy(b.proofs, ProofId)
    && (forall i :: 0 <= i < |b.proofs| ==> ValidProof(w, b, b.proofs[i]))
  }

  /** Collected, and the quorum the operation asks for. */
  predicate Finalizable(w: Wire, b: MultisignatureBundle)
    requires DecodeMultisignatureUpdate(w, b.update).Some?
  {
    var u, a := DecodeMultisignatureUpdate(w, b.update).value, AuthorizationOf(w, b);
    && Collected(w, b)
    && if a.operation == UPGRADE
       then |b.proofs| == 1 && KeyOf(a.signers, Some(b.proofs[0].id)) == Some(OwnerOf(a.kind, u.fields))
       else |b.proofs| >= a.threshold
  }

  function Finalize(w: Wire, b: MultisignatureBundle): Option<Bytes>
    requires DecodeMultisignatureUpdate(w, b.update).Some?
  {
    if Finalizable(w, b) then ToCbor(w, b) else None
  }

  lemma {:induction false} SeenIds(ps: seq<DetachedProof>, seen: set<Bytes>)
    requires DistinctBy(ps, ProofId) && seen == set i | 0 <= i < |ps| :: ProofId(ps[i])
    ensures |seen| == |ps|
  {
    if ps == [] {
    } else {
      var n := |ps| - 1;
      var init := set i | 0 <= i < n :: ProofId(ps[i]);
      assert forall i :: 0 <= i < n ==> ProofId(ps[..n][i]) == ProofId(ps[i]);
      SeenIds(ps[..n], set i | 0 <= i < |ps[..n]| :: ProofId(ps[..n][i]));
      assert init == set i | 0 <= i < |ps[..n]| :: ProofId(ps[..n][i]);
      assert seen == init + {ProofId(ps[n])} && ProofId(ps[n]) !in init;
    }
  }

  /** finalize_bundle: one pass with the identifiers seen so far, then the quorum rule. */
  method FinalizeBundle(w: Wire, b: MultisignatureBundle) returns (r: Option<Bytes>)
    requires DecodeMultisignatureUpdate(w, b.update).Some?
    ensures r == Finalize(w, b)
  {
    hide ToCbor, ValidProof, KeyOf, OwnerOf, DecodeMultisignatureUpdate;
    var seen: set<Bytes> := {};
    for i := 0 to |b.proofs|
      invariant seen == set j | 0 <= j < i :: ProofId(b.proofs[j])
      invariant forall j, l :: 0 <= j < l < i ==> ProofId(b.proofs[j]) != ProofId(b.proofs[l])
      invariant forall j :: 0 <= j < i ==> ValidProof(w, b, b.proofs[j])
    {
      if ProofId(b.proofs[i]) in seen { return None; }
      seen := seen + {ProofId(b.proofs[i])};
      if !ValidProof(w, b, b.proofs[i]) { return None; }
    }
    SeenIds(b.proofs, seen);
    var u, a := DecodeMultisignatureUpdate(w, b.update).value, AuthorizationOf(w, b);
    if a.operation == UPGRADE {
      if |seen| != 1 { return None; }
      if KeyOf(a.signers, Some(b.proofs[0].id)) != Some(OwnerOf(a.kind, u.fields)) { return None; }
    } else if |seen| < a.threshold {
      return None;
    }
    r := ToCbor(w, b);
  }

  /** A finalised bundle is an envelope of exactly this update and these proofs. */
  lemma FinalizedDecodes(w: Wire, b: MultisignatureBundle, e: Bytes)
    requires UsesCodec(w) && Constructed(w, b) && ToCbor(w, b) == Some(e)
    ensures w.multisignature(e) == Some(MultisignatureEnvelope(b.update, WireProofs(b.proofs)))
  {
    hide EncodeMultisignatureEnvelope, DecodeMultisignatureEnvelope, DecodeMultisignatureUpdate, SortedBy, Sort;
    var ps := WireProofs(b.proofs);
    EnvelopeEncodeDecode(w.providerPayload, b.update, ps, e);
    WireProofsSorted(b.proofs);
    SortFixesSorted(ps, ProofKey);
  }

  lemma CollectedProofs(w: Wire, b: MultisignatureBundle)
    requires DecodeMultisignatureUpdate(w, b.update).Some? && Collected(w, b)
    ensures var a := AuthorizationOf(w, b);
            && DistinctProofs(WireProofs(b.proofs))
            && (forall i :: 0 <= i < |b.proofs| ==> ProofHolds(w, b.update, WireProofs(b.proofs)[i], a.signers))
  {
    hide ProofHolds;
    assert forall i, j :: 0 <= i < j < |b.proofs| ==> ProofId(b.proofs[i]) != ProofId(b.proofs[j]);
    assert forall i :: 0 <= i < |b.proofs| ==> ValidProof(w, b, b.proofs[i]);
  }

  /**
   Finalisation is sound for the validator: the emitted envelope has the threshold proofs of
   its own Signer Set or, for an upgrade, the one owner proof.
   */
  lemma FinalizedIsSound(w: Wire, b: MultisignatureBundle, e: Bytes, c: Candidate)
    requires Sound(w) && UsesCodec(w) && Constructed(w, b) && Finalize(w, b) == Some(e)
    requires DecodeCandidate(w, e) == Some(c)
    ensures c.update == b.update && c.proofs == WireProofs(b.proofs) && c.auth == AuthorizationOf(w, b)
    ensures if c.auth.operation == UPGRADE then UpgradeProof(w, c, OwnerOf(c.auth.kind, c.body.fields))
            else ThresholdProofs(w, c.update, c.proofs, c.auth.signers, c.auth.threshold)
  {
    hide ToCbor, SortedBy, ProofHolds, UpgradeProof;
    FinalizedDecodes(w, b, e);
    CollectedProofs(w, b);
    if c.auth.operation == UPGRADE { FinalizedUpgrade(w, b, c); }
  }

  lemma FinalizedUpgrade(w: Wire, b: MultisignatureBundle, c: Candidate)
    requires DistinctSigners(c.auth.signers) && |c.proofs| == 1 && c.update == b.update
    requires ProofHolds(w, b.update, c.proofs[0], c.auth.signers)
    requires KeyOf(c.auth.signers, c.proofs[0].id) == Some(OwnerOf(c.auth.kind, c.body.fields))
    ensures UpgradeProof(w, c, OwnerOf(c.auth.kind, c.body.fields))
  {
    var i := KeyOfIsMember(c.auth.signers, c.proofs[0].id);
    OnlyIdOfKey(c.auth.signers, i);
  }

  /** Distinct members, so no more proofs than members. */
  lemma NoMoreProofsThanMembers(proofs: seq<Proof>, signers: seq<Signer>)
    requires DistinctSigners(signers) && DistinctProofs(proofs)
    requires forall i :: 0 <= i < |proofs| ==> KeyOf(signers, proofs[i].id).Some?
    ensures |proofs| <= |signers|
  {
    DistinctProofsDistinctKeys(proofs, signers);
    MemberKeyCount(signers);
    forall key | key in ProofKeys(proofs, signers) ensures key in MemberKeys(signers) {
      var i :| 0 <= i < |proofs| && KeyOf(signers, proofs[i].id).value == key;
      var m := KeyOfIsMember(signers, proofs[i].id);
    }
    SubsetSize(ProofKeys(proofs, signers), MemberKeys(signers));
  }

  lemma ValidProofIsGood(w: Wire, b: MultisignatureBundle, p: DetachedProof)
    requires UsesCodec(w) && DecodeMultisignatureUpdate(w, b.update).Some? && ValidProof(w, b, p)
    ensures GoodProof(ToWire(p)) && ValidUtf8(p.id) && KeyOf(AuthorizationOf(w, b).signers, Some(p.id)).Some?
  {
    hide ValidUtf8, Verifies;
    var a := AuthorizationOf(w, b);
    MembersAreText(w.providerPayload, b.update);
    var m := KeyOfIsMember(a.signers, Some(p.id));
    assert GoodSigner(a.signers[m]);
  }

  lemma CollectedProofsAreGood(w: Wire, b: MultisignatureBundle)
    requires Sound(w) && UsesCodec(w) && DecodeMultisignatureUpdate(w, b.update).Some? && Collected(w, b)
    ensures GoodProofs(WireProofs(b.proofs)) && |b.proofs| < WORD
    ensures forall i :: 0 <= i < |b.proofs| ==> ValidUtf8(b.proofs[i].id)
  {
    hide ValidUtf8, ProofHolds, GoodProof, GoodSigners, KeyOf;
    var a, ps := AuthorizationOf(w, b), WireProofs(b.proofs);
    CollectedProofs(w, b);
    forall i | 0 <= i < |ps| ensures GoodProof(ps[i]) && ValidUtf8(b.proofs[i].id) && KeyOf(a.signers, ps[i].id).Some? {
      ValidProofIsGood(w, b, b.proofs[i]);
    }
    assert forall i, j :: 0 <= i < j < |ps| ==> ProofKey(ps[i]) != ProofKey(ps[j]) by {
      assert forall i, j :: 0 <= i < j < |ps| ==> ProofId(b.proofs[i]) != ProofId(b.proofs[j]);
    }
    NoMoreProofsThanMembers(ps, a.signers);
    MembersAreText(w.providerPayload, b.update);
  }

  lemma CollectedSerializes(w: Wire, b: MultisignatureBundle)
    requires Sound(w) && UsesCodec(w) && |b.update| < WORD
    requires DecodeMultisignatureUpdate(w, b.update).Some? && Collected(w, b)
    ensures ToCbor(w, b).Some?
  {
    hide ValidUtf8, EncodeMultisignatureEnvelope;
    CollectedProofsAreGood(w, b);
    EnvelopeEncodes(w.providerPayload, b.update, WireProofs(b.proofs));
  }

  /** A proof of this very update, of 64 bytes, by the member it names. */
  ghost predicate MemberProof(w: Wire, b: MultisignatureBundle, p: DetachedProof)
    requires DecodeMultisignatureUpdate(w, b.update).Some?
  {
    p.update == b.update && |p.signature| == 64 && MemberSigns(w, b.update, ToWire(p), AuthorizationOf(w, b).signers)
  }

  lemma ValidProofExactly(w: Wire, b: MultisignatureBundle, p: DetachedProof)
    requires Sound(w) && DecodeMultisignatureUpdate(w, b.update).Some?
    ensures ValidProof(w, b, p) <==> MemberProof(w, b, p)
  {
    ThresholdExactly(w, b.update, [ToWire(p)], AuthorizationOf(w, b).signers, 0);
    assert [ToWire(p)][0] == ToWire(p);
  }

  /** The identifier is that of the member holding this key. */
  ghost predicate NamesHolder(signers: seq<Signer>, id: Bytes, key: Bytes) {
    exists m :: 0 <= m < |signers| && signers[m].id == id && signers[m].key == key
  }

  lemma KeyOfExactly(signers: seq<Signer>, id: Bytes, key: Bytes)
    requires DistinctSigners(signers)
    ensures KeyOf(signers, Some(id)) == Some(key) <==> NamesHolder(signers, id, key)
  {
    if KeyOf(signers, Some(id)) == Some(key) {
      var m := KeyOfIsMember(signers, Some(id));
    }
    if NamesHolder(signers, id, key) {
      var m: nat :| m < |signers| && signers[m].id == id && signers[m].key == key;
      MemberHasKey(signers, m);
    }
  }

  /**
   A bundle finalises exactly when its proofs are the signatures of distinct members and there are
   enough of them: the threshold or, for an upgrade, the one by the member holding the owner key.
   Nothing else can refuse.
   */
  lemma FinalizesExactly(w: Wire, b: MultisignatureBundle)
    requires Sound(w) && UsesCodec(w) && DecodeMultisignatureUpdate(w, b.update).Some? && |b.update| < WORD
    ensures Finalize(w, b).Some? <==>
              var u, a := DecodeMultisignatureUpdate(w, b.update).value, AuthorizationOf(w, b);
              && (forall i :: 0 <= i < |b.proofs| ==> MemberProof(w, b, b.proofs[i]))
              && (forall i, j :: 0 <= i < j < |b.proofs| ==> b.proofs[i].id != b.proofs[j].id)
              && if a.operation == UPGRADE
                 then |b.proofs| == 1 && NamesHolder(a.signers, b.proofs[0].id, OwnerOf(a.kind, u.fields))
                 else |b.proofs| >= a.threshold
    ensures Finalize(w, b).Some? ==> Finalize(w, b) == ToCbor(w, b)
  {
    hide ToCbor, KeyOf, MemberProof, Collected, NamesHolder, OwnerOf, DecodeMultisignatureUpdate;
    if Finalizable(w, b) { CollectedSerializes(w, b); }
    CollectedExactly(w, b);
    MembersAreDistinct(w, b.update);
    var u, a := DecodeMultisignatureUpdate(w, b.update).value, AuthorizationOf(w, b);
    if |b.proofs| == 1 { KeyOfExactly(a.signers, b.proofs[0].id, OwnerOf(a.kind, u.fields)); }
  }

  lemma CollectedExactly(w: Wire, b: MultisignatureBundle)
    requires Sound(w) && DecodeMultisignatureUpdate(w, b.update).Some?
    ensures Collected(w, b) <==>
              && (forall i :: 0 <= i < |b.proofs| ==> MemberProof(w, b, b.proofs[i]))
              && (forall i, j :: 0 <= i < j < |b.proofs| ==> b.proofs[i].id != b.proofs[j].id)
  {
    hide MemberProof, ValidProof, DecodeMultisignatureUpdate;
    forall i | 0 <= i < |b.proofs| ensures ValidProof(w, b, b.proofs[i]) <==> MemberProof(w, b, b.proofs[i]) {
      ValidProofExactly(w, b, b.proofs[i]);
    }
    IdsAreDistinct(b.proofs);
  }

  lemma MembersAreDistinct(w: Wire, update: Bytes)
    requires Sound(w) && DecodeMultisignatureUpdate(w, update).Some?
    ensures DistinctSigners(DecodeMultisignatureUpdate(w, update).value.auth.value.signers)
  {
  }

  lemma IdsAreDistinct(ps: seq<DetachedProof>)
    ensures DistinctBy(ps, ProofId) <==> forall i, j :: 0 <= i < j < |ps| ==> ps[i].id != ps[j].id
  {
    if DistinctBy(ps, ProofId) {
      forall i, j | 0 <= i < j < |ps| ensures ps[i].id != ps[j].id {
        assert ProofId(ps[i]) != ProofId(ps[j]);
      }
    }
  }

  function Draft(update: Bytes): MultisignatureBundle {
    MultisignatureBundle(update, [])
  }

  /** The bundle of an update and the proofs collected for it, whatever their order. */
  function Assembled(update: Bytes, ps: seq<DetachedProof>): MultisignatureBundle {
    MultisignatureBundle(update, Sort(ps, ProofId))
  }

  lemma AssembledIsCollected(w: Wire, update: Bytes, ps: seq<DetachedProof>)
    requires UsesCodec(w) && DecodeMultisignatureUpdate(w, update).Some? && Mergeable(w, Draft(update), ps)
    ensures Constructed(w, Assembled(update, ps)) && Collected(w, Assembled(update, ps))
  {
    hide Sort, ValidUtf8, KeyOf;
    var b := Assembled(update, ps);
    SortSorts(ps, ProofId);
    DistinctIsUnordered(ps, b.proofs, ProofId);
    forall i | 0 <= i < |b.proofs| ensures b.proofs[i].id != [] && ValidProof(w, b, b.proofs[i]) {
      assert b.proofs[i] in multiset(ps);
      ValidProofIsGood(w, b, b.proofs[i]);
    }
  }

  lemma AssembledRoundTrip(w: Wire, update: Bytes, ps: seq<DetachedProof>)
    requires Sound(w) && UsesCodec(w) && |update| < WORD
    requires DecodeMultisignatureUpdate(w, update).Some? && Mergeable(w, Draft(update), ps)
    ensures var b := Assembled(update, ps); ToCbor(w, b).Some? && FromCbor(w, ToCbor(w, b).value) == Some(b)
  {
    hide ToCbor, FromCbor, ProofHolds, Sort, Mergeable;
    var b := Assembled(update, ps);
    AssembledIsCollected(w, update, ps);
    CollectedSerializes(w, b);
    assert forall i :: 0 <= i < |b.proofs| ==> ValidProof(w, b, b.proofs[i]);
    BundleRoundTrip(w, b, ToCbor(w, b).value);
  }

  /**
   Collecting valid proofs of distinct members for a drafted update never fails; in any order
   of arrival the bundle is the same, it survives serialisation, and once there is a quorum it
   finalises to those very bytes.
   */
  lemma CollectingIsConfluent(w: Wire, update: Bytes, ps: seq<DetachedProof>, qs: seq<DetachedProof>)
    requires Sound(w) && UsesCodec(w) && |update| < WORD
    requires DecodeMultisignatureUpdate(w, update).Some? && Mergeable(w, Draft(update), ps)
    requires multiset(ps) == multiset(qs)
    ensures MergeAll(w, Draft(update), ps) == MergeAll(w, Draft(update), qs) == Some(Assembled(update, ps))
    ensures var b := Assembled(update, ps);
            && ToCbor(w, b).Some? && FromCbor(w, ToCbor(w, b).value) == Some(b)
            && (AuthorizationOf(w, b).operation != UPGRADE && |ps| >= AuthorizationOf(w, b).threshold ==>
                  Finalize(w, b) == ToCbor(w, b))
  {
    hide MergeAll, ToCbor, FromCbor, Mergeable, Collected, Sort, DecodeMultisignatureUpdate;
    MergingIsConfluent(w, Draft(update), ps, qs);
    MergeAllIsOneSort(w, Draft(update), ps);
    assert [] + ps == ps;
    AssembledIsCollected(w, update, ps);
    AssembledRoundTrip(w, update, ps);
  }

  /** A finalised Provider envelope that the overwrite check accepted reads back unchanged. */
  lemma FinalizedProviderReadsBack(
    w: Wire, k: Bytes, b: MultisignatureBundle, e: Bytes, existing: Option<Bytes>, r: ProviderResult)
    requires Sound(w) && UsesCodec(w) && Constructed(w, b) && Finalize(w, b) == Some(e)
    requires ProviderOverwrite(w, k, e, existing) == Some(r)
    ensures ProviderGet(w, k, e, existing) == Some(r)
  {
    hide ProviderOverwrite, ProviderGet, Finalize, ThresholdProofs;
    ProviderWriteReadAgree(w, k, e, existing, r);
    if InstallsSigners(w, e) {
      FinalizedIsSound(w, b, e, DecodeCandidate(w, e).value);
    }
  }
}
