/** Choosing between envelopes: `_select_newest_envelope`, and the DHT validator's `select`. */
module DhtValues {
  import opened Basics
  import opened Cbor
  import opened Schema
  import opened Lineage
  import opened RecordValidator
  import opened DurableStore

  /** Some(None) is "no envelope"; None is the conflict error.  The second argument wins ties. */
  function SelectNewest(w: Wire, first: Option<Bytes>, second: Option<Bytes>): Option<Option<Bytes>> {
    if first.None? then Some(second)
    else if second.None? || first == second then Some(first)
    else
      var a, b := LooseSeqOf(w, first.value), LooseSeqOf(w, second.value);
      if a.None? then Some(second)
      else if b.None? then Some(first)
      else if a == b then
        if w.looseUpdate(first.value) == w.looseUpdate(second.value) then Some(second) else None
      else Some(if a.value > b.value then first else second)
  }

  predicate NotBelow(w: Wire, e: Bytes, seqNo: nat) {
    LooseSeqOf(w, e).Some? && LooseSeqOf(w, e).value >= seqNo
  }

  /**
   What is selected of two values is one of them, and no older than either that parses.  A value
   that parses beats one that does not; of two with different seqs the larger is selected on
   either side; two forms of one state give the second, and two states of one seq are a conflict.
   */
  lemma SelectsTheNewest(w: Wire, a: Bytes, b: Bytes)
    ensures var r, m, n := SelectNewest(w, Some(a), Some(b)), LooseSeqOf(w, a), LooseSeqOf(w, b);
            && (r.Some? ==> r.value == Some(a) || r.value == Some(b))
            && (r.Some? && m.Some? ==> NotBelow(w, r.value.value, m.value))
            && (r.Some? && n.Some? ==> NotBelow(w, r.value.value, n.value))
            && (r.None? <==> m.Some? && m == n && w.looseUpdate(a) != w.looseUpdate(b))
            && (m == n && r.Some? && a != b ==> r.value == Some(b))
    ensures SelectNewest(w, Some(a), Some(b)).None? <==> SelectNewest(w, Some(b), Some(a)).None?
    ensures LooseSeqOf(w, a) != LooseSeqOf(w, b) ==>
              SelectNewest(w, Some(a), Some(b)) == SelectNewest(w, Some(b), Some(a))
    ensures SelectNewest(w, Some(a), None) == SelectNewest(w, None, Some(a)) == Some(Some(a))
  {
  }

  /** A parseable accepted head gives way only to something strictly newer. */
  lemma NewestIsNotOlder(w: Wire, first: Option<Bytes>, local: Bytes)
    requires LooseSeqOf(w, local).Some? && SelectNewest(w, first, Some(local)).Some?
    ensures var r := SelectNewest(w, first, Some(local)).value;
            && r.Some? && LooseSeqOf(w, r.value).Some?
            && LooseSeqOf(w, r.value).value >= LooseSeqOf(w, local).value
            && (r == first || r == Some(local))
            && (r != Some(local) ==> LooseSeqOf(w, r.value).value > LooseSeqOf(w, local).value)
  {
  }

  /** `_identity_predecessor_state_hash`: None where it raises, Some(None) at an anchor. */
  function PredecessorHash(w: Wire, e: Bytes): Option<Option<Bytes>> {
    match w.looseUpdate(e)
    case None => None
    case Some(b) =>
      match w.signedUpdate(b)
      case None => None
      case Some(u) =>
        if u.auth.None? || u.auth.value.operation == GENESIS then Some(None)
        else Some(Some(u.auth.value.predecessor))
  }

  function StateHash(w: Wire, e: Bytes): Option<Bytes> {
    match w.looseUpdate(e) case None => None case Some(u) => Some(w.sha256(u))
  }

  /** Sequence number and state hash of a DHT value under its key; None where it is refused. */
  function ValueMetadata(w: Wire, kind: Kind, key: Bytes, value: Bytes): Option<(nat, Bytes)> {
    var update :=
      if w.isMultisignature(value) then
        (match w.multisignature(value) case None => None case Some(e) => Some(e.update))
      else (match w.legacy(value) case None => None case Some(e) => Some(e.update));
    match update
    case None => None
    case Some(b) =>
      match w.signedUpdate(b)
      case None => None
      case Some(u) =>
        var named :=
          if kind == IdentityRecords then
            (match BytesOf(Lookup(u.fields, 1)) case None => None case Some(name) => Some(w.sha256(name)))
          else (match w.providerPayload(u.payload) case None => None case Some(p) => FromHex(p.objectHash));
        var expected := if kind == IdentityRecords then IDENTITY else PROVIDER;
        if named != Some(key) || (u.auth.Some? && u.auth.value.kind != expected) then None
        else Some((u.seqNo, w.sha256(b)))
  }

  /** A value that names this key, under the record kind of the key. */
  predicate NamesKey(w: Wire, kind: Kind, key: Bytes, value: Bytes) {
    && (w.multisignature(value).Some? || w.legacy(value).Some?) && BodyOf(w, value).Some?
    && var u := BodyOf(w, value).value;
       match kind
       case IdentityRecords =>
         BoundTo(w, key, u) && (u.auth.Some? ==> u.auth.value.kind == IDENTITY)
       case ProviderRecords =>
         && w.providerPayload(u.payload).Some? && FromHex(w.providerPayload(u.payload).value.objectHash) == Some(key)
         && (u.auth.Some? ==> u.auth.value.kind == PROVIDER)
  }

  /** Values are compared by their own seq and state hash, and refused exactly if they do not name the key. */
  lemma MetadataExactly(w: Wire, kind: Kind, key: Bytes, value: Bytes)
    requires Sound(w)
    ensures ValueMetadata(w, kind, key, value) ==
            if NamesKey(w, kind, key, value) then Some((SeqAt(w, value), w.sha256(UpdateAt(w, value)))) else None
  {
    hide FromHex;
  }

  /** The stored history, if it ends at this value. */
  function HistoryEndingAt(history: Option<seq<Bytes>>, value: Option<Bytes>): Option<seq<Bytes>> {
    if history.Some? && value.Some? && EndsAt(history.value, value.value) then history else None
  }

  // ---------- select ----------

  /** Index j holds the first value with the largest seq among ms[..n]. */
  ghost predicate FirstHighest(ms: seq<(nat, Bytes)>, n: nat, j: nat) {
    && j < n <= |ms|
    && (forall i :: 0 <= i < n ==> ms[i].0 <= ms[j].0)
    && (forall i :: 0 <= i < j ==> ms[i].0 < ms[j].0)
  }

  /** Value l ties the highest seq seen before it with another state. */
  ghost predicate ConflictAt(ms: seq<(nat, Bytes)>, l: nat) {
    0 < l < |ms| && exists j: nat :: FirstHighest(ms, l, j) && ms[j].0 == ms[l].0 && ms[j].1 != ms[l].1
  }

  /** Every value at the highest seq of ms[..n] names one state. */
  ghost predicate OneState(ms: seq<(nat, Bytes)>, n: nat, j: nat) {
    j < n <= |ms| && forall i :: 0 <= i < n && ms[i].0 == ms[j].0 ==> ms[i].1 == ms[j].1
  }

  ghost predicate WellFormedValue(w: Wire, kind: Kind, key: Bytes, value: Bytes) {
    ValueMetadata(w, kind, key, value).Some?
  }

  /** The metadata of each value; meaningless at a value that is refused. */
  ghost function AllMetadata(w: Wire, kind: Kind, key: Bytes, values: seq<Bytes>): (r: seq<(nat, Bytes)>)
    ensures |r| == |values|
    ensures forall i :: 0 <= i < |r| && WellFormedValue(w, kind, key, values[i]) ==>
              Some(r[i]) == ValueMetadata(w, kind, key, values[i])
  {
    seq(|values|, i requires 0 <= i < |values| =>
      match ValueMetadata(w, kind, key, values[i]) case Some(m) => m case None => (0, []))
  }

  /**
   The DHT validator's `select`.  It picks the first value of maximal seq, and all values of that
   seq are one state; on well-formed values it fails exactly when some value ties the highest
   seq before it with a different state hash.
   */
  method Select(w: Wire, kind: Kind, key: Bytes, values: seq<Bytes>) returns (r: Option<nat>)
    ensures r.Some? ==>
              && (forall i :: 0 <= i < |values| ==> WellFormedValue(w, kind, key, values[i]))
              && FirstHighest(AllMetadata(w, kind, key, values), |values|, r.value)
              && OneState(AllMetadata(w, kind, key, values), |values|, r.value)
    ensures (forall i :: 0 <= i < |values| ==> WellFormedValue(w, kind, key, values[i])) ==>
              (r.None? <==> values == [] || exists l: nat :: ConflictAt(AllMetadata(w, kind, key, values), l))
  {
    hide ValueMetadata, AllMetadata;
    if values == [] { return None; }
    ghost var ms := AllMetadata(w, kind, key, values);
    var first := ValueMetadata(w, kind, key, values[0]);
    if first.None? { return None; }
    var best, bestSeq, bestHash := 0, first.value.0, first.value.1;
    for l := 1 to |values|
      invariant FirstHighest(ms, l, best) && OneState(ms, l, best) && ms[best] == (bestSeq, bestHash)
      invariant forall i :: 0 <= i < l ==> WellFormedValue(w, kind, key, values[i])
      invariant forall i :: 0 <= i < l ==> !ConflictAt(ms, i)
    {
      var m := ValueMetadata(w, kind, key, values[l]);
      if m.None? { return None; }
      var (seqNo, hash) := m.value;
      forall j: nat | FirstHighest(ms, l, j) ensures j == best {
        assert j < best || best < j || j == best;
      }
      if seqNo > bestSeq {
        best, bestSeq, bestHash := l, seqNo, hash;
      } else if seqNo == bestSeq && hash != bestHash {
        assert ConflictAt(ms, l);
        return None;
      }
    }
    r := Some(best);
  }

  /** So on well-formed values a failure means two of them share a seq and differ in state. */
  lemma ConflictIsATie(ms: seq<(nat, Bytes)>, l: nat)
    requires ConflictAt(ms, l)
    ensures exists i, j :: 0 <= i < j < |ms| && ms[i].0 == ms[j].0 && ms[i].1 != ms[j].1
  {
    var j: nat :| FirstHighest(ms, l, j) && ms[j].0 == ms[l].0 && ms[j].1 != ms[l].1;
    assert 0 <= j < l < |ms|;
  }
}
