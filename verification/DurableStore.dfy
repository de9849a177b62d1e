/** durable_store.py: the accepted-state store, and what a sequence of installs leaves behind. */
module DurableStore {
  import opened Basics
  import opened Schema

  datatype Kind = ProviderRecords | IdentityRecords

  /** A value of the "accepted" database, decoded; Other is whatever an older store left there. */
  datatype Stored = Metadata(seqNo: nat, hash: Bytes) | HistoryList(items: seq<Bytes>) | Other

  datatype Meta = NoMeta | Meta(seqNo: nat, hash: Bytes) | BadMeta

  /** All that is stored under one record key of one kind. */
  datatype Slot = Slot(head: Option<Bytes>, meta: Meta, history: Option<seq<Bytes>>)

  const EMPTY_SLOT := Slot(None, NoMeta, None)

  /** The sequence number inside an envelope, read without validating it. */
  function LooseSeqOf(w: Wire, e: Bytes): Option<nat> {
    match w.looseUpdate(e) case None => None case Some(u) => w.looseSeq(u)
  }

  function CurrentSeq(w: Wire, slot: Slot): Option<nat>
    requires slot.head.Some?
  {
    if slot.meta.Meta? then Some(slot.meta.seqNo) else LooseSeqOf(w, slot.head.value)
  }

  predicate Accepts(w: Wire, slot: Slot, seqNo: nat) {
    match slot.head
    case Some(_) => CurrentSeq(w, slot).Some? && seqNo > CurrentSeq(w, slot).value
    case None => slot.meta.NoMeta?
  }

  /** put_if_newer on one slot. */
  function Install(w: Wire, slot: Slot, value: Bytes, seqNo: nat, hash: Bytes, history: Option<seq<Bytes>>): Slot {
    if Accepts(w, slot, seqNo) then Slot(Some(value), Meta(seqNo, hash), history) else slot
  }

  // ---------- the keys of the "accepted" database ----------

  function KindName(kind: Kind): Bytes {
    match kind
    case ProviderRecords => [0x70, 0x72, 0x6F, 0x76, 0x69, 0x64, 0x65, 0x72]
    case IdentityRecords => [0x69, 0x64, 0x65, 0x6E, 0x74, 0x69, 0x74, 0x79]
  }

  /** The source writes the four characters of an escaped NUL between kind and key. */
  const SEPARATOR: Bytes := [0x5C, 0x78, 0x30, 0x30]

  const HISTORY_PREFIX: Bytes := [0x68, 0x69, 0x73, 0x74, 0x6F, 0x72, 0x79, 0x3A]

  function MetadataKey(kind: Kind, key: Bytes): Bytes {
    KindName(kind) + SEPARATOR + key
  }

  function HistoryKey(kind: Kind, key: Bytes): Bytes {
    HISTORY_PREFIX + MetadataKey(kind, key)
  }

  /** No two entries of the shared database collide. */
  lemma KeysAreDisjoint(kind: Kind, key: Bytes, kind': Kind, key': Bytes)
    ensures MetadataKey(kind, key) == MetadataKey(kind', key') <==> kind == kind' && key == key'
    ensures HistoryKey(kind, key) == HistoryKey(kind', key') <==> kind == kind' && key == key'
    ensures MetadataKey(kind, key) != HistoryKey(kind', key')
  {
    var a, b := MetadataKey(kind, key), MetadataKey(kind', key');
    assert a[12..] == key && b[12..] == key';
    assert a[0] == KindName(kind)[0] && b[0] == KindName(kind')[0];
    assert HistoryKey(kind, key)[8..] == a && HistoryKey(kind', key')[8..] == b;
    assert HistoryKey(kind', key')[0] == 0x68;
  }

  class LmdbDatastore {
    const w: Wire
    var provider: map<Bytes, Bytes>
    var identity: map<Bytes, Bytes>
    var accepted: map<Bytes, Stored>

    constructor (w: Wire)
      ensures this.w == w
      ensures forall kind, key :: SlotOf(kind, key) == EMPTY_SLOT
    {
      this.w := w;
      provider, identity, accepted := map[], map[], map[];
    }

    function Heads(kind: Kind): map<Bytes, Bytes>
      reads this
    {
      if kind == ProviderRecords then provider else identity
    }

    function SlotOf(kind: Kind, key: Bytes): Slot
      reads this
    {
      var m, h := MetadataKey(kind, key), HistoryKey(kind, key);
      Slot(
        if key in Heads(kind) then Some(Heads(kind)[key]) else None,
        if m !in accepted then NoMeta
        else if accepted[m].Metadata? then Meta(accepted[m].seqNo, accepted[m].hash)
        else BadMeta,
        if h in accepted && accepted[h].HistoryList? && accepted[h].items != [] then Some(accepted[h].items)
        else None)
    }

    method Get(kind: Kind, key: Bytes) returns (r: Option<Bytes>)
      ensures r == SlotOf(kind, key).head
    {
      var db := if kind == ProviderRecords then provider else identity;
      r := if key in db then Some(db[key]) else None;
    }

    method GetHistory(kind: Kind, key: Bytes) returns (r: Option<seq<Bytes>>)
      ensures r == SlotOf(kind, key).history
    {
      var h := HistoryKey(kind, key);
      if h !in accepted { return None; }
      match accepted[h]
      case HistoryList(items) => r := if items == [] then None else Some(items);
      case _ => r := None;
    }

    /**
     One write transaction.  None is a refused argument; Some(false) leaves everything as it was.
     Every other record key, of either kind, keeps its slot.
     */
    method PutIfNewer(
      kind: Kind, key: Bytes, value: Bytes, seqNo: nat, hash: Bytes, history: Option<seq<Bytes>>)
      returns (r: Option<bool>)
      modifies this
      ensures r.None? <==> |hash| != 32 || history == Some([])
      ensures r.Some? ==> r.value == Accepts(w, old(SlotOf(kind, key)), seqNo)
      ensures SlotOf(kind, key) == if r.None? then old(SlotOf(kind, key))
                                   else Install(w, old(SlotOf(kind, key)), value, seqNo, hash, history)
      ensures forall kind', key' :: (kind', key') != (kind, key) ==> SlotOf(kind', key') == old(SlotOf(kind', key'))
    {
      if |hash| != 32 || history == Some([]) { return None; }
      var db := if kind == ProviderRecords then provider else identity;
      var m, h := MetadataKey(kind, key), HistoryKey(kind, key);
      if key in db {
        var currentSeq: Option<nat> := None;
        if m in accepted {
          match accepted[m]
          case Metadata(n, _) => currentSeq := Some(n);
          case _ =>
        }
        if currentSeq.None? { currentSeq := LooseSeqOf(w, db[key]); }
        if currentSeq.None? || seqNo <= currentSeq.value { return Some(false); }
      } else if m in accepted {
        return Some(false);
      }
      Write(kind, key, value, seqNo, hash, history);
      r := Some(true);
    }

    /** The three writes of an accepted transaction. */
    method Write(kind: Kind, key: Bytes, value: Bytes, seqNo: nat, hash: Bytes, history: Option<seq<Bytes>>)
      requires history != Some([])
      modifies this
      ensures SlotOf(kind, key) == Slot(Some(value), Meta(seqNo, hash), history)
      ensures forall kind', key' :: (kind', key') != (kind, key) ==> SlotOf(kind', key') == old(SlotOf(kind', key'))
    {
      var m, h := MetadataKey(kind, key), HistoryKey(kind, key);
      KeysAreDisjoint(kind, key, kind, key);
      if kind == ProviderRecords { provider := provider[key := value]; }
      else { identity := identity[key := value]; }
      accepted := accepted[m := Metadata(seqNo, hash)];
      match history {
        case None => accepted := accepted - {h};
        case Some(items) => accepted := accepted[h := HistoryList(items)];
      }
      forall kind', key' | (kind', key') != (kind, key) ensures SlotOf(kind', key') == old(SlotOf(kind', key')) {
        KeysAreDisjoint(kind, key, kind', key');
        KeysAreDisjoint(kind', key', kind, key);
      }
    }
  }

  // ---------- sequences of installs ----------

  datatype Put = Put(value: Bytes, seqNo: nat, hash: Bytes, history: Option<seq<Bytes>>)

  function SlotAfter(p: Put): Slot {
    Slot(Some(p.value), Meta(p.seqNo, p.hash), p.history)
  }

  function InstallAll(w: Wire, slot: Slot, ps: seq<Put>): Slot {
    if ps == [] then slot
    else
      var p := ps[|ps| - 1];
      Install(w, InstallAll(w, slot, ps[..|ps| - 1]), p.value, p.seqNo, p.hash, p.history)
  }

  /** Index i holds the first put with the largest sequence number. */
  ghost predicate FirstNewest(ps: seq<Put>, i: nat) {
    && i < |ps|
    && (forall j :: 0 <= j < |ps| ==> ps[j].seqNo <= ps[i].seqNo)
    && (forall j :: 0 <= j < i ==> ps[j].seqNo < ps[i].seqNo)
  }

  /** Whatever the order of calls, an empty slot ends with the first call of maximal seq. */
  lemma {:induction false} NewestWins(w: Wire, ps: seq<Put>, i: nat)
    requires FirstNewest(ps, i)
    ensures InstallAll(w, EMPTY_SLOT, ps) == SlotAfter(ps[i])
  {
    var n := |ps| - 1;
    if n == 0 {
    } else {
      var j := NewestOf(ps[..n]);
      NewestWins(w, ps[..n], j);
    }
  }

  /** The seq a stored head was accepted with: its metadata's, or in a store older than metadata its own. */
  ghost predicate AcceptedWith(w: Wire, slot: Slot, n: nat) {
    slot.head.Some? && match slot.meta
                       case Meta(seqNo, _) => n == seqNo
                       case _ => LooseSeqOf(w, slot.head.value) == Some(n)
  }

  /**
   Over a slot that already holds a head, the first call of maximal seq wins if it is newer than
   the head, and otherwise nothing changes; a head whose seq cannot be told, or metadata without a
   head, is never replaced.
   */
  lemma {:induction false} NewestWinsOver(w: Wire, slot: Slot, ps: seq<Put>, i: nat)
    requires FirstNewest(ps, i)
    ensures forall n :: AcceptedWith(w, slot, n) ==>
              InstallAll(w, slot, ps) == if ps[i].seqNo > n then SlotAfter(ps[i]) else slot
    ensures slot.head.Some? && !slot.meta.Meta? && LooseSeqOf(w, slot.head.value).None? ==>
              InstallAll(w, slot, ps) == slot
    ensures slot.head.None? && slot.meta != NoMeta ==> InstallAll(w, slot, ps) == slot
  {
    var n := |ps| - 1;
    if n == 0 {
    } else {
      var j := NewestOf(ps[..n]);
      NewestWinsOver(w, slot, ps[..n], j);
    }
  }

  lemma {:induction false} NewestOf(ps: seq<Put>) returns (i: nat)
    requires ps != []
    ensures FirstNewest(ps, i)
  {
    if |ps| == 1 {
      i := 0;
    } else {
      var n := |ps| - 1;
      i := NewestOf(ps[..n]);
      assert forall j :: 0 <= j < n ==> ps[..n][j] == ps[j];
      if ps[n].seqNo > ps[i].seqNo { i := n; }
    }
  }

  /** Calls with distinct sequence numbers converge under any reordering. */
  lemma ReorderingConverges(w: Wire, ps: seq<Put>, qs: seq<Put>)
    requires multiset(ps) == multiset(qs)
    requires forall i, j :: 0 <= i < j < |ps| ==> ps[i].seqNo != ps[j].seqNo
    ensures InstallAll(w, EMPTY_SLOT, ps) == InstallAll(w, EMPTY_SLOT, qs)
  {
    assert |multiset(ps)| == |ps| && |multiset(qs)| == |qs|;
    if ps != [] {
      var i := NewestOf(ps);
      var j := NewestOf(qs);
      NewestWins(w, ps, i);
      NewestWins(w, qs, j);
      assert ps[i] in multiset(qs) && qs[j] in multiset(ps);
      var a :| 0 <= a < |ps| && ps[a] == qs[j];
      var b :| 0 <= b < |qs| && qs[b] == ps[i];
    }
  }
}
