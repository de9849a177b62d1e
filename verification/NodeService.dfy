/**
 What a node must do, beyond what it must not: when a write, an incoming PUT, a read or a
 confirmation succeeds, what it returns and what it leaves in the store.
 */
module NodeService {
  import opened Basics
  import opened Schema
  import opened Verification
  import opened Lineage
  import opened RecordValidator
  import opened Acceptance
  import opened DurableStore
  import opened DhtValues
  import opened NodeProtocol
  import opened StoredHistories

  // ---------- the next state of a slot ----------

  /** The chain behind a multisignature head. */
  function ChainOf(w: Wire, slot: Slot): Option<seq<Bytes>> {
    if slot.head.Some? && w.isMultisignature(slot.head.value) then Some(Provenance(slot)) else None
  }

  /** An envelope that may be written over the head of this slot. */
  ghost predicate MayFollow(w: Wire, k: Bytes, slot: Slot, e: Bytes) {
    Writable(w, k, e, slot.head, ChainOf(w, slot))
  }

  /** The slot such a write leaves. */
  function SlotWith(w: Wire, slot: Slot, e: Bytes): Slot {
    NewSlot(w, e, WriteHistory(w, e, slot.head, ChainOf(w, slot)))
  }

  lemma NextIsNewer(w: Wire, k: Bytes, slot: Slot, e: Bytes)
    requires Sound(w) && SlotOk(w, k, slot) && MayFollow(w, k, slot, e)
    ensures Accepts(w, slot, SeqAt(w, e)) && slot.head != Some(e)
  {
    hide GoodHistory, UpgradeRecord, IdentityOverwrite, HeadProvenance, Verifies, IdentityRecord;
    IdentityWriteExactly(w, k, e, slot.head, ChainOf(w, slot));
    if slot.head.Some? {
      var x := slot.head.value;
      if w.isMultisignature(e) {
        OverwriteRaisesSeq(w, k, e, x, ChainOf(w, slot));
      } else {
        LegacyHeadIsSigned(w, k, slot);
      }
    }
  }

  lemma LegacyHeadIsSigned(w: Wire, k: Bytes, slot: Slot)
    requires Sound(w) && SlotOk(w, k, slot) && slot.head.Some? && !w.isMultisignature(slot.head.value)
    ensures LegacyRecord(w, k, slot.head.value, IDENTITY) && OwnerAt(w, slot.head.value).Some?
    ensures LooseSeqOf(w, slot.head.value) == Some(SeqAt(w, slot.head.value))
  {
    IdentityReadExactly(w, k, slot.head.value, None);
  }

  // ---------- writes ----------

  /** The lock released, nothing else changed. */
  function Unlocked(n: Node): Node {
    Node(n.slots, None, n.receipts, n.answers)
  }

  /** A write returned. */
  function Completed(n: Node, wr: Write, existing: Option<Bytes>): Node {
    Node(n.slots, None, n.receipts + [Receipt(wr, existing)], n.answers)
  }

  /** One slot replaced. */
  function With(n: Node, k: Bytes, slot: Slot): Node {
    Node(n.slots[k := slot], n.pending, n.receipts, n.answers)
  }

  /** The state a conditional write names is the one it is judged against; an unconditional one names none. */
  predicate Expects(w: Wire, wr: Write, existing: Option<Bytes>) {
    match wr.expected
    case None => true
    case Some(hash) =>
      existing.Some? && w.looseUpdate(existing.value).Some? && w.sha256(UpdateAt(w, existing.value)) == hash
  }

  /** The node once a write has been read for, walked for if need be, and published. */
  function AfterWrite(
    w: Wire, n: Node, raw: Option<Bytes>, failed: bool, found: Option<seq<Bytes>>): Node
  {
    var read := Step(w, n, AnswerRead(raw, failed, false));
    var walked := match read.pending
                  case Some(WriteWalking(_, _)) => Step(w, read, AnswerWalk(found, false))
                  case _ => read;
    Step(w, walked, AnswerPublish(true))
  }

  /** The chain a write is judged with: the stored one, if it ends at the value written over, or the one found. */
  function ChainBehind(slot: Slot, existing: Option<Bytes>, found: Option<seq<Bytes>>): Option<seq<Bytes>> {
    if existing.None? then None
    else if slot.history.Some? && EndsAt(slot.history.value, existing.value) then slot.history
    else found
  }

  /** A multisignature state that is not a genesis: without its history nothing is written over it. */
  predicate NamesPredecessor(w: Wire, e: Bytes) {
    BodyOf(w, e).Some? && BodyOf(w, e).value.auth.Some? && BodyOf(w, e).value.auth.value.operation != GENESIS
  }

  /** A single-key write where nothing known is multisignature. */
  predicate SingleKeyOnly(w: Wire, slot: Slot, dht: Option<Bytes>, e: Bytes) {
    !w.isMultisignature(e) && !IsMultisignature(w, dht) && !IsMultisignature(w, slot.head)
  }

  /** The slot an accepted envelope leaves: itself, its own seq and hash, and the history that ends at it. */
  function NewSlot(w: Wire, e: Bytes, history: seq<Bytes>): Slot {
    Slot(Some(e), Meta(SeqAt(w, e), w.sha256(UpdateAt(w, e))), if w.isMultisignature(e) then Some(history) else None)
  }

  /** What the node comes to when a write over `existing`, judged with `chain`, has been published. */
  ghost function Accepted(
    w: Wire, n: Node, wr: Write, existing: Option<Bytes>, chain: Option<seq<Bytes>>, install: bool): Node
  {
    var slot, e := SlotAt(n, wr.key), wr.envelope;
    if !Writable(w, wr.key, e, existing, chain) then Unlocked(n)
    else if !install || slot.head == Some(e) then Completed(n, wr, existing)
    else if Accepts(w, slot, SeqAt(w, e))
    then Completed(With(n, wr.key, NewSlot(w, e, WriteHistory(w, e, existing, chain))), wr, existing)
    else Unlocked(n)
  }

  /**
   What a write comes to, given what the DHT answered and what a walk would find.  A multisignature
   envelope is installed; a single-key one only where nothing known is multisignature.
   */
  ghost function Outcome(
    w: Wire, n: Node, wr: Write, dht: Option<Bytes>, existing: Option<Bytes>, found: Option<seq<Bytes>>): Node
  {
    var slot := SlotAt(n, wr.key);
    var chain := ChainBehind(slot, existing, found);
    if SingleKeyOnly(w, slot, dht, wr.envelope) then Accepted(w, n, wr, existing, None, true)
    else if existing.Some? && chain.None? && NamesPredecessor(w, existing.value) then Unlocked(n)
    else Accepted(w, n, wr, existing, chain, w.isMultisignature(wr.envelope))
  }

  lemma InstallExactly(w: Wire, k: Bytes, slot: Slot, e: Bytes, existing: Option<Bytes>, chain: Option<seq<Bytes>>)
    requires Sound(w) && SlotOk(w, k, slot) && Writable(w, k, e, existing, chain)
    requires BodyOf(w, e).Some? && OwnerName(BodyOf(w, e).value).Some? && OwnerKey(BodyOf(w, e).value).Some?
    ensures var h := WriteHistory(w, e, existing, chain);
            DurableInstall(w, slot, e, IdentityRecord(w, k, e, h)) ==
            if slot.head == Some(e) then Some(slot)
            else if Accepts(w, slot, SeqAt(w, e)) then Some(NewSlot(w, e, h)) else None
  {
    hide Accepts, GoodHistory, UpgradeRecord, SlotOk, Verifies;
    if w.isMultisignature(e) { WrittenIsIdentity(w, k, e, existing, chain); }
  }

  lemma WrittenIsIdentity(w: Wire, k: Bytes, e: Bytes, existing: Option<Bytes>, chain: Option<seq<Bytes>>)
    requires Sound(w) && Writable(w, k, e, existing, chain) && w.isMultisignature(e)
    ensures Authorized(w, e) && AuthAt(w, e).kind == IDENTITY
  {
    hide GoodHistory;
    var h := WriteHistory(w, e, existing, chain);
    if GoodHistory(w, k, h) { GoodHistoryHead(w, k, h); }
  }

  lemma SameHead(w: Wire, n: Node, k: Bytes)
    requires SlotAt(n, k).head.Some?
    ensures With(n, k, SlotAt(n, k)) == n
  {
  }

  lemma ExpectsExactly(w: Wire, wr: Write, existing: Option<Bytes>)
    ensures PreconditionHolds(w, wr, existing) <==> Expects(w, wr, existing)
    ensures wr.expected.None? ==> Expects(w, wr, existing)
  {
  }

  lemma PublishedWrite(
    w: Wire, n: Node, wr: Write, existing: Option<Bytes>, chain: Option<seq<Bytes>>, install: bool)
    requires Sound(w) && SlotOk(w, wr.key, SlotAt(n, wr.key)) && Writable(w, wr.key, wr.envelope, existing, chain)
    ensures Step(w, n.(pending := Some(Publishing(wr, existing, chain, install))), AnswerPublish(true))
            == Accepted(w, n, wr, existing, chain, install)
  {
    hide SlotOk, Writable, IdentityOverwrite, IdentityRecord, DurableInstall, NewSlot, Accepts;
    IdentityWriteExactly(w, wr.key, wr.envelope, existing, chain);
    InstallExactly(w, wr.key, SlotAt(n, wr.key), wr.envelope, existing, chain);
    if SlotAt(n, wr.key).head == Some(wr.envelope) { SameHead(w, n, wr.key); }
  }

  lemma ValidatedWrite(w: Wire, n: Node, wr: Write, existing: Option<Bytes>, chain: Option<seq<Bytes>>)
    requires Sound(w) && SlotOk(w, wr.key, SlotAt(n, wr.key))
    ensures Step(w, WriteValidated(w, n, wr, existing, chain, false), AnswerPublish(true))
            == Accepted(w, n, wr, existing, chain, w.isMultisignature(wr.envelope))
    ensures var p := WriteValidated(w, n, wr, existing, chain, false).pending; p.Some? ==> p.value.Publishing?
  {
    hide SlotOk, Writable, IdentityOverwrite, IdentityRecord, DurableInstall, NewSlot, Accepts;
    var slot := SlotAt(n, wr.key);
    IdentityWriteExactly(w, wr.key, wr.envelope, existing, chain);
    if Writable(w, wr.key, wr.envelope, existing, chain) {
      InstallExactly(w, wr.key, slot, wr.envelope, existing, chain);
      PublishedWrite(w, n, wr, existing, chain, w.isMultisignature(wr.envelope));
      if slot.head == Some(wr.envelope) { SameHead(w, n, wr.key); }
    }
  }

  /** A single-key write over a single-key head is published first and installed after. */
  lemma SingleKeyWrite(
    w: Wire, n: Node, wr: Write, raw: Option<Bytes>, failed: bool, existing: Option<Bytes>, found: Option<seq<Bytes>>)
    requires Sound(w) && SlotOk(w, wr.key, SlotAt(n, wr.key)) && n.pending == Some(WriteReading(wr))
    requires SelectNewest(w, if failed then None else raw, SlotAt(n, wr.key).head) == Some(existing)
    requires wr.expected.Some? ==> !failed && Expects(w, wr, existing)
    requires SingleKeyOnly(w, SlotAt(n, wr.key), if failed then None else raw, wr.envelope)
    ensures AfterWrite(w, n, raw, failed, found) == Accepted(w, n, wr, existing, None, true)
  {
    hide SlotOk, Writable, IdentityOverwrite, IdentityRecord, SelectNewest, PreconditionHolds, Expects,
         WriteAfterPublish;
    ExpectsExactly(w, wr, existing);
    IdentityWriteExactly(w, wr.key, wr.envelope, existing, None);
    if Writable(w, wr.key, wr.envelope, existing, None) { PublishedWrite(w, n, wr, existing, None, true); }
  }

  /** A write that walks for the history of the value it is to be written over. */
  lemma WalkedWrite(w: Wire, n: Node, wr: Write, existing: Bytes, found: Option<seq<Bytes>>)
    requires Sound(w) && SlotOk(w, wr.key, SlotAt(n, wr.key)) && n.pending == Some(WriteWalking(wr, existing))
    ensures Step(w, Step(w, n, AnswerWalk(found, false)), AnswerPublish(true)) ==
            if found.None? && NamesPredecessor(w, existing) then Unlocked(n)
            else Accepted(w, n, wr, Some(existing), found, w.isMultisignature(wr.envelope))
  {
    hide Accepted, WriteValidated, SlotOk;
    ValidatedWrite(w, n, wr, Some(existing), found);
  }

  /**
   What a write comes to is exact, whatever the DHT answers and the walk finds: which writes return,
   which change the store and to what, and which leave everything as it was.
   */
  lemma WriteExactly(
    w: Wire, n: Node, wr: Write, raw: Option<Bytes>, failed: bool, existing: Option<Bytes>, found: Option<seq<Bytes>>)
    requires Sound(w) && StoreOk(w, n) && n.pending == Some(WriteReading(wr))
    requires SelectNewest(w, if failed then None else raw, SlotAt(n, wr.key).head) == Some(existing)
    requires wr.expected.Some? ==> !failed && Expects(w, wr, existing)
    ensures AfterWrite(w, n, raw, failed, found) == Outcome(w, n, wr, if failed then None else raw, existing, found)
  {
    hide SlotOk, Accepted, SelectNewest, WriteValidated, PreconditionHolds, Expects, StoreOk, IdentityOverwrite,
         NamesPredecessor;
    ExpectsExactly(w, wr, existing);
    var slot := SlotAt(n, wr.key);
    var chain := ChainBehind(slot, existing, None);
    SlotIsOk(w, n, wr.key);
    if SingleKeyOnly(w, slot, if failed then None else raw, wr.envelope) {
      SingleKeyWrite(w, n, wr, raw, failed, existing, found);
    } else if chain.None? && existing.Some? {
      var walking := n.(pending := Some(WriteWalking(wr, existing.value)));
      WalkedWrite(w, walking, wr, existing.value, found);
      SameAccepted(w, n, walking, wr, existing, found);
    } else {
      ValidatedWrite(w, n, wr, existing, chain);
    }
  }

  lemma SameAccepted(w: Wire, n: Node, n': Node, wr: Write, existing: Option<Bytes>, chain: Option<seq<Bytes>>)
    requires n' == n.(pending := n'.pending)
    ensures forall install ::
              Accepted(w, n', wr, existing, chain, install) == Accepted(w, n, wr, existing, chain, install)
  {
    hide Writable, Accepts, NewSlot;
  }

  /** The DHT knows nothing that is newer than the head. */
  predicate NothingNewer(w: Wire, slot: Slot, dht: Option<Bytes>) {
    SelectNewest(w, dht, slot.head) == Some(slot.head)
  }

  /** A head without a stored history names no predecessor. */
  lemma LoneHead(w: Wire, k: Bytes, slot: Slot)
    requires Sound(w) && SlotOk(w, k, slot) && slot.head.Some?
    requires slot.history.None? || !w.isMultisignature(slot.head.value)
    ensures !NamesPredecessor(w, slot.head.value)
  {
    hide LegacyRecord, GenesisRecord;
    var x := slot.head.value;
    if w.isMultisignature(x) {
      HistoryExactly(w, k, [x]);
      LoneEnvelope(w, k, x);
      AnchorKinds(w, k, x);
    } else {
      LegacyHeadIsSigned(w, k, slot);
      SignedIsSingleKey(w, k, x, IDENTITY);
    }
  }

  lemma SignedIsSingleKey(w: Wire, k: Bytes, x: Bytes, kind: nat)
    requires Sound(w) && LegacyRecord(w, k, x, kind)
    ensures BodyOf(w, x).Some? && BodyOf(w, x).value.auth.None? && !w.isMultisignature(x)
  {
  }

  /** With the stored chain or without it, the head is written over alike. */
  lemma OverHead(w: Wire, k: Bytes, slot: Slot, e: Bytes, chain: Option<seq<Bytes>>)
    requires SlotOk(w, k, slot)
    requires chain == ChainBehind(slot, slot.head, None) || ChainOf(w, slot).None?
    ensures Writable(w, k, e, slot.head, chain) == MayFollow(w, k, slot, e)
    ensures WriteHistory(w, e, slot.head, chain) == WriteHistory(w, e, slot.head, ChainOf(w, slot))
  {
    hide GoodHistory, LegacyRecord, UpgradeRecord, FollowsLegacy;
    if slot.head.Some? { assert [slot.head.value] + [e] == [slot.head.value, e]; }
  }

  /**
   A write that nothing newer disturbs returns if and only if its envelope may follow the head, and
   then leaves precisely that envelope, its seq, its hash and the history ending at it; otherwise
   it leaves everything as it was.  Conditional or not, with or without a DHT.
   */
  lemma UndisturbedWrite(w: Wire, n: Node, wr: Write, raw: Option<Bytes>, failed: bool)
    requires Sound(w) && StoreOk(w, n) && n.pending == Some(WriteReading(wr))
    requires NothingNewer(w, SlotAt(n, wr.key), if failed then None else raw)
    requires || w.isMultisignature(wr.envelope) || IsMultisignature(w, SlotAt(n, wr.key).head)
             || SingleKeyOnly(w, SlotAt(n, wr.key), if failed then None else raw, wr.envelope)
    requires wr.expected.Some? ==> !failed && Expects(w, wr, SlotAt(n, wr.key).head)
    ensures var slot := SlotAt(n, wr.key);
            AfterWrite(w, n, raw, failed, None) ==
            if MayFollow(w, wr.key, slot, wr.envelope)
            then Completed(With(n, wr.key, SlotWith(w, slot, wr.envelope)), wr, slot.head) else Unlocked(n)
  {
    hide SlotOk, StoreOk, MayFollow, Writable, SelectNewest, StateHash, NamesPredecessor, Accepts, AfterWrite,
         ChainBehind;
    var slot := SlotAt(n, wr.key);
    SlotIsOk(w, n, wr.key);
    WriteExactly(w, n, wr, raw, failed, slot.head, None);
    HeadIsFollowed(w, wr.key, slot, wr.envelope);
  }

  lemma HeadIsFollowed(w: Wire, k: Bytes, slot: Slot, e: Bytes)
    requires Sound(w) && SlotOk(w, k, slot)
    ensures var chain := ChainBehind(slot, slot.head, None);
            && Writable(w, k, e, slot.head, chain) == MayFollow(w, k, slot, e)
            && WriteHistory(w, e, slot.head, chain) == WriteHistory(w, e, slot.head, ChainOf(w, slot))
            && (slot.head.Some? && chain.None? ==> !NamesPredecessor(w, slot.head.value))
    ensures ChainOf(w, slot).None? ==>
              && Writable(w, k, e, slot.head, None) == MayFollow(w, k, slot, e)
              && WriteHistory(w, e, slot.head, None) == WriteHistory(w, e, slot.head, ChainOf(w, slot))
    ensures MayFollow(w, k, slot, e) ==> slot.head != Some(e) && Accepts(w, slot, SeqAt(w, e))
    ensures MayFollow(w, k, slot, e) && !w.isMultisignature(e) ==> ChainOf(w, slot).None?
  {
    hide MayFollow, Writable, NamesPredecessor, Accepts, HeadProvenance;
    OverHead(w, k, slot, e, ChainBehind(slot, slot.head, None));
    if ChainOf(w, slot).None? { OverHead(w, k, slot, e, None); }
    if MayFollow(w, k, slot, e) {
      NextIsNewer(w, k, slot, e);
      if !w.isMultisignature(e) { NoSingleKeyOverMultisignature(w, k, slot, e); }
    }
    if slot.head.Some? && ChainBehind(slot, slot.head, None).None? {
      HeadHistory(w, k, slot);
      LoneHead(w, k, slot);
    }
  }

  lemma HeadHistory(w: Wire, k: Bytes, slot: Slot)
    requires SlotOk(w, k, slot) && slot.head.Some? && ChainBehind(slot, slot.head, None).None?
    ensures slot.history.None? || !w.isMultisignature(slot.head.value)
  {
  }

  lemma NoSingleKeyOverMultisignature(w: Wire, k: Bytes, slot: Slot, e: Bytes)
    requires MayFollow(w, k, slot, e) && !w.isMultisignature(e)
    ensures ChainOf(w, slot).None?
  {
  }

  /**
   A write changes nothing if the values known conflict, or if it is conditional and its read
   failed, or the value selected is not the state it named.
   */
  lemma RefusedWrite(w: Wire, n: Node, wr: Write, raw: Option<Bytes>, failed: bool, found: Option<seq<Bytes>>)
    requires n.pending == Some(WriteReading(wr))
    requires var selected := SelectNewest(w, if failed then None else raw, SlotAt(n, wr.key).head);
             || selected.None?
             || (wr.expected.Some? && (failed || !Expects(w, wr, selected.value)))
    ensures AfterWrite(w, n, raw, failed, found) == Unlocked(n)
  {
    hide SelectNewest, WriteValidated, PreconditionHolds, Expects;
    var selected := SelectNewest(w, if failed then None else raw, SlotAt(n, wr.key).head);
    if selected.Some? { ExpectsExactly(w, wr, selected.value); }
  }

  /** The lock is held by a conditional write that has not been published. */
  predicate Unpublished(n: Node) {
    match n.pending
    case Some(WriteReading(wr)) => wr.expected.Some?
    case Some(WriteWalking(wr, _)) => wr.expected.Some?
    case _ => false
  }

  /**
   Nothing is recorded as written before its publication returned, and a conditional write
   touches no slot before that; past its deadline it is not even published.
   */
  lemma PublishedFirst(w: Wire, n: Node, a: Action)
    ensures Step(w, n, a).receipts != n.receipts ==>
              && a == AnswerPublish(true) && n.pending.Some? && n.pending.value.Publishing?
              && var p := n.pending.value;
                 Step(w, n, a).receipts == n.receipts + [Receipt(p.write, p.existing)]
    ensures a == AnswerPublish(false) && n.pending.Some? && n.pending.value.Publishing? ==> Step(w, n, a) == Unlocked(n)
    ensures Unpublished(n) && (a.AnswerRead? || a.AnswerWalk?) ==> Step(w, n, a).slots == n.slots
    ensures Unpublished(n) && ((a.AnswerRead? && a.expired) || (a.AnswerWalk? && a.expired)) ==>
              Step(w, n, a).pending.Some? ==> !Step(w, n, a).pending.value.Publishing?
  {
    hide IdentityOverwrite, IdentityGet, SelectNewest, DurableInstall, DurableCache, HistoryToCurrent, PredecessorHash,
         StateHash, HistoryEndingAt;
  }

  // ---------- incoming PUTs ----------

  /** What an incoming PUT comes to: judged against the value selected, with the stored chain if it ends there. */
  lemma PutExactly(w: Wire, n: Node, k: Bytes, e: Bytes, raw: Option<Bytes>, stored: bool)
    requires Sound(w) && StoreOk(w, n)
    ensures var slot := SlotAt(n, k);
            var selected := SelectNewest(w, raw, slot.head);
            Step(w, n, IncomingPut(k, e, raw, stored)) ==
            if selected.None? || selected.value == Some(e) || !stored || slot.head == Some(e) then n
            else
              var chain := ChainBehind(slot, selected.value, None);
              if Writable(w, k, e, selected.value, chain) && Accepts(w, slot, SeqAt(w, e))
              then With(n, k, NewSlot(w, e, WriteHistory(w, e, selected.value, chain))) else n
  {
    hide SlotOk, Writable, IdentityOverwrite, IdentityRecord, DurableInstall, NewSlot, SelectNewest, StoreOk, Accepts;
    var slot := SlotAt(n, k);
    SlotIsOk(w, n, k);
    var selected := SelectNewest(w, raw, slot.head);
    if selected.Some? {
      var chain := ChainBehind(slot, selected.value, None);
      IdentityWriteExactly(w, k, e, selected.value, chain);
      if Writable(w, k, e, selected.value, chain) {
        InstallExactly(w, k, slot, e, selected.value, chain);
        if slot.head == Some(e) { SameHead(w, n, k); }
      }
    }
  }

  /** An incoming PUT that nothing newer disturbs is installed if and only if it may follow the head. */
  lemma UndisturbedPut(w: Wire, n: Node, k: Bytes, e: Bytes, raw: Option<Bytes>)
    requires Sound(w) && StoreOk(w, n) && NothingNewer(w, SlotAt(n, k), raw)
    ensures Step(w, n, IncomingPut(k, e, raw, true)) ==
            if MayFollow(w, k, SlotAt(n, k), e) then With(n, k, SlotWith(w, SlotAt(n, k), e)) else n
  {
    hide SlotOk, MayFollow, Writable, SelectNewest, StoreOk, Accepts, NewSlot, NamesPredecessor;
    var slot := SlotAt(n, k);
    SlotIsOk(w, n, k);
    PutExactly(w, n, k, e, raw, true);
    HeadIsFollowed(w, k, slot, e);
    OverHead(w, k, slot, e, ChainBehind(slot, slot.head, None));
  }

  // ---------- reads ----------

  /** A head that the node can read back: any single-key one, and any multisignature one that is well anchored. */
  ghost predicate ReadableHead(w: Wire, k: Bytes, slot: Slot) {
    slot.head.Some? && (w.isMultisignature(slot.head.value) ==> WellAnchored(w, k, slot))
  }

  lemma HeadReads(w: Wire, k: Bytes, slot: Slot)
    requires Sound(w) && SlotOk(w, k, slot) && ReadableHead(w, k, slot)
    ensures var e, chain := slot.head.value, HistoryToCurrent(slot.history, slot.head, slot.head);
            && BodyOf(w, e).Some? && OwnerName(BodyOf(w, e).value).Some? && OwnerKey(BodyOf(w, e).value).Some?
            && IdentityGet(w, k, e, chain) == Some(IdentityRecord(w, k, e, Provenance(slot)))
            && LooseSeqOf(w, e) == Some(SeqAt(w, e))
            && IdentityRecord(w, k, e, Provenance(slot)).seqNo == SeqAt(w, e)
  {
    hide GoodHistory, LegacyRecord, IdentityGet, ValidateHistory;
    var e, chain := slot.head.value, HistoryToCurrent(slot.history, slot.head, slot.head);
    IdentityReadExactly(w, k, e, chain);
    if w.isMultisignature(e) {
      WellAnchoredReplays(w, k, slot);
      HistoryExactly(w, k, Provenance(slot));
      GoodHistoryHead(w, k, Provenance(slot));
    } else {
      LegacyHeadIsSigned(w, k, slot);
      SignedIsSingleKey(w, k, e, IDENTITY);
    }
  }

  /**
   A node reads back its own head at once, without any peer: when the DHT fails, is empty or
   knows nothing newer, the read returns the head's own name, owner, seq and hash, and changes no slot.
   */
  lemma OwnHeadIsRead(w: Wire, n: Node, k: Bytes, raw: Option<Bytes>, failed: bool, expired: bool)
    requires Sound(w) && StoreOk(w, n) && n.pending == Some(GetReading(k))
    requires ReadableHead(w, k, SlotAt(n, k)) && NothingNewer(w, SlotAt(n, k), if failed then None else raw)
    ensures var slot := SlotAt(n, k);
            && BodyOf(w, slot.head.value).Some?
            && OwnerName(BodyOf(w, slot.head.value).value).Some? && OwnerKey(BodyOf(w, slot.head.value).value).Some?
            && Step(w, n, AnswerRead(raw, failed, expired)) ==
               n.(pending := None,
                  answers := n.answers + [IdentityRecord(w, k, slot.head.value, Provenance(slot))])
  {
    hide SlotOk, IdentityGet, IdentityRecord, SelectNewest, StoreOk, HistoryToCurrent, WellAnchored;
    var slot := SlotAt(n, k);
    SlotIsOk(w, n, k);
    HeadReads(w, k, slot);
    CachingTheHead(w, n, k, IdentityRecord(w, k, slot.head.value, Provenance(slot)),
                   HistoryToCurrent(slot.history, slot.head, slot.head));
  }

  lemma CachingTheHead(w: Wire, n: Node, k: Bytes, r: IdentityResult, chain: Option<seq<Bytes>>)
    requires SlotOk(w, k, SlotAt(n, k)) && SlotAt(n, k).head.Some?
    requires LooseSeqOf(w, SlotAt(n, k).head.value) == Some(r.seqNo)
    ensures With(n, k, DurableCache(w, SlotAt(n, k), SlotAt(n, k).head.value, r, chain)) == n
  {
    hide HeadProvenance;
  }

  /** The stored chain, and one more envelope. */
  function Extended(slot: Slot, e: Bytes): seq<Bytes> {
    (if slot.head.Some? then Provenance(slot) else []) + [e]
  }

  /** A DHT value newer than the head; an unparseable head is never in the store. */
  predicate NewerThanHead(w: Wire, slot: Slot, e: Bytes) {
    && LooseSeqOf(w, e).Some?
    && (slot.head.Some? ==>
          LooseSeqOf(w, slot.head.value).Some? && LooseSeqOf(w, e).value > LooseSeqOf(w, slot.head.value).value)
  }

  /** What the node can check about a newer value with the chain it stores. */
  ghost predicate DirectlyReadable(w: Wire, k: Bytes, slot: Slot, e: Bytes) {
    if w.isMultisignature(e) then GoodHistory(w, k, Extended(slot, e)) else LegacyRecord(w, k, e, IDENTITY)
  }

  lemma NewerReads(w: Wire, k: Bytes, slot: Slot, e: Bytes)
    requires Sound(w) && SlotOk(w, k, slot) && Ends(slot) && NewerThanHead(w, slot, e)
    ensures DirectlyReadable(w, k, slot, e) ==>
              BodyOf(w, e).Some? && OwnerName(BodyOf(w, e).value).Some? && OwnerKey(BodyOf(w, e).value).Some?
    ensures var chain := HistoryToCurrent(slot.history, slot.head, Some(e));
            && chain == (if slot.head.Some? then Some(Extended(slot, e)) else None)
            && IdentityGet(w, k, e, chain) == if DirectlyReadable(w, k, slot, e)
                                              then Some(IdentityRecord(w, k, e, Extended(slot, e))) else None
  {
    hide GoodHistory, LegacyRecord, IdentityGet, IdentityRecord, HeadProvenance;
    IdentityReadExactly(w, k, e, HistoryToCurrent(slot.history, slot.head, Some(e)));
    assert [] + [e] == [e];
    if slot.head.Some? { assert [slot.head.value] + [e] == [slot.head.value, e]; }
  }

  /** The slot a read leaves when it caches a newer value: with the chain that validated it. */
  function CachedSlot(w: Wire, slot: Slot, e: Bytes): Slot {
    Slot(Some(e), Meta(SeqAt(w, e), w.sha256(UpdateAt(w, e))),
         if slot.head.Some? then Some(Extended(slot, e)) else None)
  }

  /**
   A newer value from the DHT is returned and cached at once exactly when it extends the stored
   chain (or is a signed single-key record); otherwise the read goes on to walk for its history.
   */
  lemma NewerIsRead(w: Wire, n: Node, k: Bytes, e: Bytes, expired: bool)
    requires Sound(w) && StoreOk(w, n) && n.pending == Some(GetReading(k))
    requires Ends(SlotAt(n, k)) && NewerThanHead(w, SlotAt(n, k), e)
    ensures var slot, n' := SlotAt(n, k), Step(w, n, AnswerRead(Some(e), false, expired));
            if DirectlyReadable(w, k, slot, e)
            then && BodyOf(w, e).Some? && OwnerName(BodyOf(w, e).value).Some? && OwnerKey(BodyOf(w, e).value).Some?
                 && n' == With(n, k, CachedSlot(w, slot, e)).(
                            pending := None,
                            answers := n.answers + [IdentityRecord(w, k, e, Extended(slot, e))])
            else n' == n.(pending := Some(GetWalking(k, true, e)))
  {
    hide SlotOk, IdentityGet, IdentityRecord, StoreOk, HistoryToCurrent, DirectlyReadable, Extended;
    var slot := SlotAt(n, k);
    SlotIsOk(w, n, k);
    NewerReads(w, k, slot, e);
    if DirectlyReadable(w, k, slot, e) { CachesNewer(w, k, slot, e); }
  }

  lemma CachesNewer(w: Wire, k: Bytes, slot: Slot, e: Bytes)
    requires Sound(w) && SlotOk(w, k, slot) && NewerThanHead(w, slot, e) && BodyOf(w, e).Some?
    requires OwnerName(BodyOf(w, e).value).Some? && OwnerKey(BodyOf(w, e).value).Some?
    ensures DurableCache(w, slot, e, IdentityRecord(w, k, e, Extended(slot, e)),
                         if slot.head.Some? then Some(Extended(slot, e)) else None) == CachedSlot(w, slot, e)
  {
    hide HeadProvenance, Extended;
  }

  /** After a walk the value is returned with the chain found, and cached, if it is then readable; or the read fails. */
  lemma WalkedRead(
    w: Wire, n: Node, k: Bytes, fromDht: bool, current: Bytes, found: Option<seq<Bytes>>, expired: bool)
    requires Sound(w) && StoreOk(w, n) && n.pending == Some(GetWalking(k, fromDht, current))
    ensures var slot, n' := SlotAt(n, k), Step(w, n, AnswerWalk(found, expired));
            if found.Some? && Readable(w, k, current, found)
            then && BodyOf(w, current).Some? && OwnerName(BodyOf(w, current).value).Some?
                 && OwnerKey(BodyOf(w, current).value).Some?
                 && n'.answers == n.answers + [IdentityRecord(w, k, current, found.value)]
                 && n'.pending == None && n'.receipts == n.receipts
                 && SlotAt(n', k) == (
                    if fromDht && Accepts(w, slot, SeqAt(w, current))
                    then Slot(Some(current), Meta(SeqAt(w, current), w.sha256(UpdateAt(w, current))), found) else slot)
                 && forall k' :: k' != k ==> SlotAt(n', k') == SlotAt(n, k')
            else n' == Unlocked(n)
  {
    hide Readable, IdentityGet, StoreOk, Accepts;
    IdentityReadExactly(w, k, current, found);
  }

  // ---------- confirming a rotation ----------

  /**
   A rotation is confirmed exactly when the peer returned the expected bytes, they are a rotation
   under this name, and the stored chain, with them at its end, is a good history.
   */
  lemma ConfirmedExactly(w: Wire, n: Node, k: Bytes, name: Bytes, expected: Bytes, remote: Option<Bytes>)
    requires Sound(w) && StoreOk(w, n) && Ends(SlotAt(n, k))
    ensures var slot := SlotAt(n, k);
            var h := if slot.head == Some(expected) then Provenance(slot) else Extended(slot, expected);
            Confirmed(w, n, k, name, expected, remote) ==
            if && k == w.sha256(name) && remote == Some(expected) && NameAt(w, expected) == Some(name)
               && OperationAt(w, expected) == OWNER_KEY_ROTATION && GoodHistory(w, k, h)
            then (GoodHistoryHead(w, k, h); Some(IdentityRecord(w, k, expected, h))) else None
  {
    hide GoodHistory, LegacyRecord, IdentityGet, HeadProvenance, StoreOk, HistoryToCurrent, GenesisRecord, Extended;
    var slot := SlotAt(n, k);
    var h := if slot.head == Some(expected) then Provenance(slot) else Extended(slot, expected);
    var chain := HistoryToCurrent(slot.history, slot.head, Some(expected));
    SlotIsOk(w, n, k);
    ChainToExpected(w, k, slot, expected);
    IdentityReadExactly(w, k, expected, chain);
    LoneEnvelope(w, k, expected);
    GenesisIsNoRotation(w, k, expected);
    if GoodHistory(w, k, h) { GoodHistoryHead(w, k, h); }
  }

  lemma ChainToExpected(w: Wire, k: Bytes, slot: Slot, expected: Bytes)
    requires SlotOk(w, k, slot) && Ends(slot)
    ensures var h := if slot.head == Some(expected) then Provenance(slot) else Extended(slot, expected);
            && EndsAt(h, expected)
            && match HistoryToCurrent(slot.history, slot.head, Some(expected))
               case Some(c) => c == h
               case None => h == [expected]
  {
    hide HeadProvenance;
    assert [] + [expected] == [expected];
    if slot.head.Some? { assert [slot.head.value] + [expected] == [slot.head.value, expected]; }
  }

  lemma GenesisIsNoRotation(w: Wire, k: Bytes, e: Bytes)
    ensures GenesisRecord(w, k, e, IDENTITY) ==> OperationAt(w, e) == GENESIS
  {
  }
}
