/**
 How one registry node with a durable store accepts Identity states.  Local writes and reads
 hold `_accepted_lock` and stop at every await; incoming DHT PUTs and rotation confirmations do
 not take the lock and run in between.  What the DHT and the peers answer is arbitrary.
 */
module NodeProtocol {
  import opened Basics
  import opened Schema
  import opened Verification
  import opened Lineage
  import opened RecordValidator
  import opened DurableStore
  import opened DhtValues

  // ---------- state ----------

  /** A call of put_signed_identity_record, or of its _if_current form when `expected` is given. */
  datatype Write = Write(key: Bytes, envelope: Bytes, expected: Option<Bytes>)

  /** The operation holding the lock, at the await it is suspended on. */
  datatype Pending =
    | WriteReading(write: Write)
    | WriteWalking(write: Write, base: Bytes)
    | Publishing(write: Write, existing: Option<Bytes>, chain: Option<seq<Bytes>>, install: bool)
    | GetReading(key: Bytes)
    | GetWalking(key: Bytes, fromDht: bool, current: Bytes)

  /** A write that returned normally, with the state it was validated against. */
  datatype Receipt = Receipt(write: Write, existing: Option<Bytes>)

  datatype Node = Node(
    slots: map<Bytes, Slot>, pending: Option<Pending>, receipts: seq<Receipt>, answers: seq<IdentityResult>)

  const FRESH_NODE := Node(map[], None, [], [])

  function SlotAt(n: Node, k: Bytes): Slot {
    if k in n.slots then n.slots[k] else EMPTY_SLOT
  }

  datatype Action =
    | StartWrite(write: Write)
    | StartGet(key: Bytes)
    | AnswerRead(raw: Option<Bytes>, failed: bool, expired: bool)
    | AnswerWalk(chain: Option<seq<Bytes>>, expired: bool)
    | AnswerPublish(ok: bool)
    | IncomingPut(key: Bytes, envelope: Bytes, raw: Option<Bytes>, stored: bool)
    | ConfirmRotation(key: Bytes, name: Bytes, expected: Bytes, remote: Option<Bytes>)

  // ---------- installing and caching ----------

  /** _result_seq_and_state_hash. */
  function ResultHash(w: Wire, r: IdentityResult, value: Bytes): Bytes {
    match r.auth
    case Some(a) => a.hash
    case None => (match StateHash(w, value) case Some(h) => h case None => [])
  }

  function StateHistory(r: IdentityResult): Option<seq<Bytes>> {
    match r.state case Some(s) => s.history case None => None
  }

  /** _durable_install: None where it raises because the store holds something as new. */
  function DurableInstall(w: Wire, slot: Slot, value: Bytes, r: IdentityResult): Option<Slot> {
    if slot.head == Some(value) then Some(slot)
    else if Accepts(w, slot, r.seqNo)
    then Some(Install(w, slot, value, r.seqNo, ResultHash(w, r, value), StateHistory(r)))
    else None
  }

  /** _durable_cache. */
  function DurableCache(w: Wire, slot: Slot, value: Bytes, r: IdentityResult, chain: Option<seq<Bytes>>): Slot {
    Install(w, slot, value, r.seqNo, ResultHash(w, r, value), chain)
  }

  function HistoryToCurrent(
    history: Option<seq<Bytes>>, local: Option<Bytes>, current: Option<Bytes>): Option<seq<Bytes>>
  {
    if current.None? then None
    else if history.Some? && EndsAt(history.value, current.value) then history
    else if local.None? || local == current then None
    else if history.Some? then
      if !EndsAt(history.value, local.value) then None else Some(history.value + [current.value])
    else Some([local.value, current.value])
  }

  // ---------- local writes ----------

  function Abort(n: Node): Node {
    n.(pending := None)
  }

  function Return(n: Node, wr: Write, existing: Option<Bytes>): Node {
    n.(pending := None, receipts := n.receipts + [Receipt(wr, existing)])
  }

  function SetSlot(n: Node, k: Bytes, slot: Slot): Node {
    n.(slots := n.slots[k := slot])
  }

  /** The state the caller named is the one selected. */
  predicate PreconditionHolds(w: Wire, wr: Write, existing: Option<Bytes>) {
    wr.expected.Some? ==> existing.Some? && StateHash(w, existing.value) == wr.expected
  }

  predicate IsMultisignature(w: Wire, e: Option<Bytes>) {
    e.Some? && w.isMultisignature(e.value)
  }

  /** The DHT read has answered: select the current state, and find the history ending at it. */
  function WriteAfterRead(w: Wire, n: Node, wr: Write, raw: Option<Bytes>, failed: bool, expired: bool): Node {
    var slot := SlotAt(n, wr.key);
    var dht := if failed then None else raw;
    if failed && wr.expected.Some? then Abort(n)
    else
      match SelectNewest(w, dht, slot.head)
      case None => Abort(n)
      case Some(existing) =>
        if !PreconditionHolds(w, wr, existing) then Abort(n)
        else if !(w.isMultisignature(wr.envelope) || IsMultisignature(w, dht) || IsMultisignature(w, slot.head)) then
          if IdentityOverwrite(w, wr.key, wr.envelope, existing, None).None? then Abort(n)
          else if wr.expected.Some? && expired then Abort(n)
          else n.(pending := Some(Publishing(wr, existing, None, true)))
        else
          var chain := HistoryEndingAt(slot.history, existing);
          if chain.None? && existing.Some? then n.(pending := Some(WriteWalking(wr, existing.value)))
          else WriteValidated(w, n, wr, existing, chain, expired)
  }

  /** The remote walk has answered with some chain, or with none. */
  function WriteAfterWalk(
    w: Wire, n: Node, wr: Write, existing: Bytes, chain: Option<seq<Bytes>>, expired: bool): Node
  {
    var predecessor := PredecessorHash(w, existing);
    if chain.None? && predecessor.Some? && predecessor.value.Some? then Abort(n)
    else WriteValidated(w, n, wr, Some(existing), chain, expired)
  }

  /** A conditional write publishes before it installs, an unconditional one after. */
  function WriteValidated(
    w: Wire, n: Node, wr: Write, existing: Option<Bytes>, chain: Option<seq<Bytes>>, expired: bool): Node
  {
    match IdentityOverwrite(w, wr.key, wr.envelope, existing, chain)
    case None => Abort(n)
    case Some(r) =>
      var multisignature := w.isMultisignature(wr.envelope);
      if wr.expected.Some? then
        if expired then Abort(n) else n.(pending := Some(Publishing(wr, existing, chain, multisignature)))
      else if multisignature then
        (match DurableInstall(w, SlotAt(n, wr.key), wr.envelope, r)
         case None => Abort(n)
         case Some(slot) =>
           SetSlot(n, wr.key, slot).(pending := Some(Publishing(wr, existing, chain, false))))
      else n.(pending := Some(Publishing(wr, existing, chain, false)))
  }

  function WriteAfterPublish(
    w: Wire, n: Node, wr: Write, existing: Option<Bytes>, chain: Option<seq<Bytes>>, install: bool, ok: bool): Node
  {
    if !ok then Abort(n)
    else if !install then Return(n, wr, existing)
    else
      match IdentityOverwrite(w, wr.key, wr.envelope, existing, chain)
      case None => Abort(n)
      case Some(r) =>
        match DurableInstall(w, SlotAt(n, wr.key), wr.envelope, r)
        case None => Abort(n)
        case Some(slot) => Return(SetSlot(n, wr.key, slot), wr, existing)
  }

  // ---------- local reads ----------

  /** The read returns `r`, cached first if the DHT had it. */
  function CacheRead(
    w: Wire, n: Node, k: Bytes, current: Bytes, fromDht: bool, r: IdentityResult, chain: Option<seq<Bytes>>): Node
  {
    (if fromDht then SetSlot(n, k, DurableCache(w, SlotAt(n, k), current, r, chain)) else n).(
      pending := None, answers := n.answers + [r])
  }

  function GetAfterRead(w: Wire, n: Node, k: Bytes, raw: Option<Bytes>): Node {
    var slot := SlotAt(n, k);
    match SelectNewest(w, raw, slot.head)
    case None => Abort(n)
    case Some(None) => Abort(n)
    case Some(Some(current)) =>
      var chain := HistoryToCurrent(slot.history, slot.head, Some(current));
      match IdentityGet(w, k, current, chain)
      case None => n.(pending := Some(GetWalking(k, raw == Some(current), current)))
      case Some(r) => CacheRead(w, n, k, current, raw == Some(current), r, chain)
  }

  function GetAfterWalk(w: Wire, n: Node, k: Bytes, fromDht: bool, current: Bytes, chain: Option<seq<Bytes>>): Node {
    if chain.None? then Abort(n)
    else
      match IdentityGet(w, k, current, chain)
      case None => Abort(n)
      case Some(r) => CacheRead(w, n, k, current, fromDht, r, chain)
  }

  // ---------- steps that take no lock ----------

  /** The value-store hook: validate, store in the DHT value store, then install. */
  function AcceptIncoming(w: Wire, n: Node, k: Bytes, e: Bytes, raw: Option<Bytes>, stored: bool): Node {
    var slot := SlotAt(n, k);
    match SelectNewest(w, raw, slot.head)
    case None => n
    case Some(existing) =>
      if existing == Some(e) then n
      else
        match IdentityOverwrite(w, k, e, existing, HistoryEndingAt(slot.history, existing))
        case None => n
        case Some(r) =>
          if !stored then n
          else
            match DurableInstall(w, slot, e, r)
            case None => n
            case Some(slot') => SetSlot(n, k, slot')
  }

  /** What confirm_identity_owner_key_rotation returns, from the moment the remote read has answered. */
  function Confirmed(
    w: Wire, n: Node, k: Bytes, name: Bytes, expected: Bytes, remote: Option<Bytes>): Option<IdentityResult>
  {
    var slot := SlotAt(n, k);
    var chain := HistoryToCurrent(slot.history, slot.head, remote);
    if k != w.sha256(name) || remote != Some(expected) || chain.None? then None
    else
      match IdentityGet(w, k, expected, chain)
      case None => None
      case Some(r) =>
        if r.name != name || r.auth.None? || r.auth.value.operation != OWNER_KEY_ROTATION then None else Some(r)
  }

  /** And the store it leaves. */
  function Confirm(w: Wire, n: Node, k: Bytes, name: Bytes, expected: Bytes, remote: Option<Bytes>): Node {
    var slot := SlotAt(n, k);
    match Confirmed(w, n, k, name, expected, remote)
    case None => n
    case Some(r) =>
      SetSlot(n, k, DurableCache(w, slot, expected, r, HistoryToCurrent(slot.history, slot.head, remote)))
  }

  // ---------- steps and runs ----------

  /** One atomic step; an answer nobody waits for, or a start under a held lock, does nothing. */
  function Step(w: Wire, n: Node, a: Action): Node {
    match a
    case StartWrite(wr) => if n.pending.Some? then n else n.(pending := Some(WriteReading(wr)))
    case StartGet(k) => if n.pending.Some? then n else n.(pending := Some(GetReading(k)))
    case AnswerRead(raw, failed, expired) =>
      (match n.pending
       case Some(WriteReading(wr)) => WriteAfterRead(w, n, wr, raw, failed, expired)
       case Some(GetReading(k)) => GetAfterRead(w, n, k, if failed then None else raw)
       case _ => n)
    case AnswerWalk(chain, expired) =>
      (match n.pending
       case Some(WriteWalking(wr, existing)) => WriteAfterWalk(w, n, wr, existing, chain, expired)
       case Some(GetWalking(k, fromDht, current)) => GetAfterWalk(w, n, k, fromDht, current, chain)
       case _ => n)
    case AnswerPublish(ok) =>
      (match n.pending
       case Some(Publishing(wr, existing, chain, install)) =>
         WriteAfterPublish(w, n, wr, existing, chain, install, ok)
       case _ => n)
    case IncomingPut(k, e, raw, stored) => AcceptIncoming(w, n, k, e, raw, stored)
    case ConfirmRotation(k, name, expected, remote) => Confirm(w, n, k, name, expected, remote)
  }

  function RunAll(w: Wire, n: Node, actions: seq<Action>): Node {
    if actions == [] then n
    else Step(w, RunAll(w, n, actions[..|actions| - 1]), actions[|actions| - 1])
  }

  // ---------- the store invariant ----------

  /**
   A single-key head can be read.  A multisignature head has a stored history that ends at it and
   replays, or none and is a valid genesis.  The one exception is a head that upgraded a legacy
   envelope replay refuses.
   */
  ghost predicate HeadProvenance(w: Wire, k: Bytes, e: Bytes, history: Option<seq<Bytes>>) {
    if !w.isMultisignature(e) then IdentityGet(w, k, e, None).Some?
    else
      match history
      case None => ValidateHistory(w, k, [e]).Some?
      case Some(h) =>
        && EndsAt(h, e)
        && (ValidateHistory(w, k, h).Some? || (|h| == 2 && IllShapedLegacy(w, k, h[0])))
  }

  ghost predicate SlotOk(w: Wire, k: Bytes, slot: Slot) {
    match slot.head
    case None => slot == EMPTY_SLOT
    case Some(e) =>
      && LooseSeqOf(w, e).Some? && StateHash(w, e).Some?
      && slot.meta == Meta(LooseSeqOf(w, e).value, StateHash(w, e).value)
      && HeadProvenance(w, k, e, slot.history)
  }

  /** A result the validators can have produced for this envelope. */
  ghost predicate ResultFor(w: Wire, e: Bytes, r: IdentityResult) {
    && LooseSeqOf(w, e) == Some(r.seqNo) && StateHash(w, e) == Some(ResultHash(w, r, e))
    && (w.isMultisignature(e) <==> r.auth.Some?)
  }

  lemma LegacyResultFor(w: Wire, k: Bytes, e: Bytes, prev: Option<SeqEntry>, u: SignedUpdate)
    requires Sound(w) && ValidateLegacyUpdate(w, k, e, prev) == Some(u) && !w.isMultisignature(e)
    requires LegacyIdentityResult(k, u).Some?
    ensures ResultFor(w, e, LegacyIdentityResult(k, u).value)
  {
  }

  lemma StateResultFor(w: Wire, k: Bytes, e: Bytes, s: State, r: IdentityResult)
    requires Sound(w) && StateIdentityResult(w, k, s) == Some(r) && w.isMultisignature(e)
    requires w.looseUpdate(e) == Some(s.update) && s.hash == w.sha256(s.update)
    ensures ResultFor(w, e, r) && r.state == Some(s)
  {
  }

  lemma OverwriteResult(
    w: Wire, k: Bytes, e: Bytes, existing: Option<Bytes>, chain: Option<seq<Bytes>>, r: IdentityResult)
    requires Sound(w) && IdentityOverwrite(w, k, e, existing, chain) == Some(r)
    ensures ResultFor(w, e, r)
    ensures HeadProvenance(w, k, e, StateHistory(r))
    ensures StateHistory(r) != Some([])
  {
    if w.isMultisignature(e) {
      var s := ValidateTransition(w, k, e, existing, chain).value;
      TransitionKind(w, k, e, existing, chain, s);
      OverwriteHistoryReplays(w, k, e, existing, chain, s);
      TransitionUpdate(w, k, e, existing, chain, s);
      StateResultFor(w, k, e, s, r);
    } else {
      var prev := PreviousEntry(w, existing, 2);
      LegacyResultFor(w, k, e, prev, ValidateLegacyUpdate(w, k, e, prev).value);
    }
  }

  lemma TransitionUpdate(w: Wire, k: Bytes, e: Bytes, existing: Option<Bytes>, chain: Option<seq<Bytes>>, s: State)
    requires Sound(w) && ValidateTransition(w, k, e, existing, chain) == Some(s)
    ensures w.looseUpdate(e) == Some(s.update) && s.hash == w.sha256(s.update)
    ensures LooseSeqOf(w, e) == Some(s.seqNo)
  {
    var current, anchor := TransitionIsUpdate(w, k, e, existing, chain, s);
    UpdateKeepsEnvelope(w, k, e, current, anchor, s);
    CandidateDecodes(w, e, DecodeCandidate(w, e).value);
  }

  lemma GetResult(w: Wire, k: Bytes, e: Bytes, chain: Option<seq<Bytes>>, r: IdentityResult)
    requires Sound(w) && IdentityGet(w, k, e, chain) == Some(r)
    ensures ResultFor(w, e, r)
    ensures HeadProvenance(w, k, e, chain)
  {
    if w.isMultisignature(e) {
      if chain.None? {
        var s := ValidateEnvelope(w, k, e).value;
        EnvelopeGenesis(w, k, e, s);
        AcceptedHistory(w, k, [e], s);
        StateResultFor(w, k, e, s, r);
      } else {
        var s := ValidateHistory(w, k, chain.value).value;
        AcceptedHistory(w, k, chain.value, s);
        StateResultFor(w, k, e, s, r);
      }
    } else {
      LegacyResultFor(w, k, e, None, ValidateLegacyUpdate(w, k, e, None).value);
    }
  }

  /** Any install of a validated result keeps the slot in order and moves its seq up. */
  lemma InstallKeepsSlot(w: Wire, k: Bytes, slot: Slot, e: Bytes, r: IdentityResult, history: Option<seq<Bytes>>)
    requires SlotOk(w, k, slot) && ResultFor(w, e, r)
    requires HeadProvenance(w, k, e, history)
    ensures var slot' := Install(w, slot, e, r.seqNo, ResultHash(w, r, e), history);
            SlotOk(w, k, slot') && Advances(slot, slot')
  {
  }

  /** The accepted seq never falls, and rises whenever the slot changes. */
  ghost predicate Advances(slot: Slot, slot': Slot) {
    || slot' == slot
    || (slot'.meta.Meta? && (slot.head.Some? ==> slot.meta.Meta? && slot.meta.seqNo < slot'.meta.seqNo))
  }

  ghost predicate StoreOk(w: Wire, n: Node) {
    forall k :: SlotOk(w, k, SlotAt(n, k))
  }

  /** Every slot is in order afterwards, and moved only forward. */
  ghost predicate StoreAdvances(w: Wire, n: Node, n': Node) {
    forall k :: SlotOk(w, k, SlotAt(n', k)) && Advances(SlotAt(n, k), SlotAt(n', k))
  }

  lemma OneSlotAdvances(w: Wire, n: Node, n': Node, k: Bytes, slot: Slot)
    requires StoreOk(w, n) && n'.slots == n.slots[k := slot]
    requires SlotOk(w, k, slot) && Advances(SlotAt(n, k), slot)
    ensures StoreAdvances(w, n, n') && StoreOk(w, n')
  {
    hide SlotOk, Advances;
    forall k' ensures SlotOk(w, k', SlotAt(n', k')) && Advances(SlotAt(n, k'), SlotAt(n', k')) {
      if k' != k {
        assert SlotAt(n', k') == SlotAt(n, k');
        AdvancesReflexive(SlotAt(n, k'));
      }
    }
  }

  lemma AdvancesReflexive(slot: Slot)
    ensures Advances(slot, slot)
  {
  }

  lemma InstallAdvances(w: Wire, k: Bytes, slot: Slot, e: Bytes, r: IdentityResult, slot': Slot)
    requires SlotOk(w, k, slot) && ResultFor(w, e, r)
    requires HeadProvenance(w, k, e, StateHistory(r))
    requires DurableInstall(w, slot, e, r) == Some(slot')
    ensures SlotOk(w, k, slot') && Advances(slot, slot')
    ensures slot'.head == Some(e) && slot'.meta == Meta(r.seqNo, ResultHash(w, r, e))
  {
    InstallKeepsSlot(w, k, slot, e, r, StateHistory(r));
  }

  lemma WriteValidatedAdvances(
    w: Wire, n: Node, wr: Write, existing: Option<Bytes>, chain: Option<seq<Bytes>>, expired: bool)
    requires Sound(w) && StoreOk(w, n)
    ensures StoreAdvances(w, n, WriteValidated(w, n, wr, existing, chain, expired))
  {
    hide SlotOk, Advances, IdentityOverwrite, DurableInstall, ResultFor, HeadProvenance;
    var n' := WriteValidated(w, n, wr, existing, chain, expired);
    var r := IdentityOverwrite(w, wr.key, wr.envelope, existing, chain);
    if r.Some? {
      OverwriteResult(w, wr.key, wr.envelope, existing, chain, r.value);
      var slot' := DurableInstall(w, SlotAt(n, wr.key), wr.envelope, r.value);
      if wr.expected.None? && w.isMultisignature(wr.envelope) && slot'.Some? {
        InstallAdvances(w, wr.key, SlotAt(n, wr.key), wr.envelope, r.value, slot'.value);
        OneSlotAdvances(w, n, n', wr.key, slot'.value);
        return;
      }
    }
    SameStore(w, n, n');
  }

  lemma SameStore(w: Wire, n: Node, n': Node)
    requires StoreOk(w, n) && n'.slots == n.slots
    ensures StoreAdvances(w, n, n')
  {
    forall k ensures SlotAt(n', k) == SlotAt(n, k) && Advances(SlotAt(n, k), SlotAt(n', k)) {
      AdvancesReflexive(SlotAt(n, k));
    }
  }

  lemma SameSlotsOk(w: Wire, n: Node, n': Node)
    requires StoreOk(w, n) && n'.slots == n.slots
    ensures StoreOk(w, n') && forall k :: SlotAt(n', k) == SlotAt(n, k)
  {
    forall k ensures SlotAt(n', k) == SlotAt(n, k) {
    }
  }

  lemma WriteAfterReadAdvances(w: Wire, n: Node, wr: Write, raw: Option<Bytes>, failed: bool, expired: bool)
    requires Sound(w) && StoreOk(w, n)
    ensures StoreAdvances(w, n, WriteAfterRead(w, n, wr, raw, failed, expired))
  {
    hide SlotOk, IdentityOverwrite, StoreAdvances, SelectNewest, WriteValidated;
    var n' := WriteAfterRead(w, n, wr, raw, failed, expired);
    var slot := SlotAt(n, wr.key);
    var existing := SelectNewest(w, if failed then None else raw, slot.head);
    if existing.Some? {
      WriteValidatedAdvances(w, n, wr, existing.value, HistoryEndingAt(slot.history, existing.value), expired);
    }
    if n'.slots == n.slots { SameStore(w, n, n'); }
  }

  lemma WriteAfterWalkAdvances(w: Wire, n: Node, wr: Write, base: Bytes, chain: Option<seq<Bytes>>, expired: bool)
    requires Sound(w) && StoreOk(w, n)
    ensures StoreAdvances(w, n, WriteAfterWalk(w, n, wr, base, chain, expired))
  {
    hide WriteValidated, StoreAdvances, StoreOk;
    WriteValidatedAdvances(w, n, wr, Some(base), chain, expired);
    SameStore(w, n, Abort(n));
  }

  lemma WriteAfterPublishAdvances(
    w: Wire, n: Node, wr: Write, existing: Option<Bytes>, chain: Option<seq<Bytes>>, install: bool, ok: bool)
    requires Sound(w) && StoreOk(w, n)
    ensures StoreAdvances(w, n, WriteAfterPublish(w, n, wr, existing, chain, install, ok))
  {
    hide SlotOk, Advances, IdentityOverwrite, DurableInstall, ResultFor, HeadProvenance;
    var n' := WriteAfterPublish(w, n, wr, existing, chain, install, ok);
    var r := IdentityOverwrite(w, wr.key, wr.envelope, existing, chain);
    if ok && install && r.Some? {
      OverwriteResult(w, wr.key, wr.envelope, existing, chain, r.value);
      var slot' := DurableInstall(w, SlotAt(n, wr.key), wr.envelope, r.value);
      if slot'.Some? {
        InstallAdvances(w, wr.key, SlotAt(n, wr.key), wr.envelope, r.value, slot'.value);
        OneSlotAdvances(w, n, n', wr.key, slot'.value);
        return;
      }
    }
    SameStore(w, n, n');
  }

  lemma CacheAdvances(
    w: Wire, n: Node, n': Node, k: Bytes, e: Bytes, r: IdentityResult, chain: Option<seq<Bytes>>)
    requires Sound(w) && StoreOk(w, n) && IdentityGet(w, k, e, chain) == Some(r)
    requires n'.slots == n.slots || n'.slots == n.slots[k := DurableCache(w, SlotAt(n, k), e, r, chain)]
    ensures StoreAdvances(w, n, n')
  {
    hide SlotOk, Advances, IdentityGet, ResultFor, HeadProvenance;
    if n'.slots == n.slots {
      SameStore(w, n, n');
    } else {
      GetResult(w, k, e, chain, r);
      InstallKeepsSlot(w, k, SlotAt(n, k), e, r, chain);
      OneSlotAdvances(w, n, n', k, DurableCache(w, SlotAt(n, k), e, r, chain));
    }
  }

  lemma GetAfterReadAdvances(w: Wire, n: Node, k: Bytes, raw: Option<Bytes>)
    requires Sound(w) && StoreOk(w, n)
    ensures StoreAdvances(w, n, GetAfterRead(w, n, k, raw))
  {
    hide SlotOk, Advances, IdentityGet, SelectNewest, HistoryToCurrent, StoreAdvances;
    var n', slot := GetAfterRead(w, n, k, raw), SlotAt(n, k);
    var current := SelectNewest(w, raw, slot.head);
    if current.Some? && current.value.Some? {
      var e := current.value.value;
      var chain := HistoryToCurrent(slot.history, slot.head, Some(e));
      var r := IdentityGet(w, k, e, chain);
      if r.Some? {
        CacheAdvances(w, n, n', k, e, r.value, chain);
        return;
      }
    }
    SameStore(w, n, n');
  }

  lemma GetAfterWalkAdvances(w: Wire, n: Node, k: Bytes, fromDht: bool, current: Bytes, chain: Option<seq<Bytes>>)
    requires Sound(w) && StoreOk(w, n)
    ensures StoreAdvances(w, n, GetAfterWalk(w, n, k, fromDht, current, chain))
  {
    hide SlotOk, Advances, IdentityGet, StoreAdvances;
    var n' := GetAfterWalk(w, n, k, fromDht, current, chain);
    var r := IdentityGet(w, k, current, chain);
    if chain.Some? && r.Some? {
      CacheAdvances(w, n, n', k, current, r.value, chain);
    } else {
      SameStore(w, n, n');
    }
  }

  lemma IncomingAdvances(w: Wire, n: Node, k: Bytes, e: Bytes, raw: Option<Bytes>, stored: bool)
    requires Sound(w) && StoreOk(w, n)
    ensures StoreAdvances(w, n, AcceptIncoming(w, n, k, e, raw, stored))
  {
    hide SlotOk, Advances, IdentityOverwrite, DurableInstall, ResultFor, HeadProvenance, SelectNewest;
    var n', slot := AcceptIncoming(w, n, k, e, raw, stored), SlotAt(n, k);
    var existing := SelectNewest(w, raw, slot.head);
    if existing.Some? {
      var chain := HistoryEndingAt(slot.history, existing.value);
      var r := IdentityOverwrite(w, k, e, existing.value, chain);
      if r.Some? {
        OverwriteResult(w, k, e, existing.value, chain, r.value);
        var slot' := DurableInstall(w, slot, e, r.value);
        if slot'.Some? {
          InstallAdvances(w, k, slot, e, r.value, slot'.value);
          if n'.slots == n.slots[k := slot'.value] {
            OneSlotAdvances(w, n, n', k, slot'.value);
            return;
          }
        }
      }
    }
    SameStore(w, n, n');
  }

  lemma ConfirmAdvances(w: Wire, n: Node, k: Bytes, name: Bytes, expected: Bytes, remote: Option<Bytes>)
    requires Sound(w) && StoreOk(w, n)
    ensures StoreAdvances(w, n, Confirm(w, n, k, name, expected, remote))
  {
    hide SlotOk, Advances, IdentityGet, HistoryToCurrent, StoreAdvances;
    var n', slot := Confirm(w, n, k, name, expected, remote), SlotAt(n, k);
    var chain := HistoryToCurrent(slot.history, slot.head, remote);
    var r := IdentityGet(w, k, expected, chain);
    if r.Some? {
      CacheAdvances(w, n, n', k, expected, r.value, chain);
    } else {
      SameStore(w, n, n');
    }
  }

  /** Every step, under every answer of the environment, keeps the store in order. */
  lemma StepAdvances(w: Wire, n: Node, a: Action)
    requires Sound(w) && StoreOk(w, n)
    ensures StoreAdvances(w, n, Step(w, n, a))
  {
    hide SlotOk, Advances, StoreAdvances, StoreOk, WriteAfterRead, WriteAfterWalk, WriteAfterPublish,
         GetAfterRead, GetAfterWalk, AcceptIncoming, Confirm;
    SameStore(w, n, Step(w, n, a).(slots := n.slots));
    match (a, n.pending)
    case (AnswerRead(raw, failed, expired), Some(WriteReading(wr))) =>
      WriteAfterReadAdvances(w, n, wr, raw, failed, expired);
    case (AnswerRead(raw, failed, expired), Some(GetReading(k))) =>
      GetAfterReadAdvances(w, n, k, if failed then None else raw);
    case (AnswerWalk(chain, expired), Some(WriteWalking(wr, base))) =>
      WriteAfterWalkAdvances(w, n, wr, base, chain, expired);
    case (AnswerWalk(chain, expired), Some(GetWalking(k, fromDht, current))) =>
      GetAfterWalkAdvances(w, n, k, fromDht, current, chain);
    case (AnswerPublish(ok), Some(Publishing(wr, existing, chain, install))) =>
      WriteAfterPublishAdvances(w, n, wr, existing, chain, install, ok);
    case (IncomingPut(k, e, raw, stored), _) => IncomingAdvances(w, n, k, e, raw, stored);
    case (ConfirmRotation(k, name, expected, remote), _) => ConfirmAdvances(w, n, k, name, expected, remote);
    case _ =>
  }

  lemma {:induction false} RunsKeepTheStore(w: Wire, n: Node, actions: seq<Action>)
    requires Sound(w) && StoreOk(w, n)
    ensures StoreOk(w, RunAll(w, n, actions))
  {
    hide Step, SlotOk, Advances;
    if actions == [] {
    } else {
      var last := |actions| - 1;
      RunsKeepTheStore(w, n, actions[..last]);
      StepAdvances(w, RunAll(w, n, actions[..last]), actions[last]);
    }
  }

  lemma FreshNodeIsOk(w: Wire)
    ensures StoreOk(w, FRESH_NODE)
  {
  }

  /**
   Store invariant: after any interleaving of local writes, conditional writes, incoming PUTs,
   reads and confirmations, with arbitrary answers from the DHT and the peers, the accepted seq
   and hash are the head's own, and a multisignature head has the provenance a replay demands.
   */
  lemma StoreInvariant(w: Wire, actions: seq<Action>, k: Bytes)
    requires Sound(w)
    ensures SlotOk(w, k, SlotAt(RunAll(w, FRESH_NODE, actions), k))
  {
    FreshNodeIsOk(w);
    RunsKeepTheStore(w, FRESH_NODE, actions);
  }

  /** In every run, each further step leaves every accepted seq where it was or raises it. */
  lemma SeqNeverFalls(w: Wire, actions: seq<Action>, a: Action, k: Bytes)
    requires Sound(w)
    ensures Advances(SlotAt(RunAll(w, FRESH_NODE, actions), k), SlotAt(RunAll(w, FRESH_NODE, actions + [a]), k))
  {
    hide Step, SlotOk, Advances;
    FreshNodeIsOk(w);
    RunsKeepTheStore(w, FRESH_NODE, actions);
    assert (actions + [a])[..|actions|] == actions;
    StepAdvances(w, RunAll(w, FRESH_NODE, actions), a);
  }

  lemma AdvancesTransitive(slot: Slot, slot': Slot, slot'': Slot)
    requires Advances(slot, slot') && Advances(slot', slot'') && (slot'.meta.Meta? ==> slot'.head.Some?)
    ensures Advances(slot, slot'')
  {
  }

  /** Between any two points of a run, the later slot is the earlier one or has a larger seq. */
  lemma {:induction false} SlotsAdvance(w: Wire, before: seq<Action>, after: seq<Action>, k: Bytes)
    requires Sound(w)
    ensures Advances(SlotAt(RunAll(w, FRESH_NODE, before), k), SlotAt(RunAll(w, FRESH_NODE, before + after), k))
    decreases |after|
  {
    hide RunAll, Advances;
    if after == [] {
      assert before + after == before;
      AdvancesReflexive(SlotAt(RunAll(w, FRESH_NODE, before), k));
    } else {
      var last := |after| - 1;
      var middle := before + after[..last];
      SlotsAdvance(w, before, after[..last], k);
      SeqNeverFalls(w, middle, after[last], k);
      assert middle + [after[last]] == before + after;
      StoreInvariant(w, middle, k);
      AdvancesTransitive(SlotAt(RunAll(w, FRESH_NODE, before), k), SlotAt(RunAll(w, FRESH_NODE, middle), k),
                         SlotAt(RunAll(w, FRESH_NODE, before + after), k));
    }
  }

  // ---------- durable histories only grow ----------

  /** The replayable history behind a multisignature head; a cached genesis stands for itself. */
  function Provenance(slot: Slot): seq<Bytes>
    requires slot.head.Some?
  {
    match slot.history case Some(h) => h case None => [slot.head.value]
  }

  /** A multisignature head whose provenance a replay accepts. */
  ghost predicate Replayable(w: Wire, k: Bytes, slot: Slot) {
    && slot.head.Some? && w.isMultisignature(slot.head.value)
    && Provenance(slot) != [] && ValidateHistory(w, k, Provenance(slot)).Some?
  }

  lemma ReplayableHead(w: Wire, k: Bytes, slot: Slot)
    requires Sound(w) && SlotOk(w, k, slot) && Replayable(w, k, slot)
    ensures slot.head.Some? && slot.meta.Meta?
    ensures ValidateHistory(w, k, Provenance(slot)).value.seqNo == slot.meta.seqNo
  {
    AcceptedHistory(w, k, Provenance(slot), ValidateHistory(w, k, Provenance(slot)).value);
  }

  /** One slot after another: the newer head's updates properly extend the older head's. */
  lemma NewerSlotExtends(w: Wire, k: Bytes, slot: Slot, slot': Slot)
    requires Sound(w) && SlotOk(w, k, slot) && SlotOk(w, k, slot')
    requires Replayable(w, k, slot) && Replayable(w, k, slot')
    requires slot.meta.Meta? && slot'.meta.Meta? && slot.meta.seqNo < slot'.meta.seqNo
    requires UpdateAt(w, Provenance(slot)[0]) == UpdateAt(w, Provenance(slot')[0])
    requires NonEquivocating(w, Provenance(slot), Provenance(slot'))
    ensures UpdatesPrefix(w, Provenance(slot), Provenance(slot'))
    ensures !UpdatesPrefix(w, Provenance(slot'), Provenance(slot))
  {
    hide NonEquivocating, UpdatesPrefix;
    ReplayableHead(w, k, slot);
    ReplayableHead(w, k, slot');
    var g, h := Provenance(slot), Provenance(slot');
    NewerHistoryExtends(w, k, g, h, ValidateHistory(w, k, g).value, ValidateHistory(w, k, h).value);
  }

  /** A multisignature head, and no stored history that starts at a legacy record replay refuses. */
  ghost predicate WellAnchored(w: Wire, k: Bytes, slot: Slot) {
    && slot.head.Some? && w.isMultisignature(slot.head.value)
    && (slot.history.Some? && slot.history.value != [] ==> !IllShapedLegacy(w, k, slot.history.value[0]))
  }

  lemma WellAnchoredReplays(w: Wire, k: Bytes, slot: Slot)
    requires SlotOk(w, k, slot) && WellAnchored(w, k, slot)
    ensures Replayable(w, k, slot)
  {
  }

  /** The update at the start of the history behind a head. */
  function AnchorUpdate(w: Wire, slot: Slot): Bytes
    requires slot.head.Some?
  {
    if Provenance(slot) == [] then [] else UpdateAt(w, Provenance(slot)[0])
  }

  /** Two heads of one lineage: well anchored, one anchor update, and no key that signs a fork. */
  ghost predicate OneLineage(w: Wire, k: Bytes, slot: Slot, slot': Slot) {
    && WellAnchored(w, k, slot) && WellAnchored(w, k, slot')
    && AnchorUpdate(w, slot) == AnchorUpdate(w, slot')
    && NonEquivocating(w, Provenance(slot), Provenance(slot'))
  }

  /**
   Durable histories only grow: whenever, anywhere later in a run, another multisignature head of
   the same lineage has taken the place of one, the sequence of updates behind it properly
   extends the earlier one.
   */
  lemma HistoriesOnlyGrow(w: Wire, before: seq<Action>, after: seq<Action>, k: Bytes)
    requires Sound(w)
    ensures var slot := SlotAt(RunAll(w, FRESH_NODE, before), k);
            var slot' := SlotAt(RunAll(w, FRESH_NODE, before + after), k);
            slot' != slot && OneLineage(w, k, slot, slot') ==>
              && UpdatesPrefix(w, Provenance(slot), Provenance(slot'))
              && !UpdatesPrefix(w, Provenance(slot'), Provenance(slot))
  {
    hide RunAll, SlotOk, UpdatesPrefix, NonEquivocating, Replayable, WellAnchored, UpdateAt;
    var slot := SlotAt(RunAll(w, FRESH_NODE, before), k);
    var slot' := SlotAt(RunAll(w, FRESH_NODE, before + after), k);
    if slot' != slot && OneLineage(w, k, slot, slot') {
      StoreInvariant(w, before, k);
      StoreInvariant(w, before + after, k);
      SlotsAdvance(w, before, after, k);
      WellAnchoredReplays(w, k, slot);
      WellAnchoredReplays(w, k, slot');
      ReplayableHead(w, k, slot);
      ReplayableHead(w, k, slot');
      NewerSlotExtends(w, k, slot, slot');
    }
  }

  // ---------- conditional writes are compare-and-swap ----------

  /** The receipt of a conditional write of a multisignature envelope. */
  predicate Guarded(w: Wire, r: Receipt) {
    r.write.expected.Some? && w.isMultisignature(r.write.envelope)
  }

  /** Sequence numbers as bare envelopes show them; 0 where there is none to read. */
  function SeqIn(w: Wire, e: Bytes): nat {
    match LooseSeqOf(w, e) case Some(n) => n case None => 0
  }

  /** The write named `existing` by hash, and moved past it. */
  ghost predicate Swapped(w: Wire, r: Receipt) {
    && r.existing.Some? && StateHash(w, r.existing.value) == r.write.expected
    && LooseSeqOf(w, r.existing.value).Some?
    && SeqIn(w, r.existing.value) < SeqIn(w, r.write.envelope)
  }

  /** `base` is no older than anything a guarded write of this key has left behind. */
  ghost predicate NotOlder(w: Wire, receipts: seq<Receipt>, k: Bytes, base: Bytes) {
    forall i :: 0 <= i < |receipts| && Guarded(w, receipts[i]) && receipts[i].write.key == k ==>
      SeqIn(w, receipts[i].write.envelope) <= SeqIn(w, base)
  }

  /** A guarded write moved past its base, its base past all earlier ones, and the slot past it. */
  ghost predicate Settled(w: Wire, receipts: seq<Receipt>, i: nat, slot: Slot)
    requires i < |receipts|
  {
    var r := receipts[i];
    && Swapped(w, r)
    && NotOlder(w, receipts[..i], r.write.key, r.existing.value)
    && slot.meta.Meta? && SeqIn(w, r.write.envelope) <= slot.meta.seqNo
  }

  ghost predicate ReceiptsOk(w: Wire, n: Node) {
    forall i :: 0 <= i < |n.receipts| && Guarded(w, n.receipts[i]) ==>
      Settled(w, n.receipts, i, SlotAt(n, n.receipts[i].write.key))
  }

  /** What the suspended conditional write still relies on. */
  ghost predicate PendingOk(w: Wire, n: Node) {
    match n.pending
    case Some(WriteWalking(wr, base)) =>
      wr.expected.Some? ==> StateHash(w, base) == wr.expected && NotOlder(w, n.receipts, wr.key, base)
    case Some(Publishing(wr, existing, chain, install)) =>
      wr.expected.Some? && w.isMultisignature(wr.envelope) ==>
        && install && existing.Some? && StateHash(w, existing.value) == wr.expected
        && NotOlder(w, n.receipts, wr.key, existing.value)
    case _ => true
  }

  ghost predicate SwapOk(w: Wire, n: Node) {
    ReceiptsOk(w, n) && PendingOk(w, n)
  }

  /** A validated write has a larger seq than the state it extends. */
  lemma OverwriteRaisesSeq(w: Wire, k: Bytes, e: Bytes, existing: Bytes, chain: Option<seq<Bytes>>)
    requires Sound(w) && w.isMultisignature(e) && IdentityOverwrite(w, k, e, Some(existing), chain).Some?
    ensures LooseSeqOf(w, existing).Some? && SeqIn(w, existing) < SeqIn(w, e)
  {
    var s := ValidateTransition(w, k, e, Some(existing), chain).value;
    TransitionKind(w, k, e, Some(existing), chain, s);
    if w.isMultisignature(existing) {
      ExtendsSeq(w, k, e, existing, chain, s);
    } else {
      UpgradeSeq(w, k, e, existing, s);
    }
  }

  lemma UpgradeSeq(w: Wire, k: Bytes, e: Bytes, existing: Bytes, s: State)
    requires Sound(w) && ValidateUpdate(w, k, e, None, Some(existing)) == Some(s)
    ensures LooseSeqOf(w, existing).Some? && SeqIn(w, existing) < SeqIn(w, e)
  {
    CandidateDecodes(w, e, DecodeCandidate(w, e).value);
    LegacyDecodes(w, k, existing, DecodeLegacyState(w, k, existing).value);
  }

  lemma ExtendsSeq(w: Wire, k: Bytes, e: Bytes, existing: Bytes, chain: Option<seq<Bytes>>, s: State)
    requires Sound(w) && ValidateTransition(w, k, e, Some(existing), chain) == Some(s) && s.kind == IDENTITY
    requires w.isMultisignature(existing)
    ensures LooseSeqOf(w, existing).Some? && SeqIn(w, existing) < SeqIn(w, e)
  {
    var c := DecodeCandidate(w, e).value;
    CandidateDecodes(w, e, c);
    var current := CurrentState(w, k, c.auth, existing, chain).value;
    var h := if chain.Some? then chain.value else [existing];
    UpdateKeepsEnvelope(w, k, e, Some(current), None, s);
    if chain.None? { EnvelopeGenesis(w, k, existing, current); }
    AcceptedHistory(w, k, h, current);
    StepIsUpdate(w, k, h, e, current);
    StateStep(w, k, current, existing, e, s);
  }

  lemma StoreKeepsReceipts(w: Wire, n: Node, n': Node)
    requires ReceiptsOk(w, n) && StoreOk(w, n) && StoreAdvances(w, n, n') && n'.receipts == n.receipts
    ensures ReceiptsOk(w, n')
  {
    hide NotOlder, Swapped;
    forall i | 0 <= i < |n.receipts| && Guarded(w, n.receipts[i])
      ensures Settled(w, n'.receipts, i, SlotAt(n', n.receipts[i].write.key))
    {
      var k := n.receipts[i].write.key;
      assert Settled(w, n.receipts, i, SlotAt(n, k));
      assert SlotOk(w, k, SlotAt(n, k)) && Advances(SlotAt(n, k), SlotAt(n', k));
    }
  }

  /** Whatever is selected is no older than the accepted head, so no older than any guarded write. */
  lemma SelectedIsNotOlder(w: Wire, n: Node, k: Bytes, raw: Option<Bytes>, existing: Bytes)
    requires StoreOk(w, n) && ReceiptsOk(w, n)
    requires SelectNewest(w, raw, SlotAt(n, k).head) == Some(Some(existing))
    ensures NotOlder(w, n.receipts, k, existing)
  {
    var slot := SlotAt(n, k);
    assert SlotOk(w, k, slot);
    forall i | 0 <= i < |n.receipts| && Guarded(w, n.receipts[i]) && n.receipts[i].write.key == k
      ensures SeqIn(w, n.receipts[i].write.envelope) <= SeqIn(w, existing)
    {
      assert Settled(w, n.receipts, i, slot);
      NewestIsNotOlder(w, raw, slot.head.value);
    }
  }

  lemma WriteAfterReadSwap(w: Wire, n: Node, wr: Write, raw: Option<Bytes>, failed: bool, expired: bool)
    requires Sound(w) && StoreOk(w, n) && SwapOk(w, n)
    ensures SwapOk(w, WriteAfterRead(w, n, wr, raw, failed, expired))
  {
    hide SlotOk, Advances, IdentityOverwrite, SelectNewest, DurableInstall, NotOlder;
    WriteAfterReadAdvances(w, n, wr, raw, failed, expired);
    var n' := WriteAfterRead(w, n, wr, raw, failed, expired);
    StoreKeepsReceipts(w, n, n');
    var selected := SelectNewest(w, if failed then None else raw, SlotAt(n, wr.key).head);
    if selected.Some? && selected.value.Some? {
      SelectedIsNotOlder(w, n, wr.key, if failed then None else raw, selected.value.value);
    }
  }

  lemma WriteAfterWalkSwap(w: Wire, n: Node, wr: Write, base: Bytes, chain: Option<seq<Bytes>>, expired: bool)
    requires Sound(w) && StoreOk(w, n) && SwapOk(w, n) && n.pending == Some(WriteWalking(wr, base))
    ensures SwapOk(w, WriteAfterWalk(w, n, wr, base, chain, expired))
  {
    hide SlotOk, Advances, IdentityOverwrite, DurableInstall, NotOlder;
    WriteAfterWalkAdvances(w, n, wr, base, chain, expired);
    StoreKeepsReceipts(w, n, WriteAfterWalk(w, n, wr, base, chain, expired));
  }

  /** A normal return records a receipt that moved past the state it was conditional on. */
  lemma ReturnKeepsReceipts(w: Wire, n: Node, n': Node, wr: Write, existing: Option<Bytes>)
    requires ReceiptsOk(w, n) && StoreOk(w, n) && StoreAdvances(w, n, n')
    requires n'.receipts == n.receipts + [Receipt(wr, existing)]
    requires Guarded(w, Receipt(wr, existing)) ==>
               && Swapped(w, Receipt(wr, existing)) && NotOlder(w, n.receipts, wr.key, existing.value)
               && SlotAt(n', wr.key).meta.Meta? && SeqIn(w, wr.envelope) <= SlotAt(n', wr.key).meta.seqNo
    ensures ReceiptsOk(w, n')
  {
    hide NotOlder, Swapped, StoreOk, StoreAdvances;
    var rs, rs' := n.receipts, n'.receipts;
    var mid := n'.(receipts := rs);
    assert StoreAdvances(w, n, mid) by { SameSlots(w, n, n', mid); }
    StoreKeepsReceipts(w, n, mid);
    forall i | 0 <= i < |rs'| && Guarded(w, rs'[i])
      ensures Settled(w, rs', i, SlotAt(n', rs'[i].write.key))
    {
      if i == |rs| {
        assert rs'[..i] == rs;
      } else {
        assert rs'[i] == rs[i] && rs'[..i] == rs[..i];
        assert Settled(w, rs, i, SlotAt(mid, rs[i].write.key));
        assert SlotAt(mid, rs[i].write.key) == SlotAt(n', rs[i].write.key);
      }
    }
  }

  lemma SameSlots(w: Wire, n: Node, n': Node, m: Node)
    requires StoreAdvances(w, n, n') && m.slots == n'.slots
    ensures StoreAdvances(w, n, m)
  {
    forall k
      ensures SlotAt(m, k) == SlotAt(n', k) && SlotOk(w, k, SlotAt(n', k)) && Advances(SlotAt(n, k), SlotAt(n', k))
    {
    }
  }

  lemma WriteAfterPublishSwap(
    w: Wire, n: Node, wr: Write, existing: Option<Bytes>, chain: Option<seq<Bytes>>, install: bool, ok: bool)
    requires Sound(w) && StoreOk(w, n) && SwapOk(w, n)
    requires n.pending == Some(Publishing(wr, existing, chain, install))
    ensures SwapOk(w, WriteAfterPublish(w, n, wr, existing, chain, install, ok))
  {
    hide SlotOk, Advances, IdentityOverwrite, DurableInstall, NotOlder, ReceiptsOk, StoreAdvances, StoreOk,
         HeadProvenance;
    var n' := WriteAfterPublish(w, n, wr, existing, chain, install, ok);
    WriteAfterPublishAdvances(w, n, wr, existing, chain, install, ok);
    if n'.receipts == n.receipts {
      StoreKeepsReceipts(w, n, n');
      return;
    }
    if Guarded(w, Receipt(wr, existing)) {
      var r := IdentityOverwrite(w, wr.key, wr.envelope, existing, chain).value;
      OverwriteResult(w, wr.key, wr.envelope, existing, chain, r);
      OverwriteRaisesSeq(w, wr.key, wr.envelope, existing.value, chain);
      var slot' := DurableInstall(w, SlotAt(n, wr.key), wr.envelope, r).value;
      SlotIsOk(w, n, wr.key);
      InstallAdvances(w, wr.key, SlotAt(n, wr.key), wr.envelope, r, slot');
    }
    ReturnKeepsReceipts(w, n, n', wr, existing);
  }

  lemma SlotIsOk(w: Wire, n: Node, k: Bytes)
    requires StoreOk(w, n)
    ensures SlotOk(w, k, SlotAt(n, k))
  {
  }

  lemma StepSwap(w: Wire, n: Node, a: Action)
    requires Sound(w) && StoreOk(w, n) && SwapOk(w, n)
    ensures SwapOk(w, Step(w, n, a))
  {
    hide SlotOk, Advances, StoreAdvances, StoreOk, ReceiptsOk, WriteAfterRead, WriteAfterWalk, WriteAfterPublish,
         IdentityGet, IdentityOverwrite, SelectNewest, DurableInstall, DurableCache, HistoryToCurrent, NotOlder;
    var n' := Step(w, n, a);
    StepAdvances(w, n, a);
    match (a, n.pending)
    case (AnswerRead(raw, failed, expired), Some(WriteReading(wr))) =>
      WriteAfterReadSwap(w, n, wr, raw, failed, expired);
    case (AnswerWalk(chain, expired), Some(WriteWalking(wr, base))) =>
      WriteAfterWalkSwap(w, n, wr, base, chain, expired);
    case (AnswerPublish(ok), Some(Publishing(wr, existing, chain, install))) =>
      WriteAfterPublishSwap(w, n, wr, existing, chain, install, ok);
    case _ =>
      assert n'.receipts == n.receipts;
      StoreKeepsReceipts(w, n, n');
  }

  lemma {:induction false} RunsSwap(w: Wire, actions: seq<Action>)
    requires Sound(w)
    ensures SwapOk(w, RunAll(w, FRESH_NODE, actions))
  {
    hide Step, SlotOk, Advances;
    if actions == [] {
    } else {
      var before := actions[..|actions| - 1];
      RunsSwap(w, before);
      FreshNodeIsOk(w);
      RunsKeepTheStore(w, FRESH_NODE, before);
      StepSwap(w, RunAll(w, FRESH_NODE, before), actions[|actions| - 1]);
    }
  }

  /** Two envelopes of different updates with one state hash: a SHA-256 collision. */
  ghost predicate Collide(w: Wire, a: Bytes, b: Bytes) {
    StateHash(w, a).Some? && StateHash(w, a) == StateHash(w, b) && w.looseUpdate(a) != w.looseUpdate(b)
  }

  /** Two receipts of conditional multisignature writes to one key against one expected hash. */
  ghost predicate SameExpectation(w: Wire, a: Receipt, b: Receipt) {
    Guarded(w, a) && Guarded(w, b) && a.write.key == b.write.key && a.write.expected == b.write.expected
  }

  lemma SwapsAreExclusive(w: Wire, n: Node, i: nat, j: nat)
    requires SwapOk(w, n) && i < j < |n.receipts| && SameExpectation(w, n.receipts[i], n.receipts[j])
    ensures n.receipts[i].existing.Some? && n.receipts[j].existing.Some?
    ensures Collide(w, n.receipts[i].existing.value, n.receipts[j].existing.value)
  {
    var a, b := n.receipts[i], n.receipts[j];
    assert Settled(w, n.receipts, i, SlotAt(n, a.write.key));
    assert Settled(w, n.receipts, j, SlotAt(n, b.write.key));
    assert n.receipts[..j][i] == a;
  }

  /**
   Conditional writes are compare-and-swap: in every run, two of them that publish multisignature
   envelopes for one key and both return normally against one expected hash were validated
   against different updates with the same digest.
   */
  lemma CompareAndSwap(w: Wire, actions: seq<Action>)
    requires Sound(w)
    ensures var rs := RunAll(w, FRESH_NODE, actions).receipts;
            forall i, j :: 0 <= i < j < |rs| && SameExpectation(w, rs[i], rs[j]) ==>
              && rs[i].existing.Some? && rs[j].existing.Some?
              && Collide(w, rs[i].existing.value, rs[j].existing.value)
  {
    hide Step, RunAll, Collide, SwapOk, SameExpectation;
    RunsSwap(w, actions);
    var n := RunAll(w, FRESH_NODE, actions);
    forall i, j | 0 <= i < j < |n.receipts| && SameExpectation(w, n.receipts[i], n.receipts[j])
      ensures n.receipts[i].existing.Some? && n.receipts[j].existing.Some?
      ensures Collide(w, n.receipts[i].existing.value, n.receipts[j].existing.value)
    {
      SwapsAreExclusive(w, n, i, j);
    }
  }
}
