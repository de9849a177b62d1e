/**
 What a client sees of one node over a whole run: what completes for a key completes in the order
 of seq.  Reads never go back, not behind an earlier read and not behind a multisignature write
 that returned, and such a write is newer than all of them, whatever the DHT, the peers and the
 interleaved PUTs do.
 */
module ReadYourWrites {
  import opened Basics
  import opened Schema
  import opened RecordValidator
  import opened DurableStore
  import opened DhtValues
  import opened NodeProtocol

  /** All that multisignature writes and reads of this key have returned so far is older than s. */
  ghost predicate SeenBefore(w: Wire, n: Node, k: Bytes, s: nat) {
    && (forall r :: r in n.receipts && w.isMultisignature(r.write.envelope) && r.write.key == k ==>
          SeqIn(w, r.write.envelope) < s)
    && (forall a :: a in n.answers && a.recordKey == k ==> a.seqNo < s)
  }

  predicate Covers(slot: Slot, s: nat) {
    slot.meta.Meta? && s <= slot.meta.seqNo
  }

  /** The accepted seq of a slot, one above it where something is accepted. */
  function Ceiling(slot: Slot): nat {
    if slot.meta.Meta? then slot.meta.seqNo + 1 else 0
  }

  /** Nothing returned for any key is newer than its slot. */
  ghost predicate SlotsCover(w: Wire, n: Node) {
    forall k :: SeenBefore(w, n, k, Ceiling(SlotAt(n, k)))
  }

  /** What the suspended operation still relies on. */
  ghost predicate PendingSees(w: Wire, n: Node) {
    match n.pending
    case Some(WriteWalking(wr, base)) => SeenBefore(w, n, wr.key, SeqIn(w, base) + 1)
    case Some(Publishing(wr, existing, chain, install)) =>
      w.isMultisignature(wr.envelope) ==>
        && SeenBefore(w, n, wr.key, SeqIn(w, wr.envelope))
        && (!install ==> Covers(SlotAt(n, wr.key), SeqIn(w, wr.envelope)))
    case Some(GetWalking(k, fromDht, current)) =>
      && SeenBefore(w, n, k, SeqIn(w, current) + 1)
      && (!fromDht ==> Covers(SlotAt(n, k), SeqIn(w, current)))
    case _ => true
  }

  ghost predicate InOrder(w: Wire, n: Node) {
    SlotsCover(w, n) && PendingSees(w, n)
  }

  ghost predicate ReceiptInOrder(w: Wire, n: Node, r: Receipt) {
    w.isMultisignature(r.write.envelope) ==> SeenBefore(w, n, r.write.key, SeqIn(w, r.write.envelope))
  }

  /** What a step adds to what has been returned: nothing, or one result no older than all of it. */
  ghost predicate AddsInOrder(w: Wire, n: Node, n': Node) {
    || (n'.receipts == n.receipts && n'.answers == n.answers)
    || (n'.answers == n.answers && |n'.receipts| > |n.receipts|
        && n'.receipts == n.receipts + [n'.receipts[|n.receipts|]]
        && ReceiptInOrder(w, n, n'.receipts[|n.receipts|]))
    || (n'.receipts == n.receipts && |n'.answers| > |n.answers|
        && n'.answers == n.answers + [n'.answers[|n.answers|]]
        && var a := n'.answers[|n.answers|]; SeenBefore(w, n, a.recordKey, a.seqNo + 1))
  }

  // ---------- keeping the order ----------

  lemma SeenLess(w: Wire, n: Node, k: Bytes, s: nat, t: nat)
    requires SeenBefore(w, n, k, s) && s <= t
    ensures SeenBefore(w, n, k, t)
  {
  }

  lemma SameSeen(w: Wire, n: Node, n': Node)
    requires n'.receipts == n.receipts && n'.answers == n.answers
    ensures forall k, s :: SeenBefore(w, n', k, s) == SeenBefore(w, n, k, s)
  {
  }

  lemma CeilingRises(w: Wire, k: Bytes, slot: Slot, slot': Slot)
    requires SlotOk(w, k, slot) && Advances(slot, slot')
    ensures Ceiling(slot) <= Ceiling(slot')
    ensures forall s :: Covers(slot, s) ==> Covers(slot', s)
  {
  }

  /** Slots that only advance go on covering what has been returned. */
  lemma StillCovered(w: Wire, n: Node, n': Node)
    requires StoreOk(w, n) && StoreAdvances(w, n, n') && SlotsCover(w, n)
    requires n'.receipts == n.receipts && n'.answers == n.answers
    ensures SlotsCover(w, n')
    ensures forall k :: Ceiling(SlotAt(n, k)) <= Ceiling(SlotAt(n', k))
    ensures forall k, s :: Covers(SlotAt(n, k), s) ==> Covers(SlotAt(n', k), s)
  {
    hide SlotOk, Advances, SeenBefore, Ceiling, Covers;
    forall k
      ensures Ceiling(SlotAt(n, k)) <= Ceiling(SlotAt(n', k)) && SeenBefore(w, n', k, Ceiling(SlotAt(n', k)))
      ensures forall s :: Covers(SlotAt(n, k), s) ==> Covers(SlotAt(n', k), s)
    {
      CeilingRises(w, k, SlotAt(n, k), SlotAt(n', k));
      SameSeen(w, n, n');
      assert SeenBefore(w, n, k, Ceiling(SlotAt(n, k)));
      SeenLess(w, n, k, Ceiling(SlotAt(n, k)), Ceiling(SlotAt(n', k)));
    }
  }

  lemma OneMoreReceipt(w: Wire, n: Node, n': Node, r: Receipt)
    requires SlotsCover(w, n) && n'.slots == n.slots && n'.answers == n.answers && n'.receipts == n.receipts + [r]
    requires w.isMultisignature(r.write.envelope) ==> Covers(SlotAt(n, r.write.key), SeqIn(w, r.write.envelope))
    ensures SlotsCover(w, n')
  {
    forall k ensures SeenBefore(w, n', k, Ceiling(SlotAt(n', k))) {
      assert SlotAt(n', k) == SlotAt(n, k) && SeenBefore(w, n, k, Ceiling(SlotAt(n, k)));
    }
  }

  lemma OneMoreAnswer(w: Wire, n: Node, n': Node, a: IdentityResult)
    requires SlotsCover(w, n) && n'.slots == n.slots && n'.receipts == n.receipts && n'.answers == n.answers + [a]
    requires Covers(SlotAt(n, a.recordKey), a.seqNo)
    ensures SlotsCover(w, n')
  {
    forall k ensures SeenBefore(w, n', k, Ceiling(SlotAt(n', k))) {
      assert SlotAt(n', k) == SlotAt(n, k) && SeenBefore(w, n, k, Ceiling(SlotAt(n, k)));
    }
  }

  /** Whatever is selected is no older than the accepted head, so than anything returned. */
  lemma SelectedSees(w: Wire, n: Node, k: Bytes, raw: Option<Bytes>, existing: Option<Bytes>)
    requires StoreOk(w, n) && SlotsCover(w, n)
    requires SelectNewest(w, raw, SlotAt(n, k).head) == Some(existing)
    ensures existing.Some? ==> SeenBefore(w, n, k, SeqIn(w, existing.value) + 1)
    ensures existing.Some? && existing != raw ==> Covers(SlotAt(n, k), SeqIn(w, existing.value))
    ensures existing.None? ==> SeenBefore(w, n, k, 0)
  {
    hide SeenBefore, HeadProvenance;
    var slot := SlotAt(n, k);
    SlotIsOk(w, n, k);
    assert SeenBefore(w, n, k, Ceiling(slot));
    if slot.head.Some? {
      NewestIsNotOlder(w, raw, slot.head.value);
      SeenLess(w, n, k, Ceiling(slot), SeqIn(w, existing.value) + 1);
    } else if existing.Some? {
      SeenLess(w, n, k, 0, SeqIn(w, existing.value) + 1);
    }
  }

  // ---------- step by step ----------

  lemma WriteValidatedOrder(
    w: Wire, n: Node, wr: Write, existing: Option<Bytes>, chain: Option<seq<Bytes>>, expired: bool)
    requires Sound(w) && StoreOk(w, n) && SlotsCover(w, n)
    requires SeenBefore(w, n, wr.key, if existing.Some? then SeqIn(w, existing.value) + 1 else 0)
    ensures var n' := WriteValidated(w, n, wr, existing, chain, expired); InOrder(w, n') && AddsInOrder(w, n, n')
  {
    hide SlotOk, Advances, IdentityOverwrite, DurableInstall, SeenBefore, StoreOk, StoreAdvances, HeadProvenance,
         ResultFor, Ceiling;
    var n' := WriteValidated(w, n, wr, existing, chain, expired);
    var r := IdentityOverwrite(w, wr.key, wr.envelope, existing, chain);
    WriteValidatedAdvances(w, n, wr, existing, chain, expired);
    StillCovered(w, n, n');
    SameSeen(w, n, n');
    if r.Some? && w.isMultisignature(wr.envelope) {
      if existing.Some? { OverwriteRaisesSeq(w, wr.key, wr.envelope, existing.value, chain); }
      SeenLess(w, n, wr.key, if existing.Some? then SeqIn(w, existing.value) + 1 else 0, SeqIn(w, wr.envelope));
      OverwriteResult(w, wr.key, wr.envelope, existing, chain, r.value);
      var slot' := DurableInstall(w, SlotAt(n, wr.key), wr.envelope, r.value);
      SlotIsOk(w, n, wr.key);
      if slot'.Some? { InstallCovers(w, wr.key, SlotAt(n, wr.key), wr.envelope, r.value, slot'.value); }
    }
  }

  lemma InstallCovers(w: Wire, k: Bytes, slot: Slot, e: Bytes, r: IdentityResult, slot': Slot)
    requires SlotOk(w, k, slot) && ResultFor(w, e, r) && HeadProvenance(w, k, e, StateHistory(r))
    requires DurableInstall(w, slot, e, r) == Some(slot')
    ensures Covers(slot', SeqIn(w, e))
  {
    hide HeadProvenance;
    InstallAdvances(w, k, slot, e, r, slot');
  }

  lemma WriteAfterReadOrder(w: Wire, n: Node, wr: Write, raw: Option<Bytes>, failed: bool, expired: bool)
    requires Sound(w) && StoreOk(w, n) && InOrder(w, n)
    ensures var n' := WriteAfterRead(w, n, wr, raw, failed, expired); InOrder(w, n') && AddsInOrder(w, n, n')
  {
    hide SlotOk, IdentityOverwrite, SelectNewest, SeenBefore, StoreOk, WriteValidated, Ceiling, Covers;
    var dht := if failed then None else raw;
    var slot := SlotAt(n, wr.key);
    var n' := WriteAfterRead(w, n, wr, raw, failed, expired);
    var selected := SelectNewest(w, dht, slot.head);
    SameSeen(w, n, n'.(receipts := n.receipts, answers := n.answers));
    if selected.Some? {
      SelectedSees(w, n, wr.key, dht, selected.value);
      WriteValidatedOrder(w, n, wr, selected.value, HistoryEndingAt(slot.history, selected.value), expired);
    }
    if n'.slots == n.slots && n'.receipts == n.receipts && n'.answers == n.answers { SameCover(w, n, n'); }
  }

  lemma SameCover(w: Wire, n: Node, n': Node)
    requires SlotsCover(w, n) && n'.slots == n.slots && n'.receipts == n.receipts && n'.answers == n.answers
    ensures SlotsCover(w, n')
  {
    forall k ensures SeenBefore(w, n', k, Ceiling(SlotAt(n', k))) {
      assert SlotAt(n', k) == SlotAt(n, k) && SeenBefore(w, n, k, Ceiling(SlotAt(n, k)));
    }
  }

  lemma WriteAfterWalkOrder(w: Wire, n: Node, wr: Write, base: Bytes, chain: Option<seq<Bytes>>, expired: bool)
    requires Sound(w) && StoreOk(w, n) && InOrder(w, n) && n.pending == Some(WriteWalking(wr, base))
    ensures var n' := WriteAfterWalk(w, n, wr, base, chain, expired); InOrder(w, n') && AddsInOrder(w, n, n')
  {
    hide SeenBefore, StoreOk, WriteValidated, Ceiling, Covers, PredecessorHash;
    WriteValidatedOrder(w, n, wr, Some(base), chain, expired);
    SameCover(w, n, Abort(n));
  }

  lemma WriteAfterPublishOrder(
    w: Wire, n: Node, wr: Write, existing: Option<Bytes>, chain: Option<seq<Bytes>>, install: bool, ok: bool)
    requires Sound(w) && StoreOk(w, n) && InOrder(w, n) && n.pending == Some(Publishing(wr, existing, chain, install))
    ensures var n' := WriteAfterPublish(w, n, wr, existing, chain, install, ok);
            InOrder(w, n') && AddsInOrder(w, n, n')
  {
    hide SlotOk, Advances, IdentityOverwrite, DurableInstall, SeenBefore, StoreOk, StoreAdvances, HeadProvenance,
         ResultFor, Ceiling, SlotsCover;
    var n' := WriteAfterPublish(w, n, wr, existing, chain, install, ok);
    var stored := n'.(receipts := n.receipts);
    WriteAfterPublishAdvances(w, n, wr, existing, chain, install, ok);
    SameSlots(w, n, n', stored);
    StillCovered(w, n, stored);
    if n'.receipts != n.receipts {
      if install {
        var r := IdentityOverwrite(w, wr.key, wr.envelope, existing, chain).value;
        OverwriteResult(w, wr.key, wr.envelope, existing, chain, r);
        SlotIsOk(w, n, wr.key);
        InstallCovers(w, wr.key, SlotAt(n, wr.key), wr.envelope, r,
                      DurableInstall(w, SlotAt(n, wr.key), wr.envelope, r).value);
      }
      OneMoreReceipt(w, stored, n', Receipt(wr, existing));
    } else {
      SameCover(w, stored, n');
    }
  }

  lemma CacheCovers(w: Wire, k: Bytes, slot: Slot, e: Bytes, r: IdentityResult, chain: Option<seq<Bytes>>)
    requires SlotOk(w, k, slot)
    ensures Covers(DurableCache(w, slot, e, r, chain), r.seqNo)
  {
    hide HeadProvenance;
  }

  lemma ReadNames(w: Wire, k: Bytes, e: Bytes, chain: Option<seq<Bytes>>)
    requires Sound(w) && IdentityGet(w, k, e, chain).Some?
    ensures var r := IdentityGet(w, k, e, chain).value; r.recordKey == k && r.seqNo == SeqIn(w, e)
  {
    GetResult(w, k, e, chain, IdentityGet(w, k, e, chain).value);
  }

  /** A read that returns `current`, cached first if the DHT had it. */
  lemma CacheReadOrder(
    w: Wire, n: Node, k: Bytes, current: Bytes, fromDht: bool, r: IdentityResult, chain: Option<seq<Bytes>>)
    requires Sound(w) && StoreOk(w, n) && SlotsCover(w, n) && IdentityGet(w, k, current, chain) == Some(r)
    requires SeenBefore(w, n, k, SeqIn(w, current) + 1)
    requires !fromDht ==> Covers(SlotAt(n, k), SeqIn(w, current))
    ensures var n' := CacheRead(w, n, k, current, fromDht, r, chain); InOrder(w, n') && AddsInOrder(w, n, n')
  {
    hide SlotOk, Advances, IdentityGet, DurableCache, SeenBefore, StoreOk, StoreAdvances, Ceiling, Covers, SlotsCover;
    var n' := CacheRead(w, n, k, current, fromDht, r, chain);
    var stored := n'.(answers := n.answers);
    ReadNames(w, k, current, chain);
    CacheAdvances(w, n, stored, k, current, r, chain);
    StillCovered(w, n, stored);
    SlotIsOk(w, n, k);
    CacheCovers(w, k, SlotAt(n, k), current, r, chain);
    OneMoreAnswer(w, stored, n', r);
  }

  lemma GetAfterReadOrder(w: Wire, n: Node, k: Bytes, raw: Option<Bytes>)
    requires Sound(w) && StoreOk(w, n) && InOrder(w, n)
    ensures var n' := GetAfterRead(w, n, k, raw); InOrder(w, n') && AddsInOrder(w, n, n')
  {
    hide SlotOk, IdentityGet, SelectNewest, HistoryToCurrent, SeenBefore, StoreOk, Ceiling, Covers, SlotsCover,
         CacheRead;
    var n', slot := GetAfterRead(w, n, k, raw), SlotAt(n, k);
    var selected := SelectNewest(w, raw, slot.head);
    SameSeen(w, n, n'.(receipts := n.receipts, answers := n.answers));
    if selected.Some? {
      SelectedSees(w, n, k, raw, selected.value);
      if selected.value.Some? {
        var e := selected.value.value;
        var chain := HistoryToCurrent(slot.history, slot.head, Some(e));
        if IdentityGet(w, k, e, chain).Some? {
          CacheReadOrder(w, n, k, e, raw == Some(e), IdentityGet(w, k, e, chain).value, chain);
          return;
        }
      }
    }
    SameCover(w, n, n');
  }

  lemma GetAfterWalkOrder(w: Wire, n: Node, k: Bytes, fromDht: bool, current: Bytes, chain: Option<seq<Bytes>>)
    requires Sound(w) && StoreOk(w, n) && InOrder(w, n) && n.pending == Some(GetWalking(k, fromDht, current))
    ensures var n' := GetAfterWalk(w, n, k, fromDht, current, chain); InOrder(w, n') && AddsInOrder(w, n, n')
  {
    hide IdentityGet, SeenBefore, StoreOk, Ceiling, Covers, SlotsCover, CacheRead;
    if chain.Some? && IdentityGet(w, k, current, chain).Some? {
      CacheReadOrder(w, n, k, current, fromDht, IdentityGet(w, k, current, chain).value, chain);
    } else {
      SameCover(w, n, Abort(n));
    }
  }

  /** A step that takes no lock returns nothing, and only advances the slots. */
  lemma UnlockedOrder(w: Wire, n: Node, n': Node)
    requires StoreOk(w, n) && StoreAdvances(w, n, n') && InOrder(w, n)
    requires n'.receipts == n.receipts && n'.answers == n.answers && n'.pending == n.pending
    ensures InOrder(w, n') && AddsInOrder(w, n, n')
  {
    hide SeenBefore, StoreOk, StoreAdvances, Ceiling, Covers, SlotsCover;
    StillCovered(w, n, n');
    SameSeen(w, n, n');
  }

  lemma StepOrder(w: Wire, n: Node, a: Action)
    requires Sound(w) && StoreOk(w, n) && InOrder(w, n)
    ensures InOrder(w, Step(w, n, a)) && AddsInOrder(w, n, Step(w, n, a))
  {
    hide SlotsCover, StoreAdvances, StoreOk, WriteAfterRead, WriteAfterWalk, WriteAfterPublish, GetAfterRead,
         GetAfterWalk, IdentityGet, IdentityOverwrite, SelectNewest, DurableInstall, DurableCache, HistoryToCurrent,
         SeenBefore, Covers;
    var n' := Step(w, n, a);
    StepAdvances(w, n, a);
    match (a, n.pending)
    case (AnswerRead(raw, failed, expired), Some(WriteReading(wr))) =>
      WriteAfterReadOrder(w, n, wr, raw, failed, expired);
    case (AnswerRead(raw, failed, expired), Some(GetReading(k))) =>
      GetAfterReadOrder(w, n, k, if failed then None else raw);
    case (AnswerWalk(chain, expired), Some(WriteWalking(wr, base))) =>
      WriteAfterWalkOrder(w, n, wr, base, chain, expired);
    case (AnswerWalk(chain, expired), Some(GetWalking(k, fromDht, current))) =>
      GetAfterWalkOrder(w, n, k, fromDht, current, chain);
    case (AnswerPublish(ok), Some(Publishing(wr, existing, chain, install))) =>
      WriteAfterPublishOrder(w, n, wr, existing, chain, install, ok);
    case (StartWrite(wr), None) => SameCover(w, n, n');
    case (StartGet(k), None) => SameCover(w, n, n');
    case _ => UnlockedOrder(w, n, n');
  }

  lemma {:induction false} RunOrdered(w: Wire, actions: seq<Action>)
    requires Sound(w)
    ensures InOrder(w, RunAll(w, FRESH_NODE, actions)) && StoreOk(w, RunAll(w, FRESH_NODE, actions))
  {
    hide Step, StoreOk;
    FreshNodeIsOk(w);
    RunsKeepTheStore(w, FRESH_NODE, actions);
    if actions == [] {
    } else {
      var last := |actions| - 1;
      RunOrdered(w, actions[..last]);
      StepOrder(w, RunAll(w, FRESH_NODE, actions[..last]), actions[last]);
    }
  }

  // ---------- whole runs ----------

  /**
   Session order: at any point of a run, whatever the next step returns is no older than all that
   was returned for its key before.  A read has at least the seq of every earlier read and of every
   earlier multisignature write, and a multisignature write has a larger one.
   */
  lemma SessionOrder(w: Wire, actions: seq<Action>, a: Action)
    requires Sound(w)
    ensures AddsInOrder(w, RunAll(w, FRESH_NODE, actions), RunAll(w, FRESH_NODE, actions + [a]))
  {
    hide Step, StoreOk, InOrder, AddsInOrder;
    RunOrdered(w, actions);
    assert (actions + [a])[..|actions|] == actions;
    StepOrder(w, RunAll(w, FRESH_NODE, actions), a);
  }

  /** Reads of one key never go back. */
  lemma {:induction false} MonotonicReads(w: Wire, actions: seq<Action>, i: nat, j: nat)
    requires Sound(w) && i < j < |RunAll(w, FRESH_NODE, actions).answers|
    requires var rs := RunAll(w, FRESH_NODE, actions).answers; rs[i].recordKey == rs[j].recordKey
    ensures var rs := RunAll(w, FRESH_NODE, actions).answers; rs[i].seqNo <= rs[j].seqNo
  {
    hide Step;
    var last := |actions| - 1;
    var before := RunAll(w, FRESH_NODE, actions[..last]);
    SessionOrder(w, actions[..last], actions[last]);
    assert actions[..last] + [actions[last]] == actions;
    if j < |before.answers| {
      MonotonicReads(w, actions[..last], i, j);
    } else {
      assert before.answers[i] in before.answers;
    }
  }

  /** A read that returns after a multisignature write returned is at least as new as what was written. */
  lemma {:induction false} ReadsSeeWrites(w: Wire, before: seq<Action>, after: seq<Action>, i: nat, j: nat)
    requires Sound(w)
    requires i < |RunAll(w, FRESH_NODE, before).receipts|
    requires |RunAll(w, FRESH_NODE, before).answers| <= j < |RunAll(w, FRESH_NODE, before + after).answers|
    requires var r, a := RunAll(w, FRESH_NODE, before).receipts[i], RunAll(w, FRESH_NODE, before + after).answers[j];
             r.write.key == a.recordKey && w.isMultisignature(r.write.envelope)
    ensures SeqIn(w, RunAll(w, FRESH_NODE, before).receipts[i].write.envelope)
            <= RunAll(w, FRESH_NODE, before + after).answers[j].seqNo
    decreases |after|
  {
    hide Step;
    assert after == [] ==> before + after == before;
    if after != [] {
      var last := |after| - 1;
      var middle := before + after[..last];
      assert middle + [after[last]] == before + after;
      SessionOrder(w, middle, after[last]);
      ReceiptsStay(w, before, after[..last], i);
      if j < |RunAll(w, FRESH_NODE, middle).answers| {
        ReadsSeeWrites(w, before, after[..last], i, j);
      }
    }
  }

  /** What has been recorded stays recorded. */
  lemma {:induction false} ReceiptsStay(w: Wire, before: seq<Action>, after: seq<Action>, i: nat)
    requires Sound(w) && i < |RunAll(w, FRESH_NODE, before).receipts|
    ensures RunAll(w, FRESH_NODE, before).receipts[i] in RunAll(w, FRESH_NODE, before + after).receipts
    decreases |after|
  {
    hide Step;
    if after == [] {
      assert before + after == before;
    } else {
      var last := |after| - 1;
      var middle := before + after[..last];
      assert middle + [after[last]] == before + after;
      ReceiptsStay(w, before, after[..last], i);
      SessionOrder(w, middle, after[last]);
    }
  }

  /** Every multisignature write that returned, conditional or not, is in the store or behind something newer. */
  lemma WritesAreKept(w: Wire, actions: seq<Action>, i: nat)
    requires Sound(w) && i < |RunAll(w, FRESH_NODE, actions).receipts|
    requires w.isMultisignature(RunAll(w, FRESH_NODE, actions).receipts[i].write.envelope)
    ensures var n := RunAll(w, FRESH_NODE, actions);
            var wr := n.receipts[i].write;
            && SlotAt(n, wr.key).head.Some? && SlotAt(n, wr.key).meta.Meta?
            && SeqIn(w, wr.envelope) <= SlotAt(n, wr.key).meta.seqNo
  {
    hide HeadProvenance;
    RunOrdered(w, actions);
    var n := RunAll(w, FRESH_NODE, actions);
    var k := n.receipts[i].write.key;
    assert n.receipts[i] in n.receipts;
    assert SeenBefore(w, n, k, Ceiling(SlotAt(n, k)));
    SlotIsOk(w, n, k);
  }
}
