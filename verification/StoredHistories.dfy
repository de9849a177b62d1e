/** In every run of a node, a history stored for a key ends at the accepted head of that key. */
module StoredHistories {
  import opened Basics
  import opened Schema
  import opened RecordValidator
  import opened Acceptance
  import opened DurableStore
  import opened DhtValues
  import opened NodeProtocol

  /** A stored history ends at the head, also where the head is a single-key one. */
  ghost predicate Ends(slot: Slot) {
    slot.head.Some? && slot.history.Some? ==> EndsAt(slot.history.value, slot.head.value)
  }

  /** A read only walks for a single-key value that no chain would make readable. */
  ghost predicate WalkIsFutile(w: Wire, n: Node) {
    match n.pending
    case Some(GetWalking(k, _, current)) => !w.isMultisignature(current) ==> IdentityGet(w, k, current, None).None?
    case _ => true
  }

  ghost predicate HistoriesEnd(w: Wire, n: Node) {
    (forall k :: Ends(SlotAt(n, k))) && WalkIsFutile(w, n)
  }

  lemma SingleKeyIgnoresChain(w: Wire, k: Bytes, e: Bytes, chain: Option<seq<Bytes>>)
    requires !w.isMultisignature(e)
    ensures IdentityGet(w, k, e, chain) == IdentityGet(w, k, e, None)
  {
  }

  lemma ToCurrentEnds(history: Option<seq<Bytes>>, local: Option<Bytes>, e: Bytes)
    ensures var chain := HistoryToCurrent(history, local, Some(e)); chain.Some? ==> EndsAt(chain.value, e)
  {
  }

  lemma InstallEnds(w: Wire, k: Bytes, slot: Slot, e: Bytes, existing: Option<Bytes>, chain: Option<seq<Bytes>>)
    requires Sound(w) && Ends(slot) && IdentityOverwrite(w, k, e, existing, chain).Some?
    ensures var slot' := DurableInstall(w, slot, e, IdentityOverwrite(w, k, e, existing, chain).value);
            slot'.Some? ==> Ends(slot'.value)
  {
    hide HeadProvenance, Accepts, ResultHash;
    var r := IdentityOverwrite(w, k, e, existing, chain).value;
    OverwriteEnds(w, k, e, existing, chain, r);
  }

  lemma OverwriteEnds(
    w: Wire, k: Bytes, e: Bytes, existing: Option<Bytes>, chain: Option<seq<Bytes>>, r: IdentityResult)
    requires Sound(w) && IdentityOverwrite(w, k, e, existing, chain) == Some(r)
    ensures StateHistory(r).Some? ==> EndsAt(StateHistory(r).value, e)
  {
    hide GoodHistory, LegacyRecord, UpgradeRecord, IdentityOverwrite;
    IdentityWriteExactly(w, k, e, existing, chain);
  }

  lemma CacheEnds(w: Wire, slot: Slot, e: Bytes, r: IdentityResult, chain: Option<seq<Bytes>>)
    requires Ends(slot) && (chain.Some? ==> EndsAt(chain.value, e))
    ensures Ends(DurableCache(w, slot, e, r, chain))
  {
  }

  lemma OneSlotEnds(w: Wire, n: Node, n': Node, k: Bytes, slot: Slot)
    requires HistoriesEnd(w, n) && n'.slots == n.slots[k := slot] && Ends(slot) && WalkIsFutile(w, n')
    ensures HistoriesEnd(w, n')
  {
    hide Ends;
    forall k' ensures Ends(SlotAt(n', k')) {
      if k' != k { assert SlotAt(n', k') == SlotAt(n, k'); }
    }
  }

  lemma SameSlotsEnd(w: Wire, n: Node, n': Node)
    requires HistoriesEnd(w, n) && n'.slots == n.slots && WalkIsFutile(w, n')
    ensures HistoriesEnd(w, n')
  {
    forall k ensures SlotAt(n', k) == SlotAt(n, k) {
    }
  }

  lemma WriteValidatedEnds(
    w: Wire, n: Node, wr: Write, existing: Option<Bytes>, chain: Option<seq<Bytes>>, expired: bool)
    requires Sound(w) && HistoriesEnd(w, n)
    ensures HistoriesEnd(w, WriteValidated(w, n, wr, existing, chain, expired))
  {
    hide Ends, IdentityOverwrite, IdentityGet, DurableInstall;
    var n' := WriteValidated(w, n, wr, existing, chain, expired);
    var r := IdentityOverwrite(w, wr.key, wr.envelope, existing, chain);
    if r.Some? {
      InstallEnds(w, wr.key, SlotAt(n, wr.key), wr.envelope, existing, chain);
      var slot' := DurableInstall(w, SlotAt(n, wr.key), wr.envelope, r.value);
      if slot'.Some? && n'.slots == n.slots[wr.key := slot'.value] {
        OneSlotEnds(w, n, n', wr.key, slot'.value);
        return;
      }
    }
    SameSlotsEnd(w, n, n');
  }

  lemma WriteAfterReadEnds(w: Wire, n: Node, wr: Write, raw: Option<Bytes>, failed: bool, expired: bool)
    requires Sound(w) && HistoriesEnd(w, n)
    ensures HistoriesEnd(w, WriteAfterRead(w, n, wr, raw, failed, expired))
  {
    hide Ends, IdentityOverwrite, IdentityGet, SelectNewest, WriteValidated;
    var n' := WriteAfterRead(w, n, wr, raw, failed, expired);
    var slot := SlotAt(n, wr.key);
    var existing := SelectNewest(w, if failed then None else raw, slot.head);
    if existing.Some? {
      WriteValidatedEnds(w, n, wr, existing.value, HistoryEndingAt(slot.history, existing.value), expired);
    }
    if n'.slots == n.slots && WalkIsFutile(w, n') { SameSlotsEnd(w, n, n'); }
  }

  lemma WriteAfterPublishEnds(
    w: Wire, n: Node, wr: Write, existing: Option<Bytes>, chain: Option<seq<Bytes>>, install: bool, ok: bool)
    requires Sound(w) && HistoriesEnd(w, n)
    ensures HistoriesEnd(w, WriteAfterPublish(w, n, wr, existing, chain, install, ok))
  {
    hide Ends, IdentityOverwrite, IdentityGet, DurableInstall;
    var n' := WriteAfterPublish(w, n, wr, existing, chain, install, ok);
    var r := IdentityOverwrite(w, wr.key, wr.envelope, existing, chain);
    if r.Some? {
      InstallEnds(w, wr.key, SlotAt(n, wr.key), wr.envelope, existing, chain);
      var slot' := DurableInstall(w, SlotAt(n, wr.key), wr.envelope, r.value);
      if slot'.Some? && n'.slots == n.slots[wr.key := slot'.value] {
        OneSlotEnds(w, n, n', wr.key, slot'.value);
        return;
      }
    }
    SameSlotsEnd(w, n, n');
  }

  lemma GetAfterReadEnds(w: Wire, n: Node, k: Bytes, raw: Option<Bytes>)
    requires Sound(w) && HistoriesEnd(w, n)
    ensures HistoriesEnd(w, GetAfterRead(w, n, k, raw))
  {
    hide Ends, IdentityGet, SelectNewest, HistoryToCurrent, DurableCache;
    var n', slot := GetAfterRead(w, n, k, raw), SlotAt(n, k);
    var current := SelectNewest(w, raw, slot.head);
    if current.Some? && current.value.Some? {
      var e := current.value.value;
      var chain := HistoryToCurrent(slot.history, slot.head, Some(e));
      ToCurrentEnds(slot.history, slot.head, e);
      if !w.isMultisignature(e) { SingleKeyIgnoresChain(w, k, e, chain); }
      var r := IdentityGet(w, k, e, chain);
      if r.Some? {
        CacheEnds(w, slot, e, r.value, chain);
        if n'.slots == n.slots[k := DurableCache(w, slot, e, r.value, chain)] {
          OneSlotEnds(w, n, n', k, DurableCache(w, slot, e, r.value, chain));
          return;
        }
      }
    }
    SameSlotsEnd(w, n, n');
  }

  lemma GetAfterWalkEnds(w: Wire, n: Node, k: Bytes, fromDht: bool, current: Bytes, chain: Option<seq<Bytes>>)
    requires Sound(w) && HistoriesEnd(w, n) && n.pending == Some(GetWalking(k, fromDht, current))
    ensures HistoriesEnd(w, GetAfterWalk(w, n, k, fromDht, current, chain))
  {
    hide Ends, IdentityGet, DurableCache;
    var n' := GetAfterWalk(w, n, k, fromDht, current, chain);
    var r := IdentityGet(w, k, current, chain);
    if chain.Some? && r.Some? {
      if !w.isMultisignature(current) { SingleKeyIgnoresChain(w, k, current, chain); }
      ReadThroughItsEnd(w, k, current, chain);
      CacheEnds(w, SlotAt(n, k), current, r.value, chain);
      if n'.slots == n.slots[k := DurableCache(w, SlotAt(n, k), current, r.value, chain)] {
        OneSlotEnds(w, n, n', k, DurableCache(w, SlotAt(n, k), current, r.value, chain));
        return;
      }
    }
    SameSlotsEnd(w, n, n');
  }

  lemma ReadThroughItsEnd(w: Wire, k: Bytes, e: Bytes, chain: Option<seq<Bytes>>)
    requires w.isMultisignature(e) && IdentityGet(w, k, e, chain).Some?
    ensures chain.Some? ==> EndsAt(chain.value, e)
  {
  }

  lemma IncomingEnds(w: Wire, n: Node, k: Bytes, e: Bytes, raw: Option<Bytes>, stored: bool)
    requires Sound(w) && HistoriesEnd(w, n)
    ensures HistoriesEnd(w, AcceptIncoming(w, n, k, e, raw, stored))
  {
    hide Ends, IdentityOverwrite, IdentityGet, DurableInstall, SelectNewest;
    var n', slot := AcceptIncoming(w, n, k, e, raw, stored), SlotAt(n, k);
    var existing := SelectNewest(w, raw, slot.head);
    if existing.Some? {
      var chain := HistoryEndingAt(slot.history, existing.value);
      var r := IdentityOverwrite(w, k, e, existing.value, chain);
      if r.Some? {
        InstallEnds(w, k, slot, e, existing.value, chain);
        var slot' := DurableInstall(w, slot, e, r.value);
        if slot'.Some? && n'.slots == n.slots[k := slot'.value] {
          OneSlotEnds(w, n, n', k, slot'.value);
          return;
        }
      }
    }
    SameSlotsEnd(w, n, n');
  }

  lemma ConfirmEnds(w: Wire, n: Node, k: Bytes, name: Bytes, expected: Bytes, remote: Option<Bytes>)
    requires Sound(w) && HistoriesEnd(w, n)
    ensures HistoriesEnd(w, Confirm(w, n, k, name, expected, remote))
  {
    hide Ends, IdentityGet, HistoryToCurrent, DurableCache;
    var n', slot := Confirm(w, n, k, name, expected, remote), SlotAt(n, k);
    var r := Confirmed(w, n, k, name, expected, remote);
    if r.Some? {
      var chain := HistoryToCurrent(slot.history, slot.head, remote);
      ToCurrentEnds(slot.history, slot.head, expected);
      CacheEnds(w, slot, expected, r.value, chain);
      OneSlotEnds(w, n, n', k, DurableCache(w, slot, expected, r.value, chain));
    } else {
      SameSlotsEnd(w, n, n');
    }
  }

  lemma StepEnds(w: Wire, n: Node, a: Action)
    requires Sound(w) && HistoriesEnd(w, n)
    ensures HistoriesEnd(w, Step(w, n, a))
  {
    hide Ends, HistoriesEnd, WriteAfterRead, WriteAfterWalk, WriteAfterPublish, GetAfterRead, GetAfterWalk,
         AcceptIncoming, Confirm, IdentityGet;
    match (a, n.pending)
    case (AnswerRead(raw, failed, expired), Some(WriteReading(wr))) =>
      WriteAfterReadEnds(w, n, wr, raw, failed, expired);
    case (AnswerRead(raw, failed, expired), Some(GetReading(k))) =>
      GetAfterReadEnds(w, n, k, if failed then None else raw);
    case (AnswerWalk(chain, expired), Some(WriteWalking(wr, base))) =>
      WriteAfterWalkEnds(w, n, wr, base, chain, expired);
    case (AnswerWalk(chain, expired), Some(GetWalking(k, fromDht, current))) =>
      GetAfterWalkEnds(w, n, k, fromDht, current, chain);
    case (AnswerPublish(ok), Some(Publishing(wr, existing, chain, install))) =>
      WriteAfterPublishEnds(w, n, wr, existing, chain, install, ok);
    case (IncomingPut(k, e, raw, stored), _) => IncomingEnds(w, n, k, e, raw, stored);
    case (ConfirmRotation(k, name, expected, remote), _) => ConfirmEnds(w, n, k, name, expected, remote);
    case (StartWrite(wr), None) => SameSlotsEnd(w, n, Step(w, n, a));
    case (StartGet(k), None) => SameSlotsEnd(w, n, Step(w, n, a));
    case _ =>
  }

  lemma WriteAfterWalkEnds(w: Wire, n: Node, wr: Write, base: Bytes, chain: Option<seq<Bytes>>, expired: bool)
    requires Sound(w) && HistoriesEnd(w, n)
    ensures HistoriesEnd(w, WriteAfterWalk(w, n, wr, base, chain, expired))
  {
    hide Ends, WriteValidated, PredecessorHash, IdentityGet;
    WriteValidatedEnds(w, n, wr, Some(base), chain, expired);
    SameSlotsEnd(w, n, Abort(n));
  }

  /** In every run, a history stored for a key ends at the accepted head of that key. */
  lemma {:induction false} StoredHistoriesEnd(w: Wire, actions: seq<Action>)
    requires Sound(w)
    ensures HistoriesEnd(w, RunAll(w, FRESH_NODE, actions))
  {
    hide Step;
    if actions == [] {
    } else {
      var last := |actions| - 1;
      StoredHistoriesEnd(w, actions[..last]);
      StepEnds(w, RunAll(w, FRESH_NODE, actions[..last]), actions[last]);
    }
  }
}
