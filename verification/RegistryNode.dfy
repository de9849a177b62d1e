/**
 The node as an object over its durable store.  Each method is the code between two awaits, and
 does to the store exactly what `NodeProtocol.Step` says.
 */
module RegistryNode {
  import opened Basics
  import opened Schema
  import opened RecordValidator
  import opened DurableStore
  import opened DhtValues
  import opened NodeProtocol

  lemma ResultHashLength(w: Wire, e: Bytes, r: IdentityResult)
    requires Sound(w) && ResultFor(w, e, r)
    ensures |ResultHash(w, r, e)| == 32
  {
  }

  class Libp2pKadDht {
    const w: Wire
    const store: LmdbDatastore
    var pending: Option<Pending>
    ghost var model: Node

    /** `model` is this object and its store, seen as a value. */
    ghost predicate Valid()
      reads this, store
    {
      && Sound(w) && store.w == w
      && StoreOk(w, model)
      && model.pending == pending
      && forall k :: SlotAt(model, k) == store.SlotOf(IdentityRecords, k)
    }

    constructor (w: Wire, store: LmdbDatastore)
      requires Sound(w) && store.w == w
      requires forall k :: store.SlotOf(IdentityRecords, k) == EMPTY_SLOT
      ensures Valid() && this.w == w && this.store == store && model == FRESH_NODE
    {
      this.w, this.store := w, store;
      pending, model := None, FRESH_NODE;
    }

    method DurableGet(k: Bytes) returns (head: Option<Bytes>, history: Option<seq<Bytes>>)
      requires Valid()
      ensures head == SlotAt(model, k).head && history == SlotAt(model, k).history
    {
      head := store.Get(IdentityRecords, k);
      history := store.GetHistory(IdentityRecords, k);
    }

    /** _durable_install: ok is false where it raises. */
    method Install(k: Bytes, e: Bytes, r: IdentityResult) returns (ok: bool)
      requires Valid() && ResultFor(w, e, r)
      requires HeadProvenance(w, k, e, StateHistory(r))
      requires StateHistory(r) != Some([])
      modifies this, store
      ensures Valid() && pending == old(pending)
      ensures ok == DurableInstall(w, SlotAt(old(model), k), e, r).Some?
      ensures model == if ok then SetSlot(old(model), k, DurableInstall(w, SlotAt(old(model), k), e, r).value)
                       else old(model)
    {
      hide SlotOk, Advances, HeadProvenance, StoreOk, ResultFor, ResultHash, LooseSeqOf, Sound;
      ResultHashLength(w, e, r);
      assert SlotOk(w, k, SlotAt(model, k)) by { SlotIsOk(w, model, k); }
      var head := store.Get(IdentityRecords, k);
      var slot' := DurableInstall(w, SlotAt(model, k), e, r);
      if slot'.Some? {
        InstallAdvances(w, k, SlotAt(model, k), e, r, slot'.value);
        OneSlotAdvances(w, model, SetSlot(model, k, slot'.value), k, slot'.value);
      }
      if head == Some(e) {
        ok := true;
      } else {
        var done := store.PutIfNewer(IdentityRecords, k, e, r.seqNo, ResultHash(w, r, e), StateHistory(r));
        ok := done == Some(true);
      }
      if ok { model := SetSlot(model, k, slot'.value); }
    }

    /** _durable_cache. */
    method Cache(k: Bytes, e: Bytes, r: IdentityResult, chain: Option<seq<Bytes>>)
      requires Valid() && ResultFor(w, e, r) && chain != Some([])
      requires HeadProvenance(w, k, e, chain)
      modifies this, store
      ensures Valid() && pending == old(pending)
      ensures model == SetSlot(old(model), k, DurableCache(w, SlotAt(old(model), k), e, r, chain))
    {
      hide SlotOk, Advances, HeadProvenance, StoreOk, ResultFor, ResultHash, LooseSeqOf, Sound;
      ResultHashLength(w, e, r);
      assert SlotOk(w, k, SlotAt(model, k)) by { SlotIsOk(w, model, k); }
      var slot' := DurableCache(w, SlotAt(model, k), e, r, chain);
      InstallKeepsSlot(w, k, SlotAt(model, k), e, r, chain);
      OneSlotAdvances(w, model, SetSlot(model, k, slot'), k, slot');
      var _ := store.PutIfNewer(IdentityRecords, k, e, r.seqNo, ResultHash(w, r, e), chain);
      model := SetSlot(model, k, slot');
    }

    /** The value-store hook on an incoming PUT; `stored` tells whether the DHT value store took it. */
    method AcceptIncomingPut(k: Bytes, e: Bytes, raw: Option<Bytes>, stored: bool) returns (accepted: bool)
      requires Valid()
      modifies this, store
      ensures Valid() && model == Step(w, old(model), IncomingPut(k, e, raw, stored))
      ensures if accepted then SlotAt(model, k).head == Some(e) else model == old(model)
    {
      hide StoreOk, SelectNewest, IdentityOverwrite, HeadProvenance, ResultFor;
      var head, history := DurableGet(k);
      var selected := SelectNewest(w, raw, head);
      if selected.None? || selected.value == Some(e) { return false; }
      var chain := HistoryEndingAt(history, selected.value);
      var r := IdentityOverwrite(w, k, e, selected.value, chain);
      if r.None? || !stored { return false; }
      OverwriteResult(w, k, e, selected.value, chain, r.value);
      accepted := Install(k, e, r.value);
    }

    /** Taking the lock for a write. */
    method BeginWrite(wr: Write)
      requires Valid()
      modifies this
      ensures Valid() && model == Step(w, old(model), StartWrite(wr))
    {
      if pending.None? {
        Suspend(WriteReading(wr));
      }
    }

    /** A suspended write resumes with the DHT's answer. */
    method ResumeWriteAfterRead(wr: Write, raw: Option<Bytes>, failed: bool, expired: bool)
      requires Valid() && pending == Some(WriteReading(wr))
      modifies this, store
      ensures Valid() && model == Step(w, old(model), AnswerRead(raw, failed, expired))
    {
      var dht := if failed then None else raw;
      if failed && wr.expected.Some? { Release(); return; }
      var head, history := DurableGet(wr.key);
      var selected := SelectNewest(w, dht, head);
      if selected.None? { Release(); return; }
      var existing := selected.value;
      if !PreconditionHolds(w, wr, existing) { Release(); return; }
      if !(w.isMultisignature(wr.envelope) || IsMultisignature(w, dht) || IsMultisignature(w, head)) {
        var r := IdentityOverwrite(w, wr.key, wr.envelope, existing, None);
        if r.None? || (wr.expected.Some? && expired) { Release(); return; }
        Suspend(Publishing(wr, existing, None, true));
        return;
      }
      var chain := HistoryEndingAt(history, existing);
      if chain.None? && existing.Some? {
        Suspend(WriteWalking(wr, existing.value));
      } else {
        Validate(wr, existing, chain, expired);
      }
    }

    /** A suspended write resumes with the chain a remote walk returned, if any. */
    method ResumeWriteAfterWalk(wr: Write, base: Bytes, chain: Option<seq<Bytes>>, expired: bool)
      requires Valid() && pending == Some(WriteWalking(wr, base))
      modifies this, store
      ensures Valid() && model == Step(w, old(model), AnswerWalk(chain, expired))
    {
      hide StoreOk, WriteValidated, PredecessorHash;
      var predecessor := PredecessorHash(w, base);
      if chain.None? && predecessor.Some? && predecessor.value.Some? {
        Release();
      } else {
        Validate(wr, Some(base), chain, expired);
      }
    }

    /** Validation, and for an unconditional write the install before publishing. */
    method Validate(wr: Write, existing: Option<Bytes>, chain: Option<seq<Bytes>>, expired: bool)
      requires Valid()
      modifies this, store
      ensures Valid() && model == WriteValidated(w, old(model), wr, existing, chain, expired)
    {
      var r := IdentityOverwrite(w, wr.key, wr.envelope, existing, chain);
      if r.None? { Release(); return; }
      OverwriteResult(w, wr.key, wr.envelope, existing, chain, r.value);
      var multisignature := w.isMultisignature(wr.envelope);
      if wr.expected.Some? {
        if expired { Release(); } else { Suspend(Publishing(wr, existing, chain, multisignature)); }
      } else if multisignature {
        var ok := Install(wr.key, wr.envelope, r.value);
        if ok { Suspend(Publishing(wr, existing, chain, false)); } else { Release(); }
      } else {
        Suspend(Publishing(wr, existing, chain, false));
      }
    }

    /** A suspended write resumes when the DHT put is over; `returned` is a normal return. */
    method ResumeWriteAfterPublish(
      wr: Write, existing: Option<Bytes>, chain: Option<seq<Bytes>>, install: bool, ok: bool)
      returns (returned: bool)
      requires Valid() && pending == Some(Publishing(wr, existing, chain, install))
      modifies this, store
      ensures Valid() && model == Step(w, old(model), AnswerPublish(ok))
      ensures returned <==> model.receipts == old(model.receipts) + [Receipt(wr, existing)]
    {
      if !ok { Release(); return false; }
      if install {
        var r := IdentityOverwrite(w, wr.key, wr.envelope, existing, chain);
        if r.None? { Release(); return false; }
        OverwriteResult(w, wr.key, wr.envelope, existing, chain, r.value);
        var done := Install(wr.key, wr.envelope, r.value);
        if !done { Release(); return false; }
      }
      SameSlotsOk(w, model, Return(model, wr, existing));
      pending, model := None, Return(model, wr, existing);
      returned := true;
    }

    method BeginGet(k: Bytes)
      requires Valid()
      modifies this
      ensures Valid() && model == Step(w, old(model), StartGet(k))
    {
      if pending.None? {
        Suspend(GetReading(k));
      }
    }

    /** A suspended read resumes with the DHT's answer; the result is None while or if unresolved. */
    method ResumeGetAfterRead(k: Bytes, raw: Option<Bytes>) returns (r: Option<IdentityResult>)
      requires Valid() && pending == Some(GetReading(k))
      modifies this, store
      ensures Valid() && model == Step(w, old(model), AnswerRead(raw, false, false))
      ensures model.answers == if r.Some? then old(model.answers) + [r.value] else old(model.answers)
    {
      hide StoreOk, SelectNewest, IdentityGet, HeadProvenance, ResultFor;
      var head, history := DurableGet(k);
      var selected := SelectNewest(w, raw, head);
      if selected.None? || selected.value.None? { Release(); return None; }
      var current := selected.value.value;
      var chain := HistoryToCurrent(history, head, Some(current));
      r := IdentityGet(w, k, current, chain);
      if r.None? {
        Suspend(GetWalking(k, raw == Some(current), current));
      } else {
        GetResult(w, k, current, chain, r.value);
        if raw == Some(current) { Cache(k, current, r.value, chain); }
        Answer(r.value);
      }
    }

    method ResumeGetAfterWalk(k: Bytes, fromDht: bool, current: Bytes, chain: Option<seq<Bytes>>)
      returns (r: Option<IdentityResult>)
      requires Valid() && pending == Some(GetWalking(k, fromDht, current)) && chain != Some([])
      modifies this, store
      ensures Valid() && model == Step(w, old(model), AnswerWalk(chain, false))
      ensures model.answers == if r.Some? then old(model.answers) + [r.value] else old(model.answers)
    {
      if chain.None? { Release(); return None; }
      r := IdentityGet(w, k, current, chain);
      if r.None? {
        Release();
      } else {
        GetResult(w, k, current, chain, r.value);
        if fromDht { Cache(k, current, r.value, chain); }
        Answer(r.value);
      }
    }

    /** confirm_identity_owner_key_rotation after the independent remote read. */
    method ConfirmOwnerKeyRotation(k: Bytes, name: Bytes, expected: Bytes, remote: Option<Bytes>)
      returns (r: Option<IdentityResult>)
      requires Valid() && k == w.sha256(name)
      modifies this, store
      ensures Valid() && model == Step(w, old(model), ConfirmRotation(k, name, expected, remote))
      ensures r == Confirmed(w, old(model), k, name, expected, remote)
    {
      if remote != Some(expected) { return None; }
      var head, history := DurableGet(k);
      var chain := HistoryToCurrent(history, head, remote);
      if chain.None? { return None; }
      r := IdentityGet(w, k, expected, chain);
      if r.None? { return None; }
      if r.value.name != name || r.value.auth.None? || r.value.auth.value.operation != OWNER_KEY_ROTATION {
        return None;
      }
      GetResult(w, k, expected, chain, r.value);
      Cache(k, expected, r.value, chain);
    }

    /** The read under way returns `r`. */
    method Answer(r: IdentityResult)
      requires Valid()
      modifies this
      ensures Valid() && model == old(model).(pending := None, answers := old(model).answers + [r])
    {
      SameSlotsOk(w, model, model.(pending := None, answers := model.answers + [r]));
      pending, model := None, model.(pending := None, answers := model.answers + [r]);
    }

    method Release()
      requires Valid()
      modifies this
      ensures Valid() && pending.None? && model == Abort(old(model))
    {
      SameSlotsOk(w, model, Abort(model));
      pending, model := None, Abort(model);
    }

    method Suspend(p: Pending)
      requires Valid()
      modifies this
      ensures Valid() && pending == Some(p) && model == old(model).(pending := Some(p))
    {
      SameSlotsOk(w, model, model.(pending := Some(p)));
      pending, model := Some(p), model.(pending := Some(p));
    }
  }
}
