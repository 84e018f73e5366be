/**
 The transaction tracker: reference counts of the transactions that are still readable, the
 valid savepoints, and the non-durable commits waiting for a durable one.

 The counts are anonymous in the code.  The ghost map `holders` says who holds each reference;
 `Valid` states that every count is the number of its holders.
 */
module Tracker {
  import opened Ledgers
  import opened Mvcc

  /** The references held on transaction `t`. */
  function Of(holders: map<Holder, Tid>, t: Tid): set<Holder> {
    set h | h in holders && holders[h] == t
  }

  ghost predicate Counts(live: map<Tid, nat>, holders: map<Holder, Tid>) {
    forall t {:trigger Of(holders, t)} :: if t in live then live[t] == |Of(holders, t)| > 0 else Of(holders, t) == {}
  }

  function Incremented(live: map<Tid, nat>, t: Tid): map<Tid, nat> {
    live[t := (if t in live then live[t] else 0) + 1]
  }

  lemma AddReference(live: map<Tid, nat>, holders: map<Holder, Tid>, h: Holder, t: Tid)
    requires Counts(live, holders) && h !in holders
    ensures Counts(Incremented(live, t), holders[h := t])
  {
    var now := holders[h := t];
    forall u
      ensures Of(now, u) == Of(holders, u) + if u == t then {h} else {}
    {
    }
  }

  lemma DropReference(live: map<Tid, nat>, holders: map<Holder, Tid>, h: Holder)
    requires Counts(live, holders) && h in holders
    ensures holders[h] in live && live[holders[h]] > 0
    ensures var t := holders[h];
            Counts(if live[t] == 1 then live - {t} else live[t := live[t] - 1], holders - {h})
  {
    var t := holders[h];
    assert h in Of(holders, t);
    forall u
      ensures Of(holders - {h}, u) == Of(holders, u) - if u == t then {h} else {}
    {
    }
  }

  /** The keys of the count map are the transactions somebody reads. */
  lemma CountsValues(live: map<Tid, nat>, holders: map<Holder, Tid>)
    requires Counts(live, holders)
    ensures live.Keys == holders.Values
  {
    forall t
      ensures t in live.Keys <==> t in holders.Values
    {
      assert t in holders.Values <==> Of(holders, t) != {} by {
        if t in holders.Values {
          var h :| h in holders && holders[h] == t;
          assert h in Of(holders, t);
        }
      }
    }
  }

  ghost predicate PendingMatch(pending: map<Tid, Tid>, holders: map<Holder, Tid>) {
    && (forall t :: t in pending ==> NonDurable(t) in holders && holders[NonDurable(t)] == pending[t])
    && (forall h :: h in holders && h.NonDurable? ==> h.t in pending)
  }

  lemma PendingKeys(pending: map<Tid, Tid>, holders: map<Holder, Tid>)
    requires PendingMatch(pending, holders)
    ensures pending.Keys == Pending(holders)
  {
  }

  /** Savepoint ids and transactions, as the tracker stores them. */
  function Marks(valid: map<SpId, Snapshot>): map<SpId, Tid> {
    map sp | sp in valid :: valid[sp].tid
  }

  ghost predicate Increasing(s: seq<nat>) {
    forall i, j :: 0 <= i < j < |s| ==> s[i] < s[j]
  }

  class TransactionTracker {
    var nextSp: SpId
    var live: map<Tid, nat>
    var nextTid: Tid
    var liveWrite: Option<Tid>
    var valid: map<SpId, Tid>
    var pending: map<Tid, Tid>
    var unprocessed: set<Tid>
    ghost var holders: map<Holder, Tid>

    ghost predicate Valid()
      reads this
    {
      Counts(live, holders) && PendingMatch(pending, holders)
    }

    constructor (next: Tid)
      ensures Valid() && holders == map[] && valid == map[] && unprocessed == {} && liveWrite == None
      ensures nextTid == next && nextSp == 0
    {
      nextSp, live, nextTid, liveWrite, valid, pending, unprocessed := 0, map[], next, None, map[], map[], {};
      holders := map[];
    }

    method StartWrite() returns (id: Tid)
      requires Valid() && liveWrite.None?
      modifies this`nextTid, this`liveWrite
      ensures Valid() && id == nextTid == old(nextTid) + 1 && liveWrite == Some(id)
    {
      nextTid := nextTid + 1;
      id := nextTid;
      liveWrite := Some(id);
    }

    method EndWrite(id: Tid)
      requires Valid() && liveWrite == Some(id)
      modifies this`liveWrite
      ensures Valid() && liveWrite == None
    {
      liveWrite := None;
    }

    method Acquire(t: Tid, ghost h: Holder)
      requires Valid() && h !in holders && !h.NonDurable?
      modifies this`live, this`holders
      ensures Valid() && holders == old(holders)[h := t]
    {
      AddReference(live, holders, h, t);
      live := Incremented(live, t);
      holders := holders[h := t];
    }

    /** `deallocate_read_transaction`: the count is there and at least one. */
    method Release(t: Tid, ghost h: Holder)
      requires Valid() && h in holders && holders[h] == t && !h.NonDurable?
      modifies this`live, this`holders
      ensures Valid() && holders == old(holders) - {h}
    {
      DropReference(live, holders, h);
      var count := live[t] - 1;
      live := if count == 0 then live - {t} else live[t := count];
      holders := holders - {h};
    }

    method RegisterRead(committed: Tid, ghost n: nat) returns (id: Tid)
      requires Valid() && Guard(n) !in holders
      modifies this`live, this`holders
      ensures Valid() && id == committed && holders == old(holders)[Guard(n) := id]
    {
      id := committed;
      Acquire(id, Guard(n));
    }

    method RegisterNonDurable(id: Tid, ancestor: Tid)
      requires Valid() && NonDurable(id) !in holders
      modifies this`live, this`holders, this`pending, this`unprocessed
      ensures Valid() && holders == old(holders)[NonDurable(id) := ancestor]
      ensures unprocessed == old(unprocessed) + {id}
    {
      AddReference(live, holders, NonDurable(id), ancestor);
      live := Incremented(live, ancestor);
      pending := pending[id := ancestor];
      unprocessed := unprocessed + {id};
      holders := holders[NonDurable(id) := ancestor];
    }

    /** Every pending commit gives back its reference on its durable ancestor. */
    method ClearPending()
      requires Valid()
      modifies this`live, this`holders, this`pending
      ensures Valid() && pending == map[]
      ensures holders == map h | h in old(holders) && !h.NonDurable? :: old(holders)[h]
    {
      var ids := pending;
      pending := map[];
      while ids != map[]
        invariant Counts(live, holders) && PendingMatch(ids, holders) && pending == map[]
        invariant forall h :: h in holders ==> h in old(holders) && holders[h] == old(holders)[h]
        invariant forall h :: h in old(holders) && !h.NonDurable? ==> h in holders
        decreases |ids|
      {
        var id :| id in ids;
        var ancestor := ids[id];
        DropReference(live, holders, NonDurable(id));
        var count := live[ancestor] - 1;
        live := if count == 0 then live - {ancestor} else live[ancestor := count];
        holders := holders - {NonDurable(id)};
        assert (ids - {id}).Keys == ids.Keys - {id};
        ids := ids - {id};
      }
    }

    /** `mark_unprocessed_non_durable_commit` for each processed transaction. */
    method MarkProcessed(done: seq<Tid>)
      requires Valid()
      modifies this`unprocessed
      ensures Valid() && unprocessed == old(unprocessed) - set t | t in done
    {
      for i := 0 to |done|
        invariant unprocessed == old(unprocessed) - set t | t in done[..i]
      {
        assert done[..i + 1] == done[..i] + [done[i]];
        unprocessed := unprocessed - {done[i]};
      }
      assert done[..|done|] == done;
    }

    // -------------------------------------------------------------- savepoints

    method RestoreCounter(next: SpId)
      requires Valid() && valid == map[]
      modifies this`nextSp
      ensures Valid() && nextSp == next
    {
      nextSp := next;
    }

    method RegisterPersistent(sp: SpId, t: Tid)
      requires Valid() && Persistent(sp) !in holders
      modifies this`live, this`holders, this`valid
      ensures Valid() && holders == old(holders)[Persistent(sp) := t] && valid == old(valid)[sp := t]
    {
      Acquire(t, Persistent(sp));
      valid := valid[sp := t];
    }

    method AllocateSavepoint(t: Tid) returns (sp: SpId)
      requires Valid()
      modifies this`nextSp, this`valid
      ensures Valid() && sp == nextSp == old(nextSp) + 1 && valid == old(valid)[sp := t]
    {
      sp := nextSp + 1;
      nextSp := sp;
      valid := valid[sp := t];
    }

    method DeallocateSavepoint(sp: SpId, t: Tid, ghost h: Holder)
      requires Valid() && h in holders && holders[h] == t && !h.NonDurable?
      modifies this`live, this`holders, this`valid
      ensures Valid() && holders == old(holders) - {h} && valid == old(valid) - {sp}
    {
      valid := valid - {sp};
      Release(t, h);
    }

    method ListAfter(sp: SpId) returns (ids: seq<SpId>)
      requires Valid()
      ensures Increasing(ids) && forall i :: i in ids <==> i in NewerThan(valid.Keys, sp)
    {
      ids := [];
      var rest := NewerThan(valid.Keys, sp);
      while rest != {}
        invariant Increasing(ids)
        invariant forall i, j :: i in ids && j in rest ==> i < j
        invariant forall i :: i in ids || i in rest <==> i in NewerThan(valid.Keys, sp)
      {
        ghost var least := MinExists(rest);
        var id :| id in rest && forall x :: x in rest ==> id <= x;
        assert forall i :: 0 <= i < |ids| ==> ids[i] in ids && ids[i] < id;
        ids := ids + [id];
        rest := rest - {id};
      }
    }

    /** Drops savepoints from the map; their references are released by somebody else. */
    method Invalidate(doomed: set<SpId>)
      requires Valid()
      modifies this`valid
      ensures Valid() && valid == old(valid) - doomed
    {
      var rest := doomed;
      while rest != {}
        invariant rest <= doomed && valid == old(valid) - (doomed - rest)
      {
        var sp :| sp in rest;
        valid := valid - {sp};
        rest := rest - {sp};
      }
    }

    // -------------------------------------------------------------- queries

    method OldestSavepointId(ghost v: map<SpId, Snapshot>) returns (r: Option<Tid>)
      requires Valid() && valid == Marks(v)
      ensures r == OldestSavepoint(v)
    {
      assert v.Keys == Marks(v).Keys;
      if valid.Keys == {} {
        r := None;
      } else {
        ghost var least := MinExists(valid.Keys);
        var sp :| sp in valid.Keys && forall x :: x in valid.Keys ==> sp <= x;
        assert Min(v.Keys) == sp;
        r := Some(valid[sp]);
      }
    }

    /** The least transaction with a reference. */
    method OldestLiveRead() returns (r: Option<Tid>)
      requires Valid()
      ensures r == if holders.Values == {} then None else Some(Min(holders.Values))
    {
      CountsValues(live, holders);
      if live.Keys == {} {
        r := None;
      } else {
        ghost var least := MinExists(live.Keys);
        var t :| t in live.Keys && forall x :: x in live.Keys ==> t <= x;
        assert t == Min(holders.Values);
        r := Some(t);
      }
    }

    /** The scan for the first counted transaction that is itself a pending commit. */
    method OldestLiveReadNonDurable() returns (r: Option<Tid>)
      requires Valid()
      ensures var ids := holders.Values * Pending(holders); r == if ids == {} then None else Some(Min(ids))
    {
      CountsValues(live, holders);
      PendingKeys(pending, holders);
      var rest := live.Keys;
      while rest != {}
        invariant rest <= live.Keys
        invariant forall t :: t in live.Keys && t in pending ==> t in rest
      {
        ghost var least := MinExists(rest);
        var t :| t in rest && forall x :: x in rest ==> t <= x;
        if t in pending {
          assert t in holders.Values * Pending(holders);
          assert Min(holders.Values * Pending(holders)) == t;
          return Some(t);
        }
        rest := rest - {t};
      }
      assert holders.Values * Pending(holders) == {};
      return None;
    }
  }

  // ---------------------------------------------------------------- transaction-local savepoint state

  datatype Deletion = Deletion(sp: SpId, tid: Tid)

  function Named(ds: set<Deletion>): set<SpId> {
    set d | d in ds :: d.sp
  }

  ghost predicate Unique(ds: seq<Deletion>) {
    forall i, j :: 0 <= i < j < |ds| ==> ds[i].sp != ds[j].sp
  }

  function Elements(ds: seq<Deletion>): set<Deletion> {
    set d | d in ds
  }

  /** Each entry names a persistent savepoint whose reference is still held. */
  ghost predicate Held(ds: set<Deletion>, holders: map<Holder, Tid>) {
    forall d :: d in ds ==> Persistent(d.sp) in holders && holders[Persistent(d.sp)] == d.tid
  }

  function WithoutPersistent(holders: map<Holder, Tid>, gone: set<SpId>): map<Holder, Tid> {
    map h | h in holders && !(h.Persistent? && h.sp in gone) :: holders[h]
  }

  /** `SavepointTransactionState` */
  class SavepointState {
    var created: set<Deletion>
    var deleted: seq<Deletion>
    var invalidated: set<SpId>

    constructor ()
      ensures created == {} && deleted == [] && invalidated == {}
    {
      created, deleted, invalidated := {}, [], {};
    }

    /** Each deleted savepoint gives back its reference once; created ones keep theirs. */
    method ApplyOnCommit(tracker: TransactionTracker)
      requires tracker.Valid() && Unique(deleted) && Held(Elements(deleted), tracker.holders)
      modifies this, tracker`live, tracker`holders, tracker`valid
      ensures tracker.Valid()
      ensures tracker.holders == WithoutPersistent(old(tracker.holders), Named(Elements(old(deleted))))
      ensures tracker.valid == old(tracker.valid) - Named(Elements(old(deleted))) - old(invalidated)
      ensures created == {} && deleted == [] && invalidated == {}
    {
      ghost var holders, valid := tracker.holders, tracker.valid;
      for i := 0 to |deleted|
        invariant tracker.Valid() && deleted == old(deleted) && invalidated == old(invalidated)
        invariant tracker.holders == WithoutPersistent(holders, Named(Elements(deleted[..i])))
        invariant tracker.valid == valid - Named(Elements(deleted[..i]))
      {
        var d := deleted[i];
        assert d in Elements(deleted);
        NamedAdd(deleted, i);
        ReleaseMore(holders, Named(Elements(deleted[..i])), d.sp);
        tracker.DeallocateSavepoint(d.sp, d.tid, Persistent(d.sp));
      }
      assert deleted[..|deleted|] == deleted;
      deleted := [];
      tracker.Invalidate(invalidated);
      invalidated := {};
      created := {};
    }

    /** Each created savepoint gives back its reference once; deleted ones keep theirs. */
    method ApplyOnAbort(tracker: TransactionTracker)
      requires tracker.Valid() && Held(created, tracker.holders)
      modifies this, tracker`live, tracker`holders, tracker`valid
      ensures tracker.Valid()
      ensures tracker.holders == WithoutPersistent(old(tracker.holders), Named(old(created)))
      ensures tracker.valid == old(tracker.valid) - Named(old(created))
      ensures created == {} && deleted == [] && invalidated == {}
    {
      ghost var holders, valid, all := tracker.holders, tracker.valid, created;
      var rest := created;
      while rest != {}
        invariant tracker.Valid() && rest <= all
        invariant tracker.holders == WithoutPersistent(holders, Named(all - rest))
        invariant tracker.valid == valid - Named(all - rest)
      {
        var d :| d in rest;
        OnlyOne(all, holders, d, all - rest);
        ReleaseMore(holders, Named(all - rest), d.sp);
        assert all - (rest - {d}) == all - rest + {d};
        tracker.DeallocateSavepoint(d.sp, d.tid, Persistent(d.sp));
        rest := rest - {d};
      }
      assert all - rest == all;
      created, deleted, invalidated := {}, [], {};
    }
  }

  lemma OnlyOne(all: set<Deletion>, holders: map<Holder, Tid>, d: Deletion, done: set<Deletion>)
    requires Held(all, holders) && d in all && d !in done && done <= all
    ensures d.sp !in Named(done) && Named(done + {d}) == Named(done) + {d.sp}
    ensures Persistent(d.sp) in WithoutPersistent(holders, Named(done))
    ensures WithoutPersistent(holders, Named(done))[Persistent(d.sp)] == d.tid
  {
  }

  lemma ReleaseMore(holders: map<Holder, Tid>, gone: set<SpId>, sp: SpId)
    ensures WithoutPersistent(holders, gone) - {Persistent(sp)} == WithoutPersistent(holders, gone + {sp})
  {
  }

  lemma NamedAdd(ds: seq<Deletion>, i: nat)
    requires Unique(ds) && i < |ds|
    ensures Named(Elements(ds[..i + 1])) == Named(Elements(ds[..i])) + {ds[i].sp}
    ensures ds[i].sp !in Named(Elements(ds[..i]))
  {
    assert ds[..i + 1] == ds[..i] + [ds[i]];
    assert Elements(ds[..i + 1]) == Elements(ds[..i]) + {ds[i]};
  }
}
