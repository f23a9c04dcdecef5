/**
 The asset-lock manager as an object: each method is one operation of module AssetLocks, done in place
 on the maps. The ledger and the proven locks are ghost fields; lock records are values, replaced in the map.
 */
module AssetLockManager {
  import opened Results
  import opened AssetLocks

  class Manager {
    var locks: map<string, Lock>
    var byOwner: map<Address, seq<string>>
    var byStatus: map<Status, set<string>>
    ghost var ledger: seq<Event>
    ghost var proven: set<string>

    ghost function Value(): State
      reads this
    {
      State(locks, byOwner, byStatus, ledger, proven)
    }

    /** Ledger, statuses and index agree (AssetLocks.Inv). */
    ghost predicate Valid()
      reads this
    {
      Inv(Value())
    }

    constructor ()
      ensures Valid() && Value() == INITIAL
    {
      locks, byOwner, byStatus, ledger, proven := map[], map[], map[], [], {};
      new;
      InitialHolds();
    }

    /** The index writes shared by all transitions. */
    method Reindex(from: Status, to: Status, id: string)
      modifies this`byStatus
      ensures byStatus == Add(Drop(old(byStatus), from, id), to, id)
    {
      if from in byStatus {
        byStatus := byStatus[from := byStatus[from] - {id}];
      }
      assert byStatus == Drop(old(byStatus), from, id);
      if to !in byStatus {
        byStatus := byStatus[to := {}];
      }
      byStatus := byStatus[to := byStatus[to] + {id}];
    }

    method MarkLockFailed(id: string, reason: Reason, now: int)
      requires id in locks
      modifies this
      ensures Value() == Fail(old(Value()), id, reason, now)
    {
      hide Add, Drop;
      var from := locks[id].status;
      locks := locks[id := locks[id].(status := Failed, failedAt := now, reason := reason)];
      Reindex(from, Failed, id);
    }

    method ReservedSuffix(id: string) returns (found: bool)
      ensures found <==> !AllowedId(id)
    {
      for i := 0 to |RESERVED|
        invariant forall k | 0 <= k < i :: !HasSuffix(id, RESERVED[k])
      {
        if HasSuffix(id, RESERVED[i]) {
          return true;
        }
      }
      return false;
    }

    method LockAsset(id: string, r: Request, authorized: bool, adapter: bool, submit: Option<string>, now: int)
        returns (ok: bool)
      requires Valid()
      modifies this
      ensures Valid()
      ensures Value() == AssetLocks.LockAsset(old(Value()), id, r, authorized, adapter, submit, now)
      ensures ok <==> ledger == old(ledger) + [Event(DepositTx, id)]
    {
      hide AllowedId, Inv;
      ApplyKeeps(Value(), LockOp(id, r, authorized, adapter, submit, now));
      var reserved := ReservedSuffix(id);
      if reserved || id in locks {
        return false;
      }
      if !authorized || r.amount <= 0 || !adapter {
        return false;
      }
      if submit.None? {
        locks := locks[id := NewLock(r, Failed, r.lockTxHash, now)];
        return false;
      }
      locks := locks[id := NewLock(r, Pending, submit.value, now)];
      byOwner := byOwner[r.owner := (if r.owner in byOwner then byOwner[r.owner] else []) + [id]];
      byStatus := byStatus[Pending := (if Pending in byStatus then byStatus[Pending] else {}) + {id}];
      ledger := ledger + [Event(DepositTx, id)];
      return true;
    }

    method ConfirmLock(id: string, confirmed: bool, now: int) returns (ok: bool)
      requires Valid()
      modifies this
      ensures Valid()
      ensures Value() == AssetLocks.ConfirmLock(old(Value()), id, confirmed, now)
      ensures ok <==> ledger == old(ledger) + [Event(Confirmation, id)]
    {
      hide Add, Drop, Inv;
      ApplyKeeps(Value(), ConfirmOp(id, confirmed, now));
      if id !in locks || locks[id].status != Pending || !confirmed {
        return false;
      }
      locks := locks[id := locks[id].(status := Locked, lockedAt := now)];
      Reindex(Pending, Locked, id);
      ledger := ledger + [Event(Confirmation, id)];
      return true;
    }

    method MintAsset(id: string, proven: bool, submit: Option<string>, now: int) returns (ok: bool)
      requires Valid()
      modifies this
      ensures Valid()
      ensures Value() == AssetLocks.MintAsset(old(Value()), id, proven, submit, now)
      ensures ok <==> ledger == old(ledger) + [Event(MintTx, id)]
    {
      hide Add, Drop, Inv;
      ApplyKeeps(Value(), MintOp(id, proven, submit, now));
      if id !in locks || locks[id].status != Locked {
        return false;
      }
      if locks[id].lockTxHash == "" || !proven || locks[id].amount <= 0 || locks[id].recipient == ZERO_ADDRESS {
        return false;
      }
      if submit.Some? {
        MarkLockFailed(id, MintFailed(submit.value), now);
        return false;
      }
      locks := locks[id := locks[id].(status := Minted, mintedAt := now)];
      Reindex(Locked, Minted, id);
      ledger := ledger + [Event(MintTx, id)];
      return true;
    }

    method BurnAsset(id: string, submit: Option<string>, now: int) returns (ok: bool)
      requires Valid()
      modifies this
      ensures Valid()
      ensures Value() == AssetLocks.BurnAsset(old(Value()), id, submit, now)
      ensures ok <==> ledger == old(ledger) + [Event(BurnTx, id)]
    {
      hide Add, Drop, Inv;
      ApplyKeeps(Value(), BurnOp(id, submit, now));
      if id !in locks || locks[id].status != Minted || locks[id].amount <= 0 || locks[id].owner == ZERO_ADDRESS {
        return false;
      }
      if submit.Some? {
        MarkLockFailed(id, BurnFailed(submit.value), now);
        return false;
      }
      locks := locks[id := locks[id].(status := Burned, burnedAt := now)];
      Reindex(Minted, Burned, id);
      ledger := ledger + [Event(BurnTx, id)];
      return true;
    }

    method UnlockAsset(id: string, burnBlock: nat, confirmed: bool, submit: Option<string>, now: int) returns (ok: bool)
      requires Valid()
      modifies this
      ensures Valid()
      ensures Value() == AssetLocks.UnlockAsset(old(Value()), id, burnBlock, confirmed, submit, now)
      ensures ok <==> ledger == old(ledger) + [Event(UnlockTx, id)]
    {
      hide Add, Drop, Inv;
      ApplyKeeps(Value(), UnlockOp(id, burnBlock, confirmed, submit, now));
      if id !in locks || locks[id].status != Burned || burnBlock == 0 || !confirmed {
        return false;
      }
      if locks[id].amount <= 0 || locks[id].amount > MAX_TRANSFER || locks[id].owner == ZERO_ADDRESS {
        return false;
      }
      if submit.Some? {
        MarkLockFailed(id, UnlockFailed(submit.value), now);
        return false;
      }
      locks := locks[id := locks[id].(status := Unlocked, unlockedAt := now)];
      Reindex(Burned, Unlocked, id);
      ledger := ledger + [Event(UnlockTx, id)];
      return true;
    }

    method HandlePendingMessageEviction(id: string, now: int)
      requires Valid()
      modifies this
      ensures Valid()
      ensures Value() == Evict(old(Value()), id, now)
    {
      hide Add, Drop, Inv;
      ApplyKeeps(Value(), EvictOp(id, now));
      if id !in locks || locks[id].status != Pending {
        return;
      }
      MarkLockFailed(id, Evicted, now);
    }

    method RefundFailedLock(id: string, submit: Option<string>, now: int) returns (ok: bool)
      requires Valid()
      modifies this
      ensures Valid()
      ensures Value() == Refund(old(Value()), id, submit, now)
      ensures ok <==> ledger == old(ledger) + [Event(RefundTx, id)]
    {
      hide Add, Drop, MintedHint, Inv;
      ApplyKeeps(Value(), RefundOp(id, submit, now));
      if id !in locks || locks[id].status != Failed || locks[id].amount <= 0 || locks[id].owner == ZERO_ADDRESS {
        return false;
      }
      if MintedHint(locks[id].reason) && locks[id].proof.None? {
        return false;
      }
      if submit.Some? {
        return false;
      }
      Reindex(Failed, Refunded, id);
      locks := locks[id := locks[id].(status := Refunded, refundedAt := now)];
      ledger := ledger + [Event(RefundTx, id)];
      return true;
    }

    /** Refund with a burn proof: attach the first accepted proof, then refund. */
    method RefundFailedLockWithBurnProof(id: string, p: BurnProof, accepted: bool, submit: Option<string>, now: int)
        returns (ok: bool)
      requires Valid()
      modifies this
      ensures Valid()
      ensures ok ==> Value() == Refund(AttachProof(old(Value()), id, p, accepted), id, submit, now)
      ensures ok ==> id in locks && locks[id].proof == Some(p)
      ensures ok <==> ProofAccepted(old(Value()), id, p, accepted) && submit.None?
                      && RefundAllowed(AttachProof(old(Value()), id, p, accepted).locks[id])
      ensures !ok ==> Value() == AttachProof(old(Value()), id, p, accepted)
      ensures ok <==> ledger == old(ledger) + [Event(RefundTx, id)]
    {
      hide Add, Drop, MintedHint, Inv;
      ApplyKeeps(Value(), AttachOp(id, p, accepted));
      if !accepted || p.txHash == "" || p.amount <= 0 || p.amount > MAX_TRANSFER {
        return false;
      }
      if id !in locks || locks[id].status != Failed || p.chain != locks[id].targetChain
        || p.amount != locks[id].amount {
        return false;
      }
      if locks[id].proof.Some? {
        if locks[id].proof.value != p {
          return false;
        }
      } else {
        locks := locks[id := locks[id].(proof := Some(p))];
      }
      proven := proven + {id};
      assert locks == AttachProof(old(Value()), id, p, accepted).locks;
      ok := RefundFailedLock(id, submit, now);
    }

    method ScanStaleLocks(limit: Option<int>, now: int)
      requires Valid()
      modifies this
      ensures Valid()
      ensures Value() == Timeout(old(Value()), limit, now)
    {
      ApplyKeeps(Value(), TimeoutOp(limit, now));
      if limit.None? {
        return;
      }
      hide Indexed, HistoriesMatch, FailAll, StaleIds, StaleIn;
      ghost var before := Value();
      var statuses := [Pending, Locked, Minted, Burned];
      FailNone(before, limit.value, now);
      for k := 0 to |statuses|
        invariant Value() == FailAll(before, StaleIn(before, limit.value, now, statuses[..k]), now)
      {
        ScanStatus(statuses[k], limit.value, now, before, statuses[..k]);
        assert statuses[..k + 1] == statuses[..k] + [statuses[k]];
      }
      assert statuses[..4] == statuses;
      StaleInAll(before, limit.value, now, statuses);
    }

    /** The inner loop, over the ids listed under one status. */
    method ScanStatus(st: Status, limit: int, now: int, ghost before: State, ghost earlier: seq<Status>)
      requires Indexed(before) && st != Failed && st !in earlier
      requires Value() == FailAll(before, StaleIn(before, limit, now, earlier), now)
      modifies this
      ensures Value() == FailAll(before, StaleIn(before, limit, now, earlier + [st]), now)
    {
      hide Indexed, FailAll, Stale, StaleIn, EntryTime, Add, Drop;
      ghost var done := StaleIn(before, limit, now, earlier);
      ghost var start := done;
      IndexLists(before, done, now, st, limit, earlier);
      var todo := if st in byStatus then byStatus[st] else {};
      while todo != {}
        invariant Value() == FailAll(before, done, now) && start <= done
        invariant forall id | id in todo :: id in before.locks && before.locks[id].status == st && id !in done
        invariant forall id | id in done - start ::
                  id in before.locks && before.locks[id].status == st && Stale(before.locks[id], limit, now)
        invariant forall id | id in before.locks && before.locks[id].status == st
                  && Stale(before.locks[id], limit, now) :: id in todo || id in done
        decreases |todo|
      {
        var id :| id in todo;
        todo := todo - {id};
        KeptByFailAll(before, done, now, id);
        var lock := locks[id];
        var entry := EntryTime(lock);
        StaleMeans(lock, limit, now);
        if entry == 0 {
          continue;
        }
        if now - entry < limit {
          continue;
        }
        FailOneMore(before, done, now, id);
        locks := locks[id := lock.(status := Failed, failedAt := now, reason := TimedOut(lock.status))];
        Reindex(lock.status, Failed, id);
        done := done + {id};
      }
      StaleInNext(before, limit, now, earlier, st, start, done);
    }
  }

  ghost function StaleIn(s: State, limit: int, now: int, statuses: seq<Status>): set<string> {
    set id | id in s.locks && s.locks[id].status in statuses && Stale(s.locks[id], limit, now)
  }

  lemma FailNone(s: State, limit: int, now: int)
    ensures FailAll(s, StaleIn(s, limit, now, []), now) == s
  {
    assert StaleIn(s, limit, now, []) == {};
    assert FailAll(s, {}, now).locks == s.locks;
    assert forall st | st in s.byStatus :: FailIndex(s.byStatus, {})[st] == s.byStatus[st];
    assert FailIndex(s.byStatus, {}) == s.byStatus;
  }

  lemma StaleMeans(l: Lock, limit: int, now: int)
    ensures Stale(l, limit, now) <==> EntryTime(l) != 0 && now - EntryTime(l) >= limit
  {
  }

  lemma KeptByFailAll(s: State, done: set<string>, now: int, id: string)
    requires id in s.locks && id !in done
    ensures id in FailAll(s, done, now).locks && FailAll(s, done, now).locks[id] == s.locks[id]
  {
  }

  lemma IndexLists(s: State, done: set<string>, now: int, st: Status, limit: int, earlier: seq<Status>)
    requires Indexed(s) && st != Failed && st !in earlier && done == StaleIn(s, limit, now, earlier)
    ensures forall id ::
            id in InStatus(FailAll(s, done, now).byStatus, st)
            <==> id in s.locks && s.locks[id].status == st
    ensures forall id | id in s.locks && s.locks[id].status == st :: id !in done
  {
    forall id
      ensures id in InStatus(FailAll(s, done, now).byStatus, st) <==> id in s.locks && s.locks[id].status == st
    {
      assert ListedRight(s, st, id);
      assert InStatus(FailAll(s, done, now).byStatus, st) == InStatus(s.byStatus, st) - done;
    }
  }

  lemma FailOneMore(s: State, done: set<string>, now: int, id: string)
    requires Indexed(s) && id in s.locks && id !in done && s.locks[id].status != Failed
    ensures var t := FailAll(s, done, now);
            id in t.locks && t.locks[id] == s.locks[id]
            && Put(t, id, t.locks[id].(status := Failed, failedAt := now, reason := TimedOut(t.locks[id].status)))
            == FailAll(s, done + {id}, now)
  {
    hide FailIndex, Add, Drop;
    var t := FailAll(s, done, now);
    assert t.locks[id] == s.locks[id];
    var t' := Put(t, id, t.locks[id].(status := Failed, failedAt := now, reason := TimedOut(t.locks[id].status)));
    forall x
      ensures id in InStatus(s.byStatus, x) <==> x == s.locks[id].status
    {
      assert ListedRight(s, x, id);
    }
    assert t'.locks == FailAll(s, done + {id}, now).locks;
    FailOneIndex(s.byStatus, done, id, s.locks[id].status);
  }

  lemma FailOneIndex(ix: map<Status, set<string>>, done: set<string>, id: string, st: Status)
    requires st != Failed && forall x :: id in InStatus(ix, x) <==> x == st
    ensures Add(Drop(FailIndex(ix, done), st, id), Failed, id) == FailIndex(ix, done + {id})
  {
    hide Add, Drop, FailIndex;
    var a, b := Add(Drop(FailIndex(ix, done), st, id), Failed, id), FailIndex(ix, done + {id});
    FailIndexAt(ix, done);
    FailIndexAt(ix, done + {id});
    AddDropAt(FailIndex(ix, done), st, Failed, id);
    assert id in InStatus(ix, st);
    assert a.Keys == b.Keys;
    forall x | x in a
      ensures a[x] == b[x]
    {
      assert a[x] == InStatus(a, x) && b[x] == InStatus(b, x);
      assert id in InStatus(ix, x) <==> x == st;
      assert InStatus(ix, x) - done - {id} == InStatus(ix, x) - (done + {id});
    }
  }

  lemma FailIndexAt(ix: map<Status, set<string>>, ids: set<string>)
    ensures FailIndex(ix, ids).Keys == ix.Keys + (if ids == {} then {} else {Failed})
    ensures forall x ::
            InStatus(FailIndex(ix, ids), x)
            == if x == Failed then InStatus(ix, x) + ids else InStatus(ix, x) - ids
  {
  }

  lemma AddDropAt(ix: map<Status, set<string>>, from: Status, to: Status, id: string)
    requires from != to
    ensures Add(Drop(ix, from, id), to, id).Keys == ix.Keys + {to}
    ensures forall x :: InStatus(Add(Drop(ix, from, id), to, id), x)
                     == if x == to then InStatus(ix, x) + {id} else if x == from then InStatus(ix, x) - {id}
                       else InStatus(ix, x)
  {
  }

  lemma StaleInNext(s: State, limit: int, now: int, earlier: seq<Status>, st: Status, before: set<string>,
      after: set<string>)
    requires before == StaleIn(s, limit, now, earlier) && before <= after
    requires forall id | id in after - before ::
             id in s.locks && s.locks[id].status == st && Stale(s.locks[id], limit, now)
    requires forall id | id in s.locks && s.locks[id].status == st && Stale(s.locks[id], limit, now) :: id in after
    ensures after == StaleIn(s, limit, now, earlier + [st])
  {
    hide Stale;
  }

  lemma StaleInAll(s: State, limit: int, now: int, statuses: seq<Status>)
    requires statuses == [Pending, Locked, Minted, Burned]
    ensures StaleIn(s, limit, now, statuses) == StaleIds(s, limit, now)
  {
    forall id | id in s.locks && Stale(s.locks[id], limit, now)
      ensures s.locks[id].status in statuses
    {
      var st := s.locks[id].status;
      assert st == statuses[0] || st == statuses[1] || st == statuses[2] || st == statuses[3];
    }
  }
}
