/**
 The owner index of bridge/asset_lock.go (locksByOwner): over every run each owner's list is the
 owner's deposited locks, once each, in the order of their deposits.
 */
module AssetOwners {
  import opened Sequences
  import opened Results
  import opened AssetLocks

  /** The ids of an owner's deposits, in ledger order. */
  function DepositsOf(locks: map<string, Lock>, ledger: seq<Event>, owner: Address): seq<string> {
    if ledger == [] then []
    else
      var e := ledger[|ledger| - 1];
      DepositsOf(locks, ledger[..|ledger| - 1], owner)
      + if e.kind == DepositTx && e.id in locks && locks[e.id].owner == owner then [e.id] else []
  }

  ghost predicate OwnersRight(s: State) {
    forall owner :: OwnerLocks(s, owner) == DepositsOf(s.locks, s.ledger, owner)
  }

  /** No deposit, the owner index untouched, and every lock kept with its owner. */
  predicate NoNewDeposit(s: State, s': State) {
    && s'.byOwner == s.byOwner
    && (forall id | id in s.locks :: id in s'.locks && s'.locks[id].owner == s.locks[id].owner)
    && (s'.ledger == s.ledger
        || (|s'.ledger| == |s.ledger| + 1 && s'.ledger[..|s.ledger|] == s.ledger
          && s'.ledger[|s.ledger|].kind != DepositTx))
  }

  predicate Deposits(s: State, op: Op) {
    op.LockOp? && AllowedId(op.id) && op.id !in s.locks && op.authorized && op.r.amount > 0 && op.adapter
      && op.deposit.Some?
  }

  lemma PutOnly(s: State, id: string, l: Lock)
    requires id in s.locks && l.owner == s.locks[id].owner
    ensures NoNewDeposit(s, Put(s, id, l))
  {
    hide Add, Drop;
  }

  lemma PutAndRecord(s: State, id: string, l: Lock, kind: Kind)
    requires id in s.locks && l.owner == s.locks[id].owner && kind != DepositTx
    ensures NoNewDeposit(s, Record(Put(s, id, l), kind, id))
  {
    hide Add, Drop;
  }

  lemma NothingDone(s: State)
    ensures NoNewDeposit(s, s)
  {
  }

  lemma RejectedOnly(s: State, id: string, r: Request, authorized: bool, adapter: bool, deposit: Option<string>,
      now: int)
    requires !Deposits(s, LockOp(id, r, authorized, adapter, deposit, now))
    ensures NoNewDeposit(s, LockAsset(s, id, r, authorized, adapter, deposit, now))
  {
    hide AllowedId;
  }

  lemma TimeoutOnly(s: State, ids: set<string>, now: int)
    ensures NoNewDeposit(s, FailAll(s, ids, now))
  {
    hide FailIndex;
  }

  lemma ProofOnly(s: State, id: string, p: BurnProof)
    requires id in s.locks
    ensures NoNewDeposit(s, s.(locks := s.locks[id := s.locks[id].(proof := Some(p))], proven := s.proven + {id}))
  {
  }

  lemma OtherOperations(s: State, op: Op)
    requires !Deposits(s, op)
    ensures NoNewDeposit(s, Apply(s, op))
  {
    hide AllowedId, Put, Fail, Record, FailAll, RefundAllowed, NoNewDeposit, NewLock, LockAsset;
    NothingDone(s);
    match op
    case LockOp(id, r, authorized, adapter, deposit, now) => RejectedOnly(s, id, r, authorized, adapter, deposit, now);
    case ConfirmOp(id, _, now) =>
      if id in s.locks { PutAndRecord(s, id, s.locks[id].(status := Locked, lockedAt := now), Confirmation); }
    case MintOp(id, _, submit, now) =>
      if id in s.locks {
        PutAndRecord(s, id, s.locks[id].(status := Minted, mintedAt := now), MintTx);
        if submit.Some? { Failing(s, id, MintFailed(submit.value), now); }
      }
    case BurnOp(id, submit, now) =>
      if id in s.locks {
        PutAndRecord(s, id, s.locks[id].(status := Burned, burnedAt := now), BurnTx);
        if submit.Some? { Failing(s, id, BurnFailed(submit.value), now); }
      }
    case UnlockOp(id, _, _, submit, now) =>
      if id in s.locks {
        PutAndRecord(s, id, s.locks[id].(status := Unlocked, unlockedAt := now), UnlockTx);
        if submit.Some? { Failing(s, id, UnlockFailed(submit.value), now); }
      }
    case TimeoutOp(limit, now) =>
      if limit.Some? { TimeoutOnly(s, StaleIds(s, limit.value, now), now); }
    case EvictOp(id, now) =>
      if id in s.locks { Failing(s, id, Evicted, now); }
    case AttachOp(id, p, _) =>
      if id in s.locks { ProofOnly(s, id, p); }
    case RefundOp(id, _, now) =>
      if id in s.locks { PutAndRecord(s, id, s.locks[id].(status := Refunded, refundedAt := now), RefundTx); }
  }

  lemma Failing(s: State, id: string, reason: Reason, now: int)
    requires id in s.locks
    ensures NoNewDeposit(s, Fail(s, id, reason, now))
  {
    hide Put;
    PutOnly(s, id, s.locks[id].(status := Failed, failedAt := now, reason := reason));
  }

  /** Every recorded id belongs to a lock. */
  lemma RecordedIsLocked(s: State, i: nat)
    requires HistoriesMatch(s) && i < |s.ledger|
    ensures s.ledger[i].id in s.locks
  {
    hide Expected;
    assert HistoryRight(s, s.ledger[i].id);
    RecordedInHistory(s.ledger, i);
  }

  lemma {:induction false} RecordedInHistory(ledger: seq<Event>, i: nat)
    requires i < |ledger|
    ensures ledger[i].kind in History(ledger, ledger[i].id)
    decreases |ledger|
  {
    if i < |ledger| - 1 {
      RecordedInHistory(ledger[..|ledger| - 1], i);
    }
  }

  /** The deposits depend on the owners of the recorded locks only. */
  lemma {:induction false} SameDeposits(locks: map<string, Lock>, locks': map<string, Lock>, ledger: seq<Event>,
      owner: Address)
    requires forall i | 0 <= i < |ledger| ::
               ledger[i].id in locks && ledger[i].id in locks'
                 && locks'[ledger[i].id].owner == locks[ledger[i].id].owner
    ensures DepositsOf(locks', ledger, owner) == DepositsOf(locks, ledger, owner)
    decreases |ledger|
  {
    if ledger != [] {
      SameDeposits(locks, locks', ledger[..|ledger| - 1], owner);
    }
  }

  lemma DepositsAppend(locks: map<string, Lock>, ledger: seq<Event>, e: Event, owner: Address)
    ensures DepositsOf(locks, ledger + [e], owner)
         == DepositsOf(locks, ledger, owner)
            + if e.kind == DepositTx && e.id in locks && locks[e.id].owner == owner then [e.id] else []
  {
    assert (ledger + [e])[..|ledger|] == ledger;
  }

  lemma NoNewDepositKeeps(s: State, s': State)
    requires OwnersRight(s) && HistoriesMatch(s) && NoNewDeposit(s, s')
    ensures OwnersRight(s')
  {
    hide DepositsOf, HistoriesMatch;
    forall i | 0 <= i < |s.ledger|
      ensures s.ledger[i].id in s.locks
    {
      RecordedIsLocked(s, i);
    }
    forall owner
      ensures OwnerLocks(s', owner) == DepositsOf(s'.locks, s'.ledger, owner)
    {
      SameDeposits(s.locks, s'.locks, s.ledger, owner);
      if s'.ledger != s.ledger {
        var e := s'.ledger[|s.ledger|];
        assert s'.ledger == s.ledger + [e];
        DepositsAppend(s'.locks, s.ledger, e, owner);
        assert DepositsOf(s'.locks, s.ledger, owner) + [] == DepositsOf(s'.locks, s.ledger, owner);
      }
    }
  }

  lemma DepositKeepsOwners(s: State, op: Op)
    requires OwnersRight(s) && HistoriesMatch(s) && Deposits(s, op)
    ensures OwnersRight(Apply(s, op))
  {
    hide DepositsOf, HistoriesMatch, Add, AllowedId;
    var s' := Apply(s, op);
    forall i | 0 <= i < |s.ledger|
      ensures s.ledger[i].id in s.locks
    {
      RecordedIsLocked(s, i);
    }
    forall owner
      ensures OwnerLocks(s', owner) == DepositsOf(s'.locks, s'.ledger, owner)
    {
      SameDeposits(s.locks, s'.locks, s.ledger, owner);
      DepositsAppend(s'.locks, s.ledger, Event(DepositTx, op.id), owner);
      assert DepositsOf(s'.locks, s.ledger, owner) + [] == DepositsOf(s'.locks, s.ledger, owner);
    }
  }

  lemma {:induction false} RunKeepsOwners(ops: seq<Op>)
    ensures OwnersRight(Run(ops))
  {
    hide Apply, OwnersRight, HistoriesMatch, Indexed, Deposits, NoNewDeposit;
    if ops == [] {
      NobodyOwns();
    } else {
      var before, op := Run(ops[..|ops| - 1]), ops[|ops| - 1];
      RunKeepsOwners(ops[..|ops| - 1]);
      RunKeeps(ops[..|ops| - 1]);
      if Deposits(before, op) {
        DepositKeepsOwners(before, op);
      } else {
        OtherOperations(before, op);
        NoNewDepositKeeps(before, Apply(before, op));
      }
    }
  }

  lemma NobodyOwns()
    ensures OwnersRight(INITIAL)
  {
  }

  // ---------------------------------------------------------------- each lock once

  lemma {:induction false} DepositsAreRecorded(locks: map<string, Lock>, ledger: seq<Event>, owner: Address, id: string)
    ensures id in DepositsOf(locks, ledger, owner)
       <==> DepositTx in History(ledger, id) && id in locks && locks[id].owner == owner
  {
    if ledger != [] {
      DepositsAreRecorded(locks, ledger[..|ledger| - 1], owner, id);
    }
  }

  /** No id is deposited twice. */
  ghost predicate SingleDeposits(ledger: seq<Event>) {
    forall n, m | 0 <= n < m < |ledger| && ledger[n].kind == DepositTx && ledger[m].kind == DepositTx ::
      ledger[n].id != ledger[m].id
  }

  lemma {:induction false} SingleMeansDistinct(locks: map<string, Lock>, ledger: seq<Event>, owner: Address)
    requires SingleDeposits(ledger)
    ensures Distinct(DepositsOf(locks, ledger, owner))
    decreases |ledger|
  {
    hide History;
    if ledger != [] {
      var front, e := ledger[..|ledger| - 1], ledger[|ledger| - 1];
      SingleMeansDistinct(locks, front, owner);
      DepositsAreRecorded(locks, front, owner, e.id);
      if e.kind == DepositTx && DepositTx in History(front, e.id) {
        var n := DepositPosition(front, e.id);
        assert false;
      }
    }
  }

  lemma {:induction false} DepositPosition(ledger: seq<Event>, id: string) returns (n: nat)
    requires DepositTx in History(ledger, id)
    ensures n < |ledger| && ledger[n] == Event(DepositTx, id)
    decreases |ledger|
  {
    var last := |ledger| - 1;
    if ledger[last] == Event(DepositTx, id) {
      n := last;
    } else {
      n := DepositPosition(ledger[..last], id);
    }
  }

  /** Two deposits of one id would both be in its history. */
  lemma {:induction false} TwoInHistory(ledger: seq<Event>, n: nat, m: nat) returns (i: nat, j: nat)
    requires n < m < |ledger| && ledger[n].kind == ledger[m].kind == DepositTx && ledger[n].id == ledger[m].id
    ensures i < j < |History(ledger, ledger[n].id)|
    ensures History(ledger, ledger[n].id)[i] == DepositTx == History(ledger, ledger[n].id)[j]
    decreases |ledger|
  {
    var last, id := |ledger| - 1, ledger[n].id;
    if m < last {
      i, j := TwoInHistory(ledger[..last], n, m);
    } else {
      RecordedInHistory(ledger[..last], n);
      i :| 0 <= i < |History(ledger[..last], id)| && History(ledger[..last], id)[i] == DepositTx;
      j := |History(ledger[..last], id)|;
    }
  }

  lemma RunDepositsOnce(ops: seq<Op>)
    ensures SingleDeposits(Run(ops).ledger)
  {
    hide Run, History;
    var ledger := Run(ops).ledger;
    forall n, m | 0 <= n < m < |ledger| && ledger[n].kind == DepositTx && ledger[m].kind == DepositTx
      ensures ledger[n].id != ledger[m].id
    {
      if ledger[n].id == ledger[m].id {
        LifecycleIsSafe(ops, ledger[n].id);
        var i, j := TwoInHistory(ledger, n, m);
        assert false;
      }
    }
  }

  /** Each owner's list: exactly the owner's deposited locks, once each, in deposit order. */
  lemma OwnerIndexIsExact(ops: seq<Op>, owner: Address, id: string)
    ensures OwnerLocks(Run(ops), owner) == DepositsOf(Run(ops).locks, Run(ops).ledger, owner)
    ensures Distinct(OwnerLocks(Run(ops), owner))
    ensures id in OwnerLocks(Run(ops), owner)
       <==> id in Run(ops).locks && Run(ops).locks[id].owner == owner && Deposited(Run(ops), id)
  {
    hide Run, History, DepositsOf, SingleDeposits;
    var s := Run(ops);
    RunKeepsOwners(ops);
    RunDepositsOnce(ops);
    SingleMeansDistinct(s.locks, s.ledger, owner);
    DepositsAreRecorded(s.locks, s.ledger, owner, id);
  }
}
