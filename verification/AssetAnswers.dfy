/**
 Why things happen to an asset lock. Each operation is fixed from both sides: an event enters the
 ledger, and a record changes, exactly when the operation came with the right answers from the other
 components and met the lock in the right state. Over runs, the ledger is what the calls caused, the
 record is the request's, and a timeout counts from the call that brought the lock into its status.
 */
module AssetAnswers {
  import opened Results
  import opened AssetLocks

  // ---------------------------------------------------------------- causes

  predicate Has(s: State, id: string, st: Status) {
    id in s.locks && s.locks[id].status == st
  }

  /** The text a failure reason quotes or came with contains the word; a failed burn always says it. */
  ghost predicate SaysMinted(reason: Reason) {
    match reason
    case BurnFailed(_) => true
    case MintFailed(text) => exists a, b :: text == a + "Minted" + b
    case UnlockFailed(text) => exists a, b :: text == a + "Minted" + b
    case Given(text) => exists a, b :: text == a + "Minted" + b
    case _ => false
  }

  predicate EndsIn(id: string, suffix: string) {
    |id| >= |suffix| && id[|id| - |suffix|..] == suffix
  }

  predicate Reserved(id: string) {
    EndsIn(id, "-mint") || EndsIn(id, "-burn") || EndsIn(id, "-unlock") || EndsIn(id, "-refund")
  }

  /** The call opens a lock, whether or not its deposit is then submitted. */
  predicate Opens(s: State, op: Op, id: string) {
    && op.LockOp? && op.id == id && op.authorized && op.adapter && op.r.amount > 0
    && !Reserved(id) && id !in s.locks
  }

  predicate MintReady(s: State, op: Op, id: string) {
    && op.MintOp? && op.id == id && op.proven && Has(s, id, Locked)
    && s.locks[id].lockTxHash != "" && s.locks[id].amount > 0 && s.locks[id].recipient != 0
  }

  predicate BurnReady(s: State, op: Op, id: string) {
    op.BurnOp? && op.id == id && Has(s, id, Minted) && s.locks[id].amount > 0 && s.locks[id].owner != 0
  }

  predicate UnlockReady(s: State, op: Op, id: string) {
    && op.UnlockOp? && op.id == id && op.confirmed && op.burnBlock != 0 && Has(s, id, Burned)
    && 0 < s.locks[id].amount <= 1_000_000_000_000_000_000_000_000_000 && s.locks[id].owner != 0
  }

  ghost predicate RefundReady(s: State, op: Op, id: string) {
    && op.RefundOp? && op.id == id && Has(s, id, Failed) && s.locks[id].amount > 0 && s.locks[id].owner != 0
    && (SaysMinted(s.locks[id].reason) ==> s.locks[id].proof.Some?)
  }

  /** The operation puts this event into the ledger. */
  ghost predicate Causes(s: State, op: Op, kind: Kind, id: string) {
    match kind
    case DepositTx => Opens(s, op, id) && op.deposit.Some?
    case Confirmation => op.ConfirmOp? && op.id == id && op.confirmed && Has(s, id, Pending)
    case MintTx => MintReady(s, op, id) && op.submit.None?
    case BurnTx => BurnReady(s, op, id) && op.submit.None?
    case UnlockTx => UnlockReady(s, op, id) && op.submit.None?
    case RefundTx => RefundReady(s, op, id) && op.submit.None?
  }

  /** A lock in a live status whose time in it has run out. */
  predicate Overdue(l: Lock, limit: int, now: int) {
    || (l.status == Pending && l.createdAt != 0 && now - l.createdAt >= limit)
    || (l.status == Locked && l.lockedAt != 0 && now - l.lockedAt >= limit)
    || (l.status == Minted && l.mintedAt != 0 && now - l.mintedAt >= limit)
    || (l.status == Burned && l.burnedAt != 0 && now - l.burnedAt >= limit)
  }

  /** The operation fails the lock, for this reason. */
  predicate Fails(s: State, op: Op, id: string, reason: Reason) {
    || (MintReady(s, op, id) && op.submit.Some? && reason == MintFailed(op.submit.value))
    || (BurnReady(s, op, id) && op.submit.Some? && reason == BurnFailed(op.submit.value))
    || (UnlockReady(s, op, id) && op.submit.Some? && reason == UnlockFailed(op.submit.value))
    || (op.EvictOp? && op.id == id && Has(s, id, Pending) && reason == Evicted)
    || (op.TimeoutOp? && op.limit.Some? && id in s.locks && Overdue(s.locks[id], op.limit.value, op.now)
        && reason == TimedOut(s.locks[id].status))
  }

  /** The operation attaches this proof: all checks passed, and no other proof is on record. */
  predicate Proves(s: State, op: Op, id: string) {
    && op.AttachOp? && op.id == id && op.accepted && Has(s, id, Failed)
    && op.proof.txHash != "" && 0 < op.proof.amount <= 1_000_000_000_000_000_000_000_000_000
    && op.proof.chain == s.locks[id].targetChain && op.proof.amount == s.locks[id].amount
    && (s.locks[id].proof == None || s.locks[id].proof == Some(op.proof))
  }

  // ---------------------------------------------------------------- one operation

  lemma ReservedIff(id: string)
    ensures Reserved(id) <==> !AllowedId(id)
  {
    assert RESERVED[0] == "-mint" && RESERVED[1] == "-burn" && RESERVED[2] == "-unlock" && RESERVED[3] == "-refund";
  }

  lemma ContainsIff(text: string, word: string)
    ensures Contains(text, word) <==> exists a, b :: text == a + word + b
  {
    if Contains(text, word) {
      var i :| 0 <= i <= |text| - |word| && OccursAt(text, word, i);
      assert text == text[..i] + word + text[i + |word|..];
    }
    if a, b :| text == a + word + b {
      assert text[|a|..|a| + |word|] == word;
      assert OccursAt(text, word, |a|);
    }
  }

  lemma HintIff(reason: Reason)
    ensures MintedHint(reason) <==> SaysMinted(reason)
  {
    hide Contains;
    match reason
    case MintFailed(text) => ContainsIff(text, "Minted");
    case UnlockFailed(text) => ContainsIff(text, "Minted");
    case Given(text) => ContainsIff(text, "Minted");
    case _ =>
  }

  /** The ledger grows by exactly the caused event. */
  lemma LedgerStep(s: State, op: Op, kind: Kind, id: string)
    ensures Causes(s, op, kind, id) ==> Apply(s, op).ledger == s.ledger + [Event(kind, id)]
    ensures Apply(s, op).ledger == s.ledger
            || exists k, i :: Causes(s, op, k, i) && Apply(s, op).ledger == s.ledger + [Event(k, i)]
  {
    hide AllowedId, MintedHint, SaysMinted, Reserved, Add, Drop, FailIndex, OwnerLocks;
    if !op.TimeoutOp? {
      ReservedIff(op.id);
      if op.id in s.locks {
        HintIff(s.locks[op.id].reason);
      }
      LedgerCause(s, op);
    }
  }

  lemma LedgerCause(s: State, op: Op)
    requires !op.TimeoutOp? && (Reserved(op.id) <==> !AllowedId(op.id))
    requires op.id in s.locks ==> (MintedHint(s.locks[op.id].reason) <==> SaysMinted(s.locks[op.id].reason))
    ensures Apply(s, op).ledger == s.ledger
            || exists k :: Causes(s, op, k, op.id) && Apply(s, op).ledger == s.ledger + [Event(k, op.id)]
  {
    hide AllowedId, MintedHint, SaysMinted, Reserved, Add, Drop, FailIndex, OwnerLocks;
    var s' := Apply(s, op);
    if s'.ledger != s.ledger {
      var kind := if op.LockOp? then DepositTx else if op.ConfirmOp? then Confirmation else if op.MintOp? then MintTx
                  else if op.BurnOp? then BurnTx else if op.UnlockOp? then UnlockTx else RefundTx;
      assert Causes(s, op, kind, op.id) && s'.ledger == s.ledger + [Event(kind, op.id)];
    }
  }

  /** The status the record has afterwards. */
  ghost predicate StatusAfter(s: State, op: Op, id: string, st: Status)
    requires id in s.locks
  {
    if Causes(s, op, Confirmation, id) then st == Locked
    else if Causes(s, op, MintTx, id) then st == Minted
    else if Causes(s, op, BurnTx, id) then st == Burned
    else if Causes(s, op, UnlockTx, id) then st == Unlocked
    else if Causes(s, op, RefundTx, id) then st == Refunded
    else if exists reason :: Fails(s, op, id, reason) then st == Failed
    else st == s.locks[id].status
  }

  /** Every field of a record afterwards: what was agreed never changes, each time is that of its cause. */
  ghost predicate Evolves(s: State, op: Op, id: string, l: Lock)
    requires id in s.locks
  {
    var was := s.locks[id];
    && l.owner == was.owner && l.recipient == was.recipient && l.amount == was.amount
    && l.targetChain == was.targetChain && l.lockTxHash == was.lockTxHash && l.createdAt == was.createdAt
    && StatusAfter(s, op, id, l.status)
    && l.lockedAt == (if Causes(s, op, Confirmation, id) then op.now else was.lockedAt)
    && l.mintedAt == (if Causes(s, op, MintTx, id) then op.now else was.mintedAt)
    && l.burnedAt == (if Causes(s, op, BurnTx, id) then op.now else was.burnedAt)
    && l.unlockedAt == (if Causes(s, op, UnlockTx, id) then op.now else was.unlockedAt)
    && l.refundedAt == (if Causes(s, op, RefundTx, id) then op.now else was.refundedAt)
    && (forall reason | Fails(s, op, id, reason) :: l.reason == reason && l.failedAt == op.now)
    && ((forall reason :: !Fails(s, op, id, reason)) ==> l.reason == was.reason && l.failedAt == was.failedAt)
    && l.proof == (if Proves(s, op, id) then Some(op.proof) else was.proof)
  }

  /** The record a call opens: the request's, with status, time and hash of the call. */
  predicate Opened(op: Op, l: Lock)
    requires op.LockOp?
  {
    && l.owner == op.r.owner && l.recipient == op.r.recipient && l.amount == op.r.amount
    && l.targetChain == op.r.targetChain && l.proof == op.r.proof && l.reason == Given(op.r.failedReason)
    && l.createdAt == op.now && l.lockedAt == op.r.lockedAt && l.mintedAt == op.r.mintedAt
    && l.burnedAt == op.r.burnedAt && l.unlockedAt == op.r.unlockedAt
    && l.failedAt == op.r.failedAt && l.refundedAt == op.r.refundedAt
    && (if op.deposit.Some? then l.status == Pending && l.lockTxHash == op.deposit.value
        else l.status == Failed && l.lockTxHash == op.r.lockTxHash)
  }

  lemma OtherRecords(s: State, op: Op, id: string)
    requires !op.TimeoutOp? && op.id != id
    ensures (id in Apply(s, op).locks <==> id in s.locks) && (id in s.locks ==> Apply(s, op).locks[id] == s.locks[id])
  {
    hide AllowedId, MintedHint, Add, Drop, OwnerLocks;
  }

  lemma TimeoutEvolves(s: State, op: Op, id: string)
    requires op.TimeoutOp?
    ensures id in Apply(s, op).locks <==> id in s.locks
    ensures id in s.locks ==> Evolves(s, op, id, Apply(s, op).locks[id])
  {
    hide FailIndex, SaysMinted;
    if id in s.locks && op.limit.Some? {
      assert Stale(s.locks[id], op.limit.value, op.now) <==> Overdue(s.locks[id], op.limit.value, op.now);
      assert Overdue(s.locks[id], op.limit.value, op.now)
         ==> Fails(s, op, id, TimedOut(s.locks[id].status));
    }
  }

  lemma LockEvolves(s: State, op: Op, id: string)
    requires op.LockOp? && op.id == id && id in s.locks
    requires MintedHint(s.locks[id].reason) <==> SaysMinted(s.locks[id].reason)
    ensures id in Apply(s, op).locks && Evolves(s, op, id, Apply(s, op).locks[id])
  {
    hide AllowedId, MintedHint, SaysMinted, Add, Drop, OwnerLocks, Reserved;
  }

  lemma ConfirmEvolves(s: State, op: Op, id: string)
    requires op.ConfirmOp? && op.id == id && id in s.locks
    requires MintedHint(s.locks[id].reason) <==> SaysMinted(s.locks[id].reason)
    ensures id in Apply(s, op).locks && Evolves(s, op, id, Apply(s, op).locks[id])
  {
    hide AllowedId, MintedHint, SaysMinted, Add, Drop, OwnerLocks, Reserved;
  }

  lemma MintEvolves(s: State, op: Op, id: string)
    requires op.MintOp? && op.id == id && id in s.locks
    requires MintedHint(s.locks[id].reason) <==> SaysMinted(s.locks[id].reason)
    ensures id in Apply(s, op).locks && Evolves(s, op, id, Apply(s, op).locks[id])
  {
    hide AllowedId, MintedHint, SaysMinted, Add, Drop, OwnerLocks, Reserved;
    if op.submit.Some? {
      assert MintReady(s, op, id) ==> Fails(s, op, id, MintFailed(op.submit.value));
    }
  }

  lemma BurnEvolves(s: State, op: Op, id: string)
    requires op.BurnOp? && op.id == id && id in s.locks
    requires MintedHint(s.locks[id].reason) <==> SaysMinted(s.locks[id].reason)
    ensures id in Apply(s, op).locks && Evolves(s, op, id, Apply(s, op).locks[id])
  {
    hide AllowedId, MintedHint, SaysMinted, Add, Drop, OwnerLocks, Reserved;
    if op.submit.Some? {
      assert BurnReady(s, op, id) ==> Fails(s, op, id, BurnFailed(op.submit.value));
    }
  }

  lemma UnlockEvolves(s: State, op: Op, id: string)
    requires op.UnlockOp? && op.id == id && id in s.locks
    requires MintedHint(s.locks[id].reason) <==> SaysMinted(s.locks[id].reason)
    ensures id in Apply(s, op).locks && Evolves(s, op, id, Apply(s, op).locks[id])
  {
    hide AllowedId, MintedHint, SaysMinted, Add, Drop, OwnerLocks, Reserved;
    if op.submit.Some? {
      assert UnlockReady(s, op, id) ==> Fails(s, op, id, UnlockFailed(op.submit.value));
    }
  }

  lemma EvictEvolves(s: State, op: Op, id: string)
    requires op.EvictOp? && op.id == id && id in s.locks
    requires MintedHint(s.locks[id].reason) <==> SaysMinted(s.locks[id].reason)
    ensures id in Apply(s, op).locks && Evolves(s, op, id, Apply(s, op).locks[id])
  {
    hide AllowedId, MintedHint, SaysMinted, Add, Drop, OwnerLocks, Reserved;
    assert Has(s, id, Pending) ==> Fails(s, op, id, Evicted);
  }

  lemma AttachEvolves(s: State, op: Op, id: string)
    requires op.AttachOp? && op.id == id && id in s.locks
    requires MintedHint(s.locks[id].reason) <==> SaysMinted(s.locks[id].reason)
    ensures id in Apply(s, op).locks && Evolves(s, op, id, Apply(s, op).locks[id])
  {
    hide AllowedId, MintedHint, SaysMinted, Add, Drop, OwnerLocks, Reserved;
  }

  lemma RefundEvolves(s: State, op: Op, id: string)
    requires op.RefundOp? && op.id == id && id in s.locks
    requires MintedHint(s.locks[id].reason) <==> SaysMinted(s.locks[id].reason)
    ensures id in Apply(s, op).locks && Evolves(s, op, id, Apply(s, op).locks[id])
  {
    hide AllowedId, MintedHint, SaysMinted, Add, Drop, OwnerLocks, Reserved;
  }

  lemma OwnEvolves(s: State, op: Op, id: string)
    requires !op.TimeoutOp? && op.id == id && id in s.locks
    ensures id in Apply(s, op).locks && Evolves(s, op, id, Apply(s, op).locks[id])
  {
    hide Apply, Evolves, MintedHint, SaysMinted;
    HintIff(s.locks[id].reason);
    match op
    case LockOp(_, _, _, _, _, _) => LockEvolves(s, op, id);
    case ConfirmOp(_, _, _) => ConfirmEvolves(s, op, id);
    case MintOp(_, _, _, _) => MintEvolves(s, op, id);
    case BurnOp(_, _, _) => BurnEvolves(s, op, id);
    case UnlockOp(_, _, _, _, _) => UnlockEvolves(s, op, id);
    case EvictOp(_, _) => EvictEvolves(s, op, id);
    case AttachOp(_, _, _) => AttachEvolves(s, op, id);
    case RefundOp(_, _, _) => RefundEvolves(s, op, id);
  }

  lemma UntouchedEvolves(s: State, op: Op, id: string)
    requires !op.TimeoutOp? && op.id != id && id in s.locks
    ensures Evolves(s, op, id, s.locks[id])
  {
  }

  /** What every operation does to every record. */
  lemma RecordStep(s: State, op: Op, id: string)
    ensures id in Apply(s, op).locks <==> id in s.locks || Opens(s, op, id)
    ensures id in s.locks ==> Evolves(s, op, id, Apply(s, op).locks[id])
    ensures Opens(s, op, id) ==> Opened(op, Apply(s, op).locks[id])
    ensures id in Apply(s, op).proven <==> id in s.proven || Proves(s, op, id)
  {
    hide Evolves, AllowedId, Reserved, MintedHint, SaysMinted, Add, Drop, OwnerLocks, FailIndex;
    if op.TimeoutOp? {
      TimeoutEvolves(s, op, id);
    } else if op.id != id {
      OtherRecords(s, op, id);
      if id in s.locks {
        UntouchedEvolves(s, op, id);
      }
    } else if id in s.locks {
      OwnEvolves(s, op, id);
    } else {
      ReservedIff(id);
    }
  }

  // ---------------------------------------------------------------- runs

  /** Some call of the run caused the event. */
  ghost predicate Caused(ops: seq<Op>, kind: Kind, id: string) {
    exists i | 0 <= i < |ops| :: Causes(Run(ops[..i]), ops[i], kind, id)
  }

  lemma CausedSplit(ops: seq<Op>, kind: Kind, id: string)
    requires ops != []
    ensures var last := |ops| - 1;
            Caused(ops, kind, id) <==> Caused(ops[..last], kind, id) || Causes(Run(ops[..last]), ops[last], kind, id)
  {
    hide Run, Causes;
    var last := |ops| - 1;
    var front := ops[..last];
    if i :| 0 <= i < |front| && Causes(Run(front[..i]), front[i], kind, id) {
      assert front[..i] == ops[..i] && front[i] == ops[i];
    }
    if i :| 0 <= i < |ops| && Causes(Run(ops[..i]), ops[i], kind, id) {
      if i < last {
        assert front[..i] == ops[..i] && front[i] == ops[i];
      }
    }
  }

  /** An event is in the ledger exactly when some call of the run caused it. */
  lemma {:induction false} LedgerIsCaused(ops: seq<Op>, kind: Kind, id: string)
    ensures Event(kind, id) in Run(ops).ledger <==> Caused(ops, kind, id)
    decreases |ops|
  {
    hide Apply, Causes, Caused;
    if ops == [] {
      NothingCaused(ops, kind, id);
    } else {
      var last := |ops| - 1;
      LedgerIsCaused(ops[..last], kind, id);
      CausedSplit(ops, kind, id);
      LedgerStep(Run(ops[..last]), ops[last], kind, id);
    }
  }

  lemma NothingCaused(ops: seq<Op>, kind: Kind, id: string)
    requires ops == []
    ensures !Caused(ops, kind, id)
  {
  }

  /** Every record goes back to the one call that opened it; what was agreed there still stands. */
  lemma {:induction false} RecordIsTheRequests(ops: seq<Op>, id: string)
    requires id in Run(ops).locks
    ensures exists i | 0 <= i < |ops| :: OpenedAt(ops, id, i)
    decreases |ops|
  {
    hide Apply;
    var last := |ops| - 1;
    var front := ops[..last];
    RecordStep(Run(front), ops[last], id);
    if id in Run(front).locks {
      RecordIsTheRequests(front, id);
      var i :| 0 <= i < |front| && OpenedAt(front, id, i);
      assert front[..i] == ops[..i] && front[i] == ops[i];
      assert OpenedAt(ops, id, i);
    } else {
      assert OpenedAt(ops, id, last);
    }
  }

  predicate OpenedAt(ops: seq<Op>, id: string, i: nat)
    requires id in Run(ops).locks
  {
    && i < |ops| && Opens(Run(ops[..i]), ops[i], id)
    && var l, r := Run(ops).locks[id], ops[i].r;
       && l.owner == r.owner && l.recipient == r.recipient && l.amount == r.amount && l.targetChain == r.targetChain
       && l.createdAt == ops[i].now
       && l.lockTxHash == (if ops[i].deposit.Some? then ops[i].deposit.value else r.lockTxHash)
  }

  // ---------------------------------------------------------------- timeouts

  function TimeOf(op: Op): int {
    if op.AttachOp? then 0 else op.now
  }

  /** The time of the call that brought the lock into its present status. */
  function EnteredAt(ops: seq<Op>, id: string): int {
    if ops == [] then 0
    else
      var last := |ops| - 1;
      var before, after := Run(ops[..last]), Run(ops);
      if id in after.locks && (id !in before.locks || before.locks[id].status != after.locks[id].status)
      then TimeOf(ops[last]) else EnteredAt(ops[..last], id)
  }

  predicate Live(st: Status) {
    st == Pending || st == Locked || st == Minted || st == Burned
  }

  lemma {:induction false} EntryTimeIsEntry(ops: seq<Op>, id: string)
    requires id in Run(ops).locks && Live(Run(ops).locks[id].status)
    ensures EntryTime(Run(ops).locks[id]) == EnteredAt(ops, id)
    decreases |ops|
  {
    hide Apply;
    var last := |ops| - 1;
    var front := ops[..last];
    RecordStep(Run(front), ops[last], id);
    if id in Run(front).locks && Run(front).locks[id].status == Run(ops).locks[id].status {
      EntryTimeIsEntry(front, id);
      SameStatusSameTime(Run(front), ops[last], id, Run(ops).locks[id]);
    } else if id in Run(front).locks {
      NewStatusNewTime(Run(front), ops[last], id, Run(ops).locks[id]);
    }
  }

  lemma SameStatusSameTime(s: State, op: Op, id: string, l: Lock)
    requires id in s.locks && Evolves(s, op, id, l) && l.status == s.locks[id].status && Live(l.status)
    ensures EntryTime(l) == EntryTime(s.locks[id])
  {
    hide SaysMinted, Reserved;
  }

  lemma NewStatusNewTime(s: State, op: Op, id: string, l: Lock)
    requires id in s.locks && Evolves(s, op, id, l) && l.status != s.locks[id].status && Live(l.status)
    ensures EntryTime(l) == TimeOf(op)
  {
    hide SaysMinted, Reserved;
  }

  /** A timeout scan fails a lock exactly when it has been in a live status for the limit, and touches no other. */
  lemma TimesOutIff(ops: seq<Op>, id: string, limit: Option<int>, now: int)
    requires id in Run(ops).locks
    ensures var l := Run(ops).locks[id]; var s' := Run(ops + [TimeoutOp(limit, now)]); var since := EnteredAt(ops, id);
            && id in s'.locks
            && s'.locks[id] == if limit.Some? && Live(l.status) && since != 0 && now - since >= limit.value
                               then l.(status := Failed, failedAt := now, reason := TimedOut(l.status)) else l
  {
    hide FailIndex, EnteredAt;
    var op := TimeoutOp(limit, now);
    assert (ops + [op])[..|ops|] == ops;
    if Live(Run(ops).locks[id].status) {
      EntryTimeIsEntry(ops, id);
    }
  }
}
