/**
 The asset-lock lifecycle of bridge/asset_lock.go as a state machine over its operations. What other
 components answer (owner authorization, adapters, confirmations, proof verification, the bridge's
 SubmitMessage) comes in with each operation and may be anything.

 Two parts of the state are not in the source: the ledger records, in order, every submission that
 succeeded and every confirmed deposit, and `proven` the locks whose burn proof passed all checks.
 */
module AssetLocks {
  import opened Results

  type Address = nat

  const ZERO_ADDRESS: Address := 0
  const MAX_TRANSFER: nat := 1_000_000_000_000_000_000_000_000_000

  datatype Status = Pending | Locked | Minted | Burned | Unlocked | Failed | Refunded

  /** FailedReason by its origin: the text a request came with, or one the manager wrote and the error it quotes. */
  datatype Reason =
    | Given(text: string)
    | MintFailed(error: string)
    | BurnFailed(error: string)
    | UnlockFailed(error: string)
    | TimedOut(status: Status)
    | Evicted

  datatype BurnProof = BurnProof(txHash: string, chain: string, amount: int)

  datatype Lock = Lock(
    owner: Address, recipient: Address, amount: int, targetChain: string,
    status: Status, lockTxHash: string,
    createdAt: int, lockedAt: int, mintedAt: int, burnedAt: int, unlockedAt: int, failedAt: int, refundedAt: int,
    reason: Reason, proof: Option<BurnProof>)

  datatype Kind = DepositTx | Confirmation | MintTx | BurnTx | UnlockTx | RefundTx

  datatype Event = Event(kind: Kind, id: string)

  datatype State = State(
    locks: map<string, Lock>,
    byOwner: map<Address, seq<string>>,
    byStatus: map<Status, set<string>>,
    ledger: seq<Event>,
    proven: set<string>)

  const INITIAL := State(map[], map[], map[], [], {})

  // ---------------------------------------------------------------- ids

  const RESERVED: seq<string> := ["-mint", "-burn", "-unlock", "-refund"]

  predicate HasSuffix(s: string, suffix: string) {
    |suffix| <= |s| && s[|s| - |suffix|..] == suffix
  }

  predicate AllowedId(id: string) {
    forall i | 0 <= i < |RESERVED| :: !HasSuffix(id, RESERVED[i])
  }

  /** The messages derived from two accepted locks never share an id, and none has the id of a lock. */
  lemma DerivedIdsNeverCollide(a: string, b: string, i: nat, j: nat)
    requires AllowedId(a) && AllowedId(b) && i < |RESERVED| && j < |RESERVED|
    ensures a + RESERVED[i] == b + RESERVED[j] ==> a == b && i == j
    ensures a + RESERVED[i] != b
  {
    var s, t := RESERVED[i], RESERVED[j];
    var x, y := a + s, b + t;
    assert x[|x| - 1] == s[|s| - 1] && y[|y| - 1] == t[|t| - 1];
    assert x[..|x| - |s|] == a && y[..|y| - |t|] == b;
    assert HasSuffix(x, s) by {
      assert x[|x| - |s|..] == s;
    }
  }

  // ---------------------------------------------------------------- index

  function InStatus(ix: map<Status, set<string>>, st: Status): set<string> {
    if st in ix then ix[st] else {}
  }

  function Drop(ix: map<Status, set<string>>, st: Status, id: string): map<Status, set<string>> {
    if st in ix then ix[st := ix[st] - {id}] else ix
  }

  function Add(ix: map<Status, set<string>>, st: Status, id: string): map<Status, set<string>> {
    ix[st := InStatus(ix, st) + {id}]
  }

  /** The lock changes to l and moves in the status index. */
  function Put(s: State, id: string, l: Lock): State
    requires id in s.locks
  {
    s.(locks := s.locks[id := l], byStatus := Add(Drop(s.byStatus, s.locks[id].status, id), l.status, id))
  }

  function Record(s: State, kind: Kind, id: string): State {
    s.(ledger := s.ledger + [Event(kind, id)])
  }

  function Fail(s: State, id: string, reason: Reason, now: int): State
    requires id in s.locks
  {
    Put(s, id, s.locks[id].(status := Failed, failedAt := now, reason := reason))
  }

  // ---------------------------------------------------------------- operations

  /** The record a caller of LockAsset hands in, tracking fields included; a nil amount fails authorization. */
  datatype Request = Request(
    owner: Address, recipient: Address, amount: int, targetChain: string, lockTxHash: string,
    lockedAt: int, mintedAt: int, burnedAt: int, unlockedAt: int, failedAt: int, refundedAt: int,
    failedReason: string, proof: Option<BurnProof>)

  /** Only status, creation time and, on success, the transaction hash are set anew. */
  function NewLock(r: Request, status: Status, txHash: string, now: int): Lock {
    Lock(r.owner, r.recipient, r.amount, r.targetChain, status, txHash,
         now, r.lockedAt, r.mintedAt, r.burnedAt, r.unlockedAt, r.failedAt, r.refundedAt,
         Given(r.failedReason), r.proof)
  }

  function OwnerLocks(s: State, owner: Address): seq<string> {
    if owner in s.byOwner then s.byOwner[owner] else []
  }

  /** submit: the transaction hash, or None when validation or the adapter refused. */
  function LockAsset(s: State, id: string, r: Request, authorized: bool, adapter: bool, submit: Option<string>,
      now: int): State {
    if !AllowedId(id) || id in s.locks || !authorized || r.amount <= 0 || !adapter then s
    else if submit.None? then s.(locks := s.locks[id := NewLock(r, Failed, r.lockTxHash, now)])
    else Record(State(s.locks[id := NewLock(r, Pending, submit.value, now)],
                      s.byOwner[r.owner := OwnerLocks(s, r.owner) + [id]],
                      Add(s.byStatus, Pending, id), s.ledger, s.proven), DepositTx, id)
  }

  function ConfirmLock(s: State, id: string, confirmed: bool, now: int): State {
    if id !in s.locks || s.locks[id].status != Pending || !confirmed then s
    else Record(Put(s, id, s.locks[id].(status := Locked, lockedAt := now)), Confirmation, id)
  }

  /** submit: None on success, else the error text. */
  function MintAsset(s: State, id: string, proven: bool, submit: Option<string>, now: int): State {
    if id !in s.locks || s.locks[id].status != Locked || s.locks[id].lockTxHash == "" || !proven
       || s.locks[id].amount <= 0 || s.locks[id].recipient == ZERO_ADDRESS then s
    else if submit.Some? then Fail(s, id, MintFailed(submit.value), now)
    else Record(Put(s, id, s.locks[id].(status := Minted, mintedAt := now)), MintTx, id)
  }

  function BurnAsset(s: State, id: string, submit: Option<string>, now: int): State {
    if id !in s.locks || s.locks[id].status != Minted || s.locks[id].amount <= 0
      || s.locks[id].owner == ZERO_ADDRESS then s
    else if submit.Some? then Fail(s, id, BurnFailed(submit.value), now)
    else Record(Put(s, id, s.locks[id].(status := Burned, burnedAt := now)), BurnTx, id)
  }

  function UnlockAsset(s: State, id: string, burnBlock: nat, confirmed: bool, submit: Option<string>, now: int): State {
    if id !in s.locks || s.locks[id].status != Burned || burnBlock == 0 || !confirmed
       || s.locks[id].amount <= 0 || s.locks[id].amount > MAX_TRANSFER || s.locks[id].owner == ZERO_ADDRESS then s
    else if submit.Some? then Fail(s, id, UnlockFailed(submit.value), now)
    else Record(Put(s, id, s.locks[id].(status := Unlocked, unlockedAt := now)), UnlockTx, id)
  }

  function EntryTime(l: Lock): int {
    match l.status
    case Pending => l.createdAt
    case Locked => l.lockedAt
    case Minted => l.mintedAt
    case Burned => l.burnedAt
    case _ => 0
  }

  predicate Stale(l: Lock, limit: int, now: int) {
    EntryTime(l) != 0 && now - EntryTime(l) >= limit
  }

  function StaleIds(s: State, limit: int, now: int): set<string> {
    set id | id in s.locks && Stale(s.locks[id], limit, now)
  }

  function FailAll(s: State, ids: set<string>, now: int): State {
    State(map id | id in s.locks ::
            if id in ids then s.locks[id].(status := Failed, failedAt := now, reason := TimedOut(s.locks[id].status))
              else s.locks[id],
          s.byOwner, FailIndex(s.byStatus, ids), s.ledger, s.proven)
  }

  function FailIndex(ix: map<Status, set<string>>, ids: set<string>): map<Status, set<string>> {
    map st | st in ix.Keys + (if ids == {} then {} else {Failed}) ::
      if st == Failed then InStatus(ix, st) + ids else InStatus(ix, st) - ids
  }

  /** scanStaleLocks; limit is None when the timeout is switched off. */
  function Timeout(s: State, limit: Option<int>, now: int): State {
    if limit.None? then s else FailAll(s, StaleIds(s, limit.value, now), now)
  }

  function Evict(s: State, id: string, now: int): State {
    if id !in s.locks || s.locks[id].status != Pending then s else Fail(s, id, Evicted, now)
  }

  predicate Contains(text: string, word: string) {
    exists i | 0 <= i <= |text| - |word| :: OccursAt(text, word, i)
  }

  predicate OccursAt(text: string, word: string, i: nat)
    requires i + |word| <= |text|
  {
    text[i..i + |word|] == word
  }

  /** containsMintedHint: the burn text says "(was Minted)"; a quoted error may say anything. */
  predicate MintedHint(reason: Reason) {
    match reason
    case BurnFailed(_) => true
    case MintFailed(error) => Contains(error, "Minted")
    case UnlockFailed(error) => Contains(error, "Minted")
    case Given(text) => Contains(text, "Minted")
    case _ => false
  }

  predicate RefundAllowed(l: Lock) {
    l.status == Failed && l.amount > 0 && l.owner != ZERO_ADDRESS && (MintedHint(l.reason) ==> l.proof.Some?)
  }

  function Refund(s: State, id: string, submit: Option<string>, now: int): State {
    if id !in s.locks || !RefundAllowed(s.locks[id]) || submit.Some? then s
    else Record(Put(s, id, s.locks[id].(status := Refunded, refundedAt := now)), RefundTx, id)
  }

  /** The checks of RefundFailedLockWithBurnProof; accepted: the operator and on-chain checks passed. */
  predicate ProofAccepted(s: State, id: string, p: BurnProof, accepted: bool) {
    && accepted && p.txHash != "" && 0 < p.amount <= MAX_TRANSFER
    && id in s.locks && s.locks[id].status == Failed
    && p.chain == s.locks[id].targetChain && p.amount == s.locks[id].amount
    && (s.locks[id].proof.Some? ==> s.locks[id].proof.value == p)
  }

  /** The part of RefundFailedLockWithBurnProof before the refund: the first accepted proof is attached. */
  function AttachProof(s: State, id: string, p: BurnProof, accepted: bool): State {
    if !ProofAccepted(s, id, p, accepted) then s
    else s.(locks := s.locks[id := s.locks[id].(proof := Some(p))], proven := s.proven + {id})
  }

  datatype Op =
    | LockOp(id: string, r: Request, authorized: bool, adapter: bool, deposit: Option<string>, now: int)
    | ConfirmOp(id: string, confirmed: bool, now: int)
    | MintOp(id: string, proven: bool, submit: Option<string>, now: int)
    | BurnOp(id: string, submit: Option<string>, now: int)
    | UnlockOp(id: string, burnBlock: nat, confirmed: bool, submit: Option<string>, now: int)
    | TimeoutOp(limit: Option<int>, now: int)
    | EvictOp(id: string, now: int)
    | AttachOp(id: string, proof: BurnProof, accepted: bool)
    | RefundOp(id: string, submit: Option<string>, now: int)

  function Apply(s: State, op: Op): State {
    match op
    case LockOp(id, r, authorized, adapter, deposit, now) => LockAsset(s, id, r, authorized, adapter, deposit, now)
    case ConfirmOp(id, confirmed, now) => ConfirmLock(s, id, confirmed, now)
    case MintOp(id, proven, submit, now) => MintAsset(s, id, proven, submit, now)
    case BurnOp(id, submit, now) => BurnAsset(s, id, submit, now)
    case UnlockOp(id, burnBlock, confirmed, submit, now) => UnlockAsset(s, id, burnBlock, confirmed, submit, now)
    case TimeoutOp(limit, now) => Timeout(s, limit, now)
    case EvictOp(id, now) => Evict(s, id, now)
    case AttachOp(id, proof, accepted) => AttachProof(s, id, proof, accepted)
    case RefundOp(id, submit, now) => Refund(s, id, submit, now)
  }

  function Run(ops: seq<Op>): State {
    if ops == [] then INITIAL else Apply(Run(ops[..|ops| - 1]), ops[|ops| - 1])
  }

  // ---------------------------------------------------------------- history

  /** The successful submissions of one lock, in order. */
  function History(ledger: seq<Event>, id: string): seq<Kind> {
    if ledger == [] then []
    else
      History(ledger[..|ledger| - 1], id)
      + (if ledger[|ledger| - 1].id == id then [ledger[|ledger| - 1].kind] else [])
  }

  /**
   The submissions a failed lock had behind it, told by its reason; one that kept its request's text
   failed in LockAsset.
   */
  function UpToFailure(reason: Reason): seq<Kind> {
    match reason
    case Given(_) => []
    case MintFailed(_) => [DepositTx, Confirmation]
    case BurnFailed(_) => [DepositTx, Confirmation, MintTx]
    case UnlockFailed(_) => [DepositTx, Confirmation, MintTx, BurnTx]
    case TimedOut(st) =>
      if st == Locked then [DepositTx, Confirmation]
      else if st == Minted then [DepositTx, Confirmation, MintTx]
      else if st == Burned then [DepositTx, Confirmation, MintTx, BurnTx]
      else [DepositTx]
    case Evicted => [DepositTx]
  }

  function Expected(l: Lock): seq<Kind> {
    match l.status
    case Pending => [DepositTx]
    case Locked => [DepositTx, Confirmation]
    case Minted => [DepositTx, Confirmation, MintTx]
    case Burned => [DepositTx, Confirmation, MintTx, BurnTx]
    case Unlocked => [DepositTx, Confirmation, MintTx, BurnTx, UnlockTx]
    case Failed => UpToFailure(l.reason)
    case Refunded => UpToFailure(l.reason) + [RefundTx]
  }

  predicate Deposited(s: State, id: string) {
    DepositTx in History(s.ledger, id)
  }

  predicate HistoryRight(s: State, id: string) {
    History(s.ledger, id) == if id in s.locks then Expected(s.locks[id]) else []
  }

  /** The status index lists each status exactly; only Failed misses locks, those without a deposit. */
  predicate ListedRight(s: State, st: Status, id: string) {
    id in InStatus(s.byStatus, st) <==> id in s.locks && s.locks[id].status == st && (st == Failed ==> Deposited(s, id))
  }

  ghost predicate HistoriesMatch(s: State) {
    forall id :: HistoryRight(s, id)
  }

  ghost predicate Indexed(s: State) {
    forall st, id :: ListedRight(s, st, id)
  }

  ghost predicate Inv(s: State) {
    HistoriesMatch(s) && Indexed(s)
  }

  /** A live lock has its expected history, which begins with the deposit. */
  lemma LiveIsDeposited(s: State, id: string)
    requires HistoriesMatch(s) && id in s.locks && s.locks[id].status != Failed && s.locks[id].status != Refunded
    ensures History(s.ledger, id) == Expected(s.locks[id]) && Deposited(s, id)
  {
    hide History;
    assert HistoryRight(s, id);
    assert Expected(s.locks[id])[0] == DepositTx;
  }

  lemma HistoryAppend(ledger: seq<Event>, kind: Kind, id: string, other: string)
    ensures History(ledger + [Event(kind, id)], other) == History(ledger, other) + if other == id then [kind] else []
  {
    assert (ledger + [Event(kind, id)])[..|ledger|] == ledger;
  }

  /** The lock moves in the index; the ledger may grow, but not by a deposit. */
  lemma PutIndexed(s: State, id: string, l: Lock, s': State)
    requires Indexed(s) && id in s.locks && l.status != s.locks[id].status && (l.status == Failed ==> Deposited(s, id))
    requires s'.locks == Put(s, id, l).locks && s'.byStatus == Put(s, id, l).byStatus
    requires forall other :: Deposited(s', other) <==> Deposited(s, other)
    ensures Indexed(s')
  {
    hide Deposited, Add, Drop;
    forall st, other
      ensures ListedRight(s', st, other)
    {
      assert ListedRight(s, st, other);
      PutInStatus(s, id, l, st);
    }
  }

  lemma PutInStatus(s: State, id: string, l: Lock, st: Status)
    requires id in s.locks && l.status != s.locks[id].status
    ensures InStatus(Put(s, id, l).byStatus, st)
         == if st == l.status then InStatus(s.byStatus, st) + {id}
            else if st == s.locks[id].status then InStatus(s.byStatus, st) - {id} else InStatus(s.byStatus, st)
  {
  }

  lemma RecordDeposits(s: State, s': State, kind: Kind, id: string)
    requires s'.ledger == s.ledger + [Event(kind, id)] && kind != DepositTx
    ensures forall other :: Deposited(s', other) <==> Deposited(s, other)
  {
    hide History;
    forall other
      ensures Deposited(s', other) <==> Deposited(s, other)
    {
      HistoryAppend(s.ledger, kind, id, other);
    }
  }

  lemma OtherHistories(s: State, s': State, kind: Kind, id: string, other: string)
    requires HistoryRight(s, other) && other != id && s'.ledger == s.ledger + [Event(kind, id)]
    requires (other in s'.locks <==> other in s.locks) && (other in s.locks ==> s'.locks[other] == s.locks[other])
    ensures HistoryRight(s', other)
  {
    hide History, Expected;
    HistoryAppend(s.ledger, kind, id, other);
    assert History(s.ledger, other) + [] == History(s.ledger, other);
  }

  /** A step that moves one lock on and records one submission. */
  lemma AdvanceKeeps(s: State, id: string, l: Lock, kind: Kind)
    requires Inv(s) && id in s.locks && l.status != s.locks[id].status && l.status != Failed && kind != DepositTx
    requires Expected(l) == Expected(s.locks[id]) + [kind]
    ensures Inv(Record(Put(s, id, l), kind, id))
  {
    hide Expected, Indexed, History, Add, Drop;
    var s' := Record(Put(s, id, l), kind, id);
    RecordDeposits(s, s', kind, id);
    PutIndexed(s, id, l, s');
    forall other
      ensures HistoryRight(s', other)
    {
      assert HistoryRight(s, other);
      if other == id {
        HistoryAppend(s.ledger, kind, id, id);
      } else {
        OtherHistories(s, s', kind, id, other);
      }
    }
  }

  /** A step that moves one live lock on without a submission. */
  lemma MoveKeeps(s: State, id: string, l: Lock)
    requires Inv(s) && id in s.locks && s.locks[id].status != Failed && s.locks[id].status != Refunded
    requires l.status != s.locks[id].status && l.status != Refunded && Expected(l) == Expected(s.locks[id])
    ensures Inv(Put(s, id, l))
  {
    hide Expected, Indexed, History, Add, Drop;
    var s' := Put(s, id, l);
    LiveIsDeposited(s, id);
    PutIndexed(s, id, l, s');
    forall other
      ensures HistoryRight(s', other)
    {
      assert HistoryRight(s, other);
    }
  }

  lemma DepositKeeps(s: State, id: string, l: Lock, byOwner: map<Address, seq<string>>)
    requires Inv(s) && id !in s.locks && l.status == Pending
    ensures var s' := State(s.locks[id := l], byOwner, Add(s.byStatus, Pending, id), s.ledger, s.proven);
            Inv(Record(s', DepositTx, id))
  {
    hide History, Indexed;
    var s' := Record(State(s.locks[id := l], byOwner, Add(s.byStatus, Pending, id), s.ledger, s.proven), DepositTx, id);
    forall other
      ensures HistoryRight(s', other) && (other != id ==> Deposited(s', other) == Deposited(s, other))
    {
      assert HistoryRight(s, other);
      HistoryAppend(s.ledger, DepositTx, id, other);
      if other != id {
        OtherHistories(s, s', DepositTx, id, other);
      }
    }
    NewIndexed(s, id, l, s');
  }

  lemma RejectedDepositKeeps(s: State, id: string, l: Lock)
    requires Inv(s) && id !in s.locks && l.status == Failed && l.reason.Given?
    ensures Inv(s.(locks := s.locks[id := l]))
  {
    hide History, Indexed;
    var s' := s.(locks := s.locks[id := l]);
    forall other
      ensures HistoryRight(s', other)
    {
      assert HistoryRight(s, other);
    }
    assert HistoryRight(s, id) && !Deposited(s', id);
    NewIndexed(s, id, l, s');
  }

  lemma NewIndexed(s: State, id: string, l: Lock, s': State)
    requires Indexed(s) && id !in s.locks && s'.locks == s.locks[id := l]
    requires forall other | other != id :: Deposited(s', other) == Deposited(s, other)
    requires (l.status == Failed && !Deposited(s', id) && s'.byStatus == s.byStatus)
          || (l.status != Failed && s'.byStatus == Add(s.byStatus, l.status, id))
    ensures Indexed(s')
  {
    hide Deposited;
    forall st, other
      ensures ListedRight(s', st, other)
    {
      assert ListedRight(s, st, other);
    }
  }

  lemma TimeoutKeeps(s: State, ids: set<string>, now: int)
    requires Inv(s) && forall id | id in ids :: id in s.locks && EntryTime(s.locks[id]) != 0
    ensures Inv(FailAll(s, ids, now))
  {
    hide History, Indexed, FailIndex;
    var s' := FailAll(s, ids, now);
    TimeoutIndexed(s, ids, now);
    forall id
      ensures HistoryRight(s', id)
    {
      assert HistoryRight(s, id);
      if id in ids {
        LiveIsDeposited(s, id);
        TimedOutHistory(s.locks[id], now);
      }
    }
  }

  lemma TimedOutHistory(l: Lock, now: int)
    requires EntryTime(l) != 0
    ensures Expected(l.(status := Failed, failedAt := now, reason := TimedOut(l.status))) == Expected(l)
  {
  }

  lemma TimeoutIndexed(s: State, ids: set<string>, now: int)
    requires Inv(s) && forall id | id in ids :: id in s.locks && EntryTime(s.locks[id]) != 0
    ensures Indexed(FailAll(s, ids, now))
  {
    hide History;
    var s' := FailAll(s, ids, now);
    forall st, id
      ensures ListedRight(s', st, id)
    {
      assert InStatus(s'.byStatus, st)
          == if st == Failed then InStatus(s.byStatus, st) + ids else InStatus(s.byStatus, st) - ids;
      assert ListedRight(s, st, id);
      if id in ids {
        LiveIsDeposited(s, id);
      }
    }
  }

  lemma AttachKeeps(s: State, id: string, p: BurnProof)
    requires Inv(s) && id in s.locks
    ensures Inv(s.(locks := s.locks[id := s.locks[id].(proof := Some(p))], proven := s.proven + {id}))
  {
    hide History;
    var s' := s.(locks := s.locks[id := s.locks[id].(proof := Some(p))], proven := s.proven + {id});
    forall st, other
      ensures ListedRight(s', st, other)
    {
      assert ListedRight(s, st, other);
    }
    assert Expected(s'.locks[id]) == Expected(s.locks[id]);
    forall other
      ensures HistoryRight(s', other)
    {
      assert HistoryRight(s, other);
    }
  }

  lemma ApplyKeeps(s: State, op: Op)
    requires Inv(s)
    ensures Inv(Apply(s, op))
  {
    hide Inv, AllowedId, History, Stale, FailAll, Put, MintedHint, Add;
    match op
    case LockOp(id, r, authorized, adapter, deposit, now) =>
      if AllowedId(id) && id !in s.locks && authorized && r.amount > 0 && adapter {
        if deposit.None? {
          RejectedDepositKeeps(s, id, NewLock(r, Failed, r.lockTxHash, now));
        } else {
          DepositKeeps(s, id, NewLock(r, Pending, deposit.value, now),
            s.byOwner[r.owner := OwnerLocks(s, r.owner) + [id]]);
        }
      }
    case ConfirmOp(id, confirmed, now) =>
      if id in s.locks && s.locks[id].status == Pending && confirmed {
        AdvanceKeeps(s, id, s.locks[id].(status := Locked, lockedAt := now), Confirmation);
      }
    case MintOp(id, proven, submit, now) => MintKeeps(s, id, proven, submit, now);
    case BurnOp(id, submit, now) => BurnKeeps(s, id, submit, now);
    case UnlockOp(id, burnBlock, confirmed, submit, now) => UnlockKeeps(s, id, burnBlock, confirmed, submit, now);
    case TimeoutOp(limit, now) =>
      if limit.Some? {
        StaleHaveEntry(s, limit.value, now);
        TimeoutKeeps(s, StaleIds(s, limit.value, now), now);
      }
    case EvictOp(id, now) =>
      if id in s.locks && s.locks[id].status == Pending {
        MoveKeeps(s, id, s.locks[id].(status := Failed, failedAt := now, reason := Evicted));
      }
    case AttachOp(id, p, accepted) =>
      if ProofAccepted(s, id, p, accepted) {
        AttachKeeps(s, id, p);
      }
    case RefundOp(id, submit, now) => RefundKeeps(s, id, submit, now);
  }

  lemma StaleHaveEntry(s: State, limit: int, now: int)
    ensures forall id | id in StaleIds(s, limit, now) :: id in s.locks && EntryTime(s.locks[id]) != 0
  {
  }

  lemma MintKeeps(s: State, id: string, proven: bool, submit: Option<string>, now: int)
    requires Inv(s)
    ensures Inv(MintAsset(s, id, proven, submit, now))
  {
    hide Inv, Put;
    if id in s.locks && s.locks[id].status == Locked {
      var l := s.locks[id];
      if submit.Some? {
        MoveKeeps(s, id, l.(status := Failed, failedAt := now, reason := MintFailed(submit.value)));
      } else {
        AdvanceKeeps(s, id, l.(status := Minted, mintedAt := now), MintTx);
      }
    }
  }

  lemma BurnKeeps(s: State, id: string, submit: Option<string>, now: int)
    requires Inv(s)
    ensures Inv(BurnAsset(s, id, submit, now))
  {
    hide Inv, Put;
    if id in s.locks && s.locks[id].status == Minted {
      var l := s.locks[id];
      if submit.Some? {
        MoveKeeps(s, id, l.(status := Failed, failedAt := now, reason := BurnFailed(submit.value)));
      } else {
        AdvanceKeeps(s, id, l.(status := Burned, burnedAt := now), BurnTx);
      }
    }
  }

  lemma UnlockKeeps(s: State, id: string, burnBlock: nat, confirmed: bool, submit: Option<string>, now: int)
    requires Inv(s)
    ensures Inv(UnlockAsset(s, id, burnBlock, confirmed, submit, now))
  {
    hide Inv, Put;
    if id in s.locks && s.locks[id].status == Burned {
      var l := s.locks[id];
      if submit.Some? {
        MoveKeeps(s, id, l.(status := Failed, failedAt := now, reason := UnlockFailed(submit.value)));
      } else {
        AdvanceKeeps(s, id, l.(status := Unlocked, unlockedAt := now), UnlockTx);
      }
    }
  }

  lemma RefundKeeps(s: State, id: string, submit: Option<string>, now: int)
    requires Inv(s)
    ensures Inv(Refund(s, id, submit, now))
  {
    hide Inv, Put;
    if id in s.locks && RefundAllowed(s.locks[id]) && submit.None? {
      AdvanceKeeps(s, id, s.locks[id].(status := Refunded, refundedAt := now), RefundTx);
    }
  }

  lemma InitialHolds()
    ensures Inv(INITIAL)
  {
  }

  /** In every run the ledger of each lock is what its status and reason say, and the index what the statuses say. */
  lemma {:induction false} RunKeeps(ops: seq<Op>)
    ensures Inv(Run(ops))
  {
    hide Apply, Inv;
    if ops == [] {
      InitialHolds();
    } else {
      RunKeeps(ops[..|ops| - 1]);
      ApplyKeeps(Run(ops[..|ops| - 1]), ops[|ops| - 1]);
    }
  }

  // ---------------------------------------------------------------- what the runs guarantee

  predicate OnlyAfter(h: seq<Kind>, later: Kind, earlier: Kind) {
    forall j | 0 <= j < |h| && h[j] == later :: exists i | 0 <= i < j :: h[i] == earlier
  }

  predicate Releases(k: Kind) {
    k == UnlockTx || k == RefundTx
  }

  /** No submission twice, one release at most, and each step only after the one it relies on. */
  predicate SafeHistory(h: seq<Kind>) {
    && (forall i, j | 0 <= i < j < |h| :: h[i] != h[j] && !(Releases(h[i]) && Releases(h[j])))
    && OnlyAfter(h, Confirmation, DepositTx) && OnlyAfter(h, MintTx, Confirmation)
    && OnlyAfter(h, BurnTx, MintTx) && OnlyAfter(h, UnlockTx, BurnTx)
  }

  /**
   At most one mint and one release per lock; a mint only after its confirmation, a burn only after
   its mint, an unlock only after its burn.
   */
  lemma LifecycleIsSafe(ops: seq<Op>, id: string)
    ensures SafeHistory(History(Run(ops).ledger, id))
  {
    hide Run, History, Indexed, SafeHistory, Expected;
    RunKeeps(ops);
    var s := Run(ops);
    assert HistoryRight(s, id);
    if id in s.locks {
      ExpectedIsSafe(s.locks[id]);
    } else {
      NothingIsSafe();
    }
  }

  lemma NothingIsSafe()
    ensures SafeHistory([])
  {
  }

  lemma ReleasesAre()
    ensures forall k :: Releases(k) <==> k == UnlockTx || k == RefundTx
  {
  }

  lemma ExpectedIsSafe(l: Lock)
    ensures SafeHistory(Expected(l))
  {
    hide Releases;
    ReleasesAre();
    var h := Expected(l);
    assert |h| > 1 && h[1] == Confirmation ==> h[0] == DepositTx;
    assert |h| > 2 && h[2] == MintTx ==> h[1] == Confirmation;
    assert |h| > 3 && h[3] == BurnTx ==> h[2] == MintTx;
    assert |h| > 4 && h[4] == UnlockTx ==> h[3] == BurnTx;
  }

  /** The status index is exact for every status but Failed, where it misses just the locks that failed in LockAsset. */
  lemma StatusIndexIsExact(ops: seq<Op>, st: Status, id: string)
    ensures id in InStatus(Run(ops).byStatus, st)
       <==> id in Run(ops).locks && Run(ops).locks[id].status == st
            && (st == Failed ==> !Run(ops).locks[id].reason.Given?)
  {
    hide Run, History;
    RunKeeps(ops);
    var s := Run(ops);
    assert ListedRight(s, st, id) && HistoryRight(s, id);
    if id in s.locks && s.locks[id].status == Failed {
      FailedIsDeposited(s.locks[id]);
    }
  }

  lemma FailedIsDeposited(l: Lock)
    requires l.status == Failed
    ensures DepositTx in Expected(l) <==> !l.reason.Given?
  {
    assert !l.reason.Given? ==> Expected(l)[0] == DepositTx;
  }

  // ---------------------------------------------------------------- refunds

  /** The minted asset is neither burned nor proven burned. */
  predicate Outstanding(s: State, id: string) {
    MintTx in History(s.ledger, id) && BurnTx !in History(s.ledger, id) && id !in s.proven
  }

  /** The refund call submits a refund. */
  predicate Refunds(s: State, id: string, now: int) {
    Refund(s, id, None, now).ledger == s.ledger + [Event(RefundTx, id)]
  }

  /** The refund call submits a refund although the minted asset is outstanding. */
  predicate RefundsUnbacked(s: State, id: string, now: int) {
    Refunds(s, id, now) && Outstanding(Refund(s, id, None, now), id)
  }

  /** What a refund leaves in the ledger of the lock. */
  lemma RefundedHistory(ops: seq<Op>, id: string, now: int)
    requires id in Run(ops).locks
    ensures var s := Run(ops); var l := s.locks[id]; var s' := Refund(s, id, None, now);
            && (Refunds(s, id, now) <==> RefundAllowed(l))
            && (RefundAllowed(l) ==>
              s'.proven == s.proven && History(s'.ledger, id) == UpToFailure(l.reason) + [RefundTx])
  {
    hide Run, History, RefundAllowed, Indexed;
    var s := Run(ops);
    var l := s.locks[id];
    RunKeeps(ops);
    assert HistoryRight(s, id);
    HistoryAppend(s.ledger, RefundTx, id, id);
    if RefundAllowed(l) {
      AllowedMeansFailed(l);
    } else {
      assert Refund(s, id, None, now) == s;
    }
  }

  lemma AllowedMeansFailed(l: Lock)
    requires RefundAllowed(l)
    ensures l.status == Failed && (l.reason.BurnFailed? ==> l.proof.Some?)
  {
  }

  /**
   A refund goes out against an outstanding minted asset exactly when the lock failed as Minted, by timeout
   or by its burn submission, and no burn proof was accepted.
   */
  lemma RefundIsUnbackedIff(ops: seq<Op>, id: string, now: int)
    requires id in Run(ops).locks
    ensures var s := Run(ops); var l := s.locks[id];
            RefundsUnbacked(s, id, now)
            <==> RefundAllowed(l) && (l.reason == TimedOut(Minted) || l.reason.BurnFailed?) && id !in s.proven
  {
    hide Run, History;
    RefundedHistory(ops, id, now);
  }

  /** Without a proof on record that is exactly the timeout. */
  lemma ProoflessRefundIsUnbackedIff(ops: seq<Op>, id: string, now: int)
    requires id in Run(ops).locks && Run(ops).locks[id].proof.None?
    ensures var s := Run(ops); var l := s.locks[id];
            RefundsUnbacked(s, id, now) <==> RefundAllowed(l) && l.reason == TimedOut(Minted)
  {
    hide Run, RefundsUnbacked, RefundAllowed;
    RefundIsUnbackedIff(ops, id, now);
    ProvenHaveProofs(ops);
    if RefundAllowed(Run(ops).locks[id]) {
      AllowedMeansFailed(Run(ops).locks[id]);
    }
  }

  /** An accepted proof stays on the record. */
  ghost predicate ProofsKept(s: State) {
    forall id | id in s.proven :: id in s.locks && s.locks[id].proof.Some?
  }

  lemma ApplyKeepsProofs(s: State, op: Op)
    requires ProofsKept(s)
    ensures ProofsKept(Apply(s, op))
  {
    hide AllowedId, Stale, FailIndex, Add, Drop, MintedHint;
  }

  lemma {:induction false} ProvenHaveProofs(ops: seq<Op>)
    ensures ProofsKept(Run(ops))
  {
    hide Apply;
    if ops != [] {
      ProvenHaveProofs(ops[..|ops| - 1]);
      ApplyKeepsProofs(Run(ops[..|ops| - 1]), ops[|ops| - 1]);
    }
  }

  /** A refund goes out for a lock without a deposit exactly when it failed in LockAsset. */
  lemma RefundIsDepositlessIff(ops: seq<Op>, id: string, now: int)
    requires id in Run(ops).locks
    ensures var s := Run(ops); var l := s.locks[id];
            Refunds(s, id, now) && !Deposited(Refund(s, id, None, now), id) <==> RefundAllowed(l) && l.reason.Given?
  {
    hide Run, History;
    RefundedHistory(ops, id, now);
    var l := Run(ops).locks[id];
    if RefundAllowed(l) {
      AllowedMeansFailed(l);
      FailedIsDeposited(l);
    }
  }

  lemma EmptyRun()
    ensures Run([]) == INITIAL
  {
  }

  lemma RunStep(ops: seq<Op>, op: Op)
    ensures Run(ops + [op]) == Apply(Run(ops), op)
  {
    hide Apply;
    assert (ops + [op])[..|ops|] == ops;
  }

  /** Both kinds of refund occur. */
  lemma DepositlessRefundOccurs(id: string, r: Request)
    requires AllowedId(id) && r.amount > 0 && r.owner != ZERO_ADDRESS && r.failedReason == ""
    ensures History(Run([LockOp(id, r, true, true, None, 1), RefundOp(id, None, 2)]).ledger, id) == [RefundTx]
  {
    hide AllowedId, History, Apply;
    var op1, op2 := LockOp(id, r, true, true, None, 1), RefundOp(id, None, 2);
    EmptyRun();
    RunStep([], op1);
    RunStep([op1], op2);
    assert [] + [op1] == [op1] && [op1] + [op2] == [op1, op2];
    var s1 := INITIAL.(locks := map[id := NewLock(r, Failed, r.lockTxHash, 1)]);
    assert Apply(INITIAL, op1) == s1 by { ApplyRejected(id, r); }
    assert Apply(s1, op2).ledger == [] + [Event(RefundTx, id)] by { ApplyRefund(s1, id, 2); }
    HistoryAppend([], RefundTx, id, id);
    assert History([], id) == [] by { NoHistory(id); }
  }

  lemma NoHistory(id: string)
    ensures History([], id) == []
  {
  }

  lemma ApplyRejected(id: string, r: Request)
    requires AllowedId(id) && r.amount > 0
    ensures Apply(INITIAL, LockOp(id, r, true, true, None, 1))
            == INITIAL.(locks := map[id := NewLock(r, Failed, r.lockTxHash, 1)])
  {
  }

  lemma ApplyRefund(s: State, id: string, now: int)
    requires id in s.locks && RefundAllowed(s.locks[id])
    ensures Apply(s, RefundOp(id, None, now)).ledger == s.ledger + [Event(RefundTx, id)]
    ensures Apply(s, RefundOp(id, None, now)).proven == s.proven
  {
  }

  /** Lock, confirm and mint, from the start. */
  function MintedState(id: string, r: Request): State {
    Apply(Apply(Apply(INITIAL, LockOp(id, r, true, true, Some("tx"), 1)), ConfirmOp(id, true, 2)),
      MintOp(id, true, None, 3))
  }

  /** The run to MintedState, one more operation and a refund. */
  function RefundRun(id: string, r: Request, op: Op): seq<Op> {
    [LockOp(id, r, true, true, Some("tx"), 1), ConfirmOp(id, true, 2), MintOp(id, true, None, 3), op,
      RefundOp(id, None, 14)]
  }

  /** A lock that times out as Minted is refunded, whatever the request held. */
  lemma UnbackedRefundOccurs(id: string, r: Request)
    requires AllowedId(id) && r.amount > 0 && r.owner != ZERO_ADDRESS && r.recipient != ZERO_ADDRESS
    ensures var s := Run(RefundRun(id, r, TimeoutOp(Some(10), 13)));
            History(s.ledger, id) == [DepositTx, Confirmation, MintTx, RefundTx] && id !in s.proven
  {
    hide AllowedId, History, Apply, RefundAllowed, Run, RefundRun;
    var op := TimeoutOp(Some(10), 13);
    Minting(id, r);
    TimingOut(MintedState(id, r), id);
    RefundRunEnds(id, r, op);
    ApplyRefund(Apply(MintedState(id, r), op), id, 14);
    HistoryAppend(MintedState(id, r).ledger, RefundTx, id, id);
  }

  /**
   A lock whose request came with a burn proof is refunded after its burn submission failed, though no
   proof was accepted.
   */
  lemma RequestProofRefundOccurs(id: string, r: Request, error: string)
    requires AllowedId(id) && r.amount > 0 && r.owner != ZERO_ADDRESS && r.recipient != ZERO_ADDRESS && r.proof.Some?
    ensures var s := Run(RefundRun(id, r, BurnOp(id, Some(error), 4)));
            History(s.ledger, id) == [DepositTx, Confirmation, MintTx, RefundTx] && id !in s.proven
  {
    hide AllowedId, History, Apply, RefundAllowed, Run, RefundRun;
    var op := BurnOp(id, Some(error), 4);
    Minting(id, r);
    FailingToBurn(MintedState(id, r), id, error);
    RefundRunEnds(id, r, op);
    ApplyRefund(Apply(MintedState(id, r), op), id, 14);
    HistoryAppend(MintedState(id, r).ledger, RefundTx, id, id);
  }

  lemma RefundRunEnds(id: string, r: Request, op: Op)
    ensures Run(RefundRun(id, r, op)) == Apply(Apply(MintedState(id, r), op), RefundOp(id, None, 14))
  {
    hide Apply, Run;
    var ops := RefundRun(id, r, op);
    EmptyRun();
    RunStep([], ops[0]);
    RunStep([ops[0]], ops[1]);
    RunStep([ops[0], ops[1]], ops[2]);
    RunStep([ops[0], ops[1], ops[2]], ops[3]);
    RunStep([ops[0], ops[1], ops[2], ops[3]], ops[4]);
    assert [] + [ops[0]] == [ops[0]] && [ops[0]] + [ops[1]] == [ops[0], ops[1]];
    assert [ops[0], ops[1]] + [ops[2]] == [ops[0], ops[1], ops[2]];
    assert [ops[0], ops[1], ops[2]] + [ops[3]] == [ops[0], ops[1], ops[2], ops[3]];
    assert [ops[0], ops[1], ops[2], ops[3]] + [ops[4]] == ops;
  }

  lemma Minting(id: string, r: Request)
    requires AllowedId(id) && r.amount > 0 && r.owner != ZERO_ADDRESS && r.recipient != ZERO_ADDRESS
    ensures var s := MintedState(id, r);
            && id in s.locks && s.locks[id].status == Minted && s.locks[id].mintedAt == 3
            && s.locks[id].amount > 0 && s.locks[id].owner != ZERO_ADDRESS && s.locks[id].proof == r.proof
            && id !in s.proven && History(s.ledger, id) == [DepositTx, Confirmation, MintTx]
  {
    hide AllowedId, History, Add, Drop;
    NoHistory(id);
    var s1 := Apply(INITIAL, LockOp(id, r, true, true, Some("tx"), 1));
    assert s1.locks[id] == NewLock(r, Pending, "tx", 1);
    HistoryAppend([], DepositTx, id, id);
    var s2 := Apply(s1, ConfirmOp(id, true, 2));
    assert s2.locks[id].status == Locked;
    HistoryAppend(s1.ledger, Confirmation, id, id);
    HistoryAppend(s2.ledger, MintTx, id, id);
  }

  lemma TimingOut(s: State, id: string)
    requires id in s.locks && s.locks[id].status == Minted && s.locks[id].mintedAt == 3
    requires s.locks[id].amount > 0 && s.locks[id].owner != ZERO_ADDRESS
    ensures var s' := Apply(s, TimeoutOp(Some(10), 13));
            id in s'.locks && RefundAllowed(s'.locks[id]) && s'.ledger == s.ledger && s'.proven == s.proven
  {
    hide FailIndex;
    assert id in StaleIds(s, 10, 13);
  }

  lemma FailingToBurn(s: State, id: string, error: string)
    requires id in s.locks && s.locks[id].status == Minted && s.locks[id].proof.Some?
    requires s.locks[id].amount > 0 && s.locks[id].owner != ZERO_ADDRESS
    ensures var s' := Apply(s, BurnOp(id, Some(error), 4));
            id in s'.locks && RefundAllowed(s'.locks[id]) && s'.ledger == s.ledger && s'.proven == s.proven
  {
    hide Add, Drop;
  }
}
