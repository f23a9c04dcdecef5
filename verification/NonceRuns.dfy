/**
 Whole runs of the replay table: any mix of submits (with any answer of the other checks and of the
 adapter), executions, sweeps and checkpoint loads.
 */
module NonceRuns {
  import opened Nonces
  import opened NonceCheckpoint

  datatype Op =
    | SubmitOp(k: Key, n: Nonce, valid: bool, submitted: bool)
    | ExecuteOp(k: Key, n: Nonce)
    | SweepOp
    | LoadOp(entries: seq<FileEntry>)

  function Apply(t: Table, op: Op): Table {
    match op
    case SubmitOp(k, n, valid, submitted) => Submit(t, k, n, valid, submitted).0
    case ExecuteOp(k, n) => Execute(t, k, n)
    case SweepOp => SweepAll(t)
    case LoadOp(entries) => Load(t, entries)
  }

  function After(t: Table, ops: seq<Op>): Table {
    if ops == [] then t else Apply(After(t, ops[..|ops| - 1]), ops[|ops| - 1])
  }

  predicate Accepts(t: Table, op: Op, k: Key, n: Nonce) {
    op.SubmitOp? && op.k == k && op.n == n && Submit(t, k, n, op.valid, op.submitted).1 == Accepted
  }

  // ---------------------------------------------------------------- replay protection

  /** No operation unblocks anything; an accepted nonce was not blocked before and is after. */
  lemma ApplyBlocks(t: Table, op: Op, k: Key, n: Nonce)
    ensures Blocked(t, k, n) ==> Blocked(Apply(t, op), k, n)
    ensures Accepts(t, op, k, n) ==> !Blocked(t, k, n) && Blocked(Apply(t, op), k, n)
  {
    hide Blocked, Submit, Execute, SweepAll, Load;
    match op
    case SubmitOp(k', n', valid, submitted) => SubmitBlocks(t, k', n', valid, submitted);
    case ExecuteOp(k', n') => ExecuteBlocks(t, k', n');
    case SweepOp => SweepAllBlocks(t);
    case LoadOp(es) => LoadBlocks(t, es, k, n);
  }

  lemma {:induction false} BlockedStays(t: Table, ops: seq<Op>, i: nat, k: Key, n: Nonce)
    requires i <= |ops| && Blocked(After(t, ops[..i]), k, n)
    ensures Blocked(After(t, ops), k, n)
    decreases |ops|
  {
    hide Blocked, Apply;
    if i == |ops| {
      assert ops[..i] == ops;
    } else {
      var last := |ops| - 1;
      assert ops[..last][..i] == ops[..i];
      BlockedStays(t, ops[..last], i, k, n);
      ApplyBlocks(After(t, ops[..last]), ops[last], k, n);
    }
  }

  lemma AcceptedIsBlocked(t: Table, ops: seq<Op>, i: nat, k: Key, n: Nonce)
    requires i < |ops| && Accepts(After(t, ops[..i]), ops[i], k, n)
    ensures Blocked(After(t, ops), k, n)
  {
    hide Blocked, Apply, Accepts;
    ApplyBlocks(After(t, ops[..i]), ops[i], k, n);
    assert ops[..i + 1][..i] == ops[..i];
    BlockedStays(t, ops, i + 1, k, n);
  }

  /** No (chain, address, nonce) is accepted twice in any run, from any table. */
  lemma NoNonceTwice(t: Table, ops: seq<Op>, i: nat, j: nat, k: Key, n: Nonce)
    requires i < j < |ops| && Accepts(After(t, ops[..i]), ops[i], k, n)
    ensures !Accepts(After(t, ops[..j]), ops[j], k, n)
  {
    hide Blocked, Apply, Accepts;
    assert ops[..j][..i] == ops[..i];
    AcceptedIsBlocked(t, ops[..j], i, k, n);
    ApplyBlocks(After(t, ops[..j]), ops[j], k, n);
  }

  /** Nor after a restart: a run, its snapshot loaded into any table, and a second run. */
  lemma NoNonceTwiceAcrossRestart(t: Table, ops: seq<Op>, i: nat, es: seq<FileEntry>, t': Table, ops': seq<Op>,
      j: nat, k: Key, n: Nonce)
    requires i < |ops| && Accepts(After(t, ops[..i]), ops[i], k, n)
    requires IsSnapshot(After(t, ops), es) && j < |ops'|
    ensures !Accepts(After(Load(t', es), ops'[..j]), ops'[j], k, n)
  {
    hide Blocked, Apply, Accepts, Load, IsSnapshot;
    AcceptedIsBlocked(t, ops, i, k, n);
    SnapshotMerges(After(t, ops), es, t', k, n);
    var reloaded := Load(t', es);
    assert ops'[..j][..0] == [];
    BlockedStays(reloaded, ops'[..j], 0, k, n);
    ApplyBlocks(After(reloaded, ops'[..j]), ops'[j], k, n);
  }

  // ---------------------------------------------------------------- counting and caps

  lemma ApplyCounts(t: Table, op: Op)
    requires Counted(t)
    ensures Counted(Apply(t, op))
  {
    hide Counted, Submit, Execute, SweepAll, Load;
    match op
    case SubmitOp(k, n, valid, submitted) => SubmitCounts(t, k, n, valid, submitted);
    case ExecuteOp(k, n) => ExecuteCounts(t, k, n);
    case SweepOp => SweepAllCounts(t);
    case LoadOp(es) => LoadCounts(t, es);
  }

  /** The counter is the number of tracked entries after every run, loads included. */
  lemma {:induction false} RunsCount(t: Table, ops: seq<Op>)
    requires Counted(t)
    ensures Counted(After(t, ops))
    decreases |ops|
  {
    hide Counted, Apply;
    if ops != [] {
      RunsCount(t, ops[..|ops| - 1]);
      ApplyCounts(After(t, ops[..|ops| - 1]), ops[|ops| - 1]);
    }
  }

  ghost predicate Tight(t: Table) {
    Counted(t) && Capped(t) && Lean(t)
  }

  lemma ApplyKeepsTight(t: Table, op: Op)
    requires Tight(t) && !op.LoadOp?
    ensures Tight(Apply(t, op))
  {
    hide Counted, Capped, Lean, Submit, Execute, SweepAll;
    match op
    case SubmitOp(k, n, valid, submitted) =>
      SubmitCounts(t, k, n, valid, submitted);
      SubmitKeepsCaps(t, k, n, valid, submitted);
      SubmitKeepsLean(t, k, n, valid, submitted);
    case ExecuteOp(k, n) =>
      ExecuteCounts(t, k, n);
      ExecuteKeepsCaps(t, k, n);
      ExecuteKeepsLean(t, k, n);
    case SweepOp =>
      SweepAllCounts(t);
      SweepAllBlocks(t);
      SweepsKeepCaps(t, Key("", ""));
  }

  /** Without loads, a run from the empty table stays within both caps and never panics. */
  lemma {:induction false} RunsStayTight(ops: seq<Op>)
    requires forall op | op in ops :: !op.LoadOp?
    ensures Tight(After(EMPTY, ops))
    ensures forall k, n, valid, submitted :: Submit(After(EMPTY, ops), k, n, valid, submitted).1 != Panicked
    decreases |ops|
  {
    hide Apply, Submit, Lean;
    if ops != [] {
      RunsStayTight(ops[..|ops| - 1]);
      ApplyKeepsTight(After(EMPTY, ops[..|ops| - 1]), ops[|ops| - 1]);
    } else {
      EmptyIsTight();
    }
    forall k, n, valid, submitted
      ensures Submit(After(EMPTY, ops), k, n, valid, submitted).1 != Panicked
    {
      LeanNeverPanics(After(EMPTY, ops), k, n, valid, submitted);
    }
  }

  lemma EmptyIsTight()
    ensures Tight(EMPTY)
  {
    assert Entries(EMPTY.used) == {};
  }

  // ---------------------------------------------------------------- a load can empty a full key

  function UpTo(m: Nonce): set<Nonce> {
    if m == 0 then {} else UpTo(m - 1) + {m}
  }

  lemma {:induction false} UpToFacts(m: Nonce)
    ensures |UpTo(m)| == m && forall n: Nonce :: n in UpTo(m) <==> 1 <= n <= m
  {
    if m > 0 {
      UpToFacts(m - 1);
    }
  }

  /** A user submits the nonces 1, 2, ..., m and every one is accepted. */
  function Submits(k: Key, m: Nonce): (ops: seq<Op>)
    ensures forall op | op in ops :: !op.LoadOp?
  {
    if m == 0 then [] else Submits(k, m - 1) + [SubmitOp(k, m, true, true)]
  }

  function Filled(k: Key, m: Nonce): Table {
    Table(map[k := UpTo(m)], map[], m)
  }

  lemma {:induction false} SubmitsFill(k: Key, m: Nonce)
    requires m <= MAX_PER_KEY
    ensures MakeInner(After(EMPTY, Submits(k, m)), k) == Filled(k, m)
    ensures m > 0 ==> After(EMPTY, Submits(k, m)) == Filled(k, m)
  {
    hide Submit, UpTo;
    if m == 0 {
      assert UpTo(m) == {} by { UpToFacts(m); }
      assert MakeInner(EMPTY, k) == Table(map[k := {}], map[], 0);
    } else {
      var ops := Submits(k, m);
      assert ops[..|ops| - 1] == Submits(k, m - 1);
      SubmitsFill(k, m - 1);
      NextSubmit(After(EMPTY, Submits(k, m - 1)), k, m);
      assert MakeInner(Filled(k, m), k) == Filled(k, m);
    }
  }

  lemma NextSubmit(t: Table, k: Key, m: Nonce)
    requires 0 < m <= MAX_PER_KEY && MakeInner(t, k) == Filled(k, m - 1)
    ensures Submit(t, k, m, true, true) == (Filled(k, m), Accepted)
  {
    hide SweepAll, SweepKey, MakeInner;
    UpToFacts(m - 1);
    var t1 := Filled(k, m - 1);
    assert Insert(t1, k, m) == Filled(k, m) by {
      assert map[k := UpTo(m - 1)][k := UpTo(m - 1) + {m}] == map[k := UpTo(m)];
    }
  }

  /**
   After ten thousand accepted nonces, a checkpoint that puts the high-water mark at the last of them
   leaves the key full of covered nonces, and the next submit writes to a nil map.
   */
  lemma LoadCanLeadToPanic(k: Key, submitted: bool)
    ensures var ops := Submits(k, MAX_PER_KEY) + [LoadOp([FileEntry(k, MAX_PER_KEY, {})])];
            Submit(After(EMPTY, ops), k, MAX_PER_KEY + 1, true, submitted).1 == Panicked
  {
    hide Submit, Submits, UpTo, Apply, WouldPanic, Counted;
    var fill := Submits(k, MAX_PER_KEY);
    var load := LoadOp([FileEntry(k, MAX_PER_KEY, {})]);
    assert (fill + [load])[..|fill|] == fill;
    SubmitsFill(k, MAX_PER_KEY);
    LoadedFull(k, Filled(k, MAX_PER_KEY));
    var t := Table(map[k := UpTo(MAX_PER_KEY)], map[k := MAX_PER_KEY], MAX_PER_KEY);
    assert After(EMPTY, fill + [load]) == t;
    FullIsCovered(k, t);
    PanicIff(t, k, MAX_PER_KEY + 1, true, submitted);
  }

  lemma LoadedFull(k: Key, full: Table)
    requires full.highest == map[]
    ensures Apply(full, LoadOp([FileEntry(k, MAX_PER_KEY, {})])) == full.(highest := map[k := MAX_PER_KEY])
  {
    var e := FileEntry(k, MAX_PER_KEY, {});
    assert [e][..0] == [];
    assert Load(full, []) == full;
  }

  lemma FullIsCovered(k: Key, t: Table)
    requires t == Table(map[k := UpTo(MAX_PER_KEY)], map[k := MAX_PER_KEY], MAX_PER_KEY)
    ensures Counted(t) && WouldPanic(t, k, MAX_PER_KEY + 1)
  {
    hide UpTo;
    UpToFacts(MAX_PER_KEY);
    PairCount(k, UpTo(MAX_PER_KEY));
    assert Entries(t.used) == Pairs(k, UpTo(MAX_PER_KEY));
  }
}
