/**
 The replay table of bridge/bridge.go in memory mode: per (source chain, source address) a high-water
 mark and a sparse set of tracked nonces, with the sweeps, the submit path and its rollback, and the
 execution step.

 The specification is the set of blocked nonces of a key: everything up to the high-water mark and
 everything tracked. Insertion times are left out: they are read only when nonceTTL is positive, and
 it is the constant 0.
 */
module Nonces {
  import opened Results

  datatype Key = Key(chain: string, addr: string)

  type Nonce = n: nat | n < 0x1_0000_0000_0000_0000

  const MAX_PER_KEY: nat := 10_000
  const MAX_GLOBAL: nat := 1_000_000

  /** used holds the inner maps that are not nil; one of them may be empty. */
  datatype Table = Table(used: map<Key, set<Nonce>>, highest: map<Key, Nonce>, total: int)

  const EMPTY := Table(map[], map[], 0)

  // ---------------------------------------------------------------- abstraction

  function High(t: Table, k: Key): Nonce {
    if k in t.highest then t.highest[k] else 0
  }

  function Tracked(t: Table, k: Key): set<Nonce> {
    if k in t.used then t.used[k] else {}
  }

  predicate Blocked(t: Table, k: Key, n: Nonce) {
    n <= High(t, k) || n in Tracked(t, k)
  }

  /** t' blocks what t blocks and nothing else. */
  ghost predicate SameBlocked(t: Table, t': Table) {
    forall k, n :: Blocked(t', k, n) <==> Blocked(t, k, n)
  }

  function Entries(used: map<Key, set<Nonce>>): set<(Key, Nonce)> {
    set k, n | k in used && n in used[k] :: (k, n)
  }

  /** The global counter counts the tracked entries. */
  predicate Counted(t: Table) {
    t.total == |Entries(t.used)|
  }

  ghost predicate Capped(t: Table) {
    t.total <= MAX_GLOBAL && forall k | k in t.used :: |t.used[k]| <= MAX_PER_KEY
  }

  /** No tracked nonce is also covered by the high-water mark. */
  predicate Lean(t: Table) {
    forall k, n | k in t.used && n in t.used[k] :: n > High(t, k)
  }

  // ---------------------------------------------------------------- operations

  function Clamp(n: int): int {
    if n < 0 then 0 else n
  }

  function Above(ns: set<Nonce>, high: Nonce): set<Nonce> {
    set n | n in ns && n > high
  }

  function Uncovered(t: Table, k: Key): set<Nonce> {
    Above(Tracked(t, k), High(t, k))
  }

  function SweepAll(t: Table): Table {
    var used := map k | k in t.used && Uncovered(t, k) != {} :: Uncovered(t, k);
    t.(used := used, total := Clamp(t.total - (|Entries(t.used)| - |Entries(used)|)))
  }

  function SweepKey(t: Table, k: Key): Table {
    if k !in t.used then t
    else
      var used := if Uncovered(t, k) == {} then t.used - {k} else t.used[k := Uncovered(t, k)];
      t.(used := used, total := Clamp(t.total - (|t.used[k]| - |Uncovered(t, k)|)))
  }

  function MakeInner(t: Table, k: Key): Table {
    if k in t.used then t else t.(used := t.used[k := {}])
  }

  datatype Outcome = Accepted | RolledBack | Panicked | Rejected(reason: Reason)
  datatype Reason = GlobalCap | KeyCap | BelowHighest | AlreadyUsed | Invalid

  /** The table the checks and the write see: inner map made, full caps relieved by sweeping. */
  function Prepared(t: Table, k: Key): Table {
    var t1 := MakeInner(t, k);
    var t2 := if t1.total >= MAX_GLOBAL then SweepAll(t1) else t1;
    if t2.total < MAX_GLOBAL && |Tracked(t2, k)| >= MAX_PER_KEY then SweepKey(t2, k) else t2
  }

  function CapReason(t: Table, k: Key): Option<Reason> {
    var t1 := MakeInner(t, k);
    var t2 := if t1.total >= MAX_GLOBAL then SweepAll(t1) else t1;
    if t2.total >= MAX_GLOBAL then Some(GlobalCap)
    else if |Tracked(Prepared(t, k), k)| >= MAX_PER_KEY then Some(KeyCap)
    else None
  }

  /**
   SubmitMessage, seen from the table. `valid` is the answer of the remaining checks (duplicate id,
   store capacity, validation, timestamps) and `submitted` that of the adapter, a missing one included.
   Writing to a nil inner map panics.
   */
  function Submit(t: Table, k: Key, n: Nonce, valid: bool, submitted: bool): (Table, Outcome) {
    var p := Prepared(t, k);
    var full := CapReason(t, k);
    if full.Some? then (p, Rejected(full.value))
    else if n <= High(p, k) then (p, Rejected(BelowHighest))
    else if n in Tracked(p, k) then (p, Rejected(AlreadyUsed))
    else if !valid then (p, Rejected(Invalid))
    else if k !in p.used then (p, Panicked)
    else if submitted then (Insert(p, k, n), Accepted)
    else (Remove(Insert(p, k, n), k, n), RolledBack)
  }

  function Insert(t: Table, k: Key, n: Nonce): (r: Table)
    requires k in t.used
    ensures k in r.used
  {
    t.(used := t.used[k := t.used[k] + {n}], total := t.total + 1)
  }

  function Remove(t: Table, k: Key, n: Nonce): Table
    requires k in t.used
  {
    t.(used := t.used[k := t.used[k] - {n}], total := t.total - 1)
  }

  /** The table after a message with this key and nonce reached EXECUTED. */
  function Execute(t: Table, k: Key, n: Nonce): Table {
    SweepKey(Raise(t, k, n), k)
  }

  function Raise(t: Table, k: Key, n: Nonce): Table {
    if n > High(t, k) then t.(highest := t.highest[k := n]) else t
  }

  // ---------------------------------------------------------------- sweeps change nothing that matters

  lemma SweepAllBlocks(t: Table)
    ensures SameBlocked(t, SweepAll(t)) && Lean(SweepAll(t))
  {
  }

  lemma SweepKeyBlocks(t: Table, k: Key)
    ensures SameBlocked(t, SweepKey(t, k)) && High(SweepKey(t, k), k) == High(t, k)
    ensures Lean(t) ==> SweepKey(t, k).used == if Tracked(t, k) == {} then t.used - {k} else t.used
  {
    if Lean(t) && k in t.used {
      assert Uncovered(t, k) == t.used[k];
    }
  }

  lemma Shrinks<T>(a: set<T>, b: set<T>)
    requires a <= b
    ensures |a| <= |b| && |b - a| == |b| - |a|
  {
    assert b == a + (b - a);
  }

  lemma SweepAllCounts(t: Table)
    requires Counted(t)
    ensures Counted(SweepAll(t)) && 0 <= |Entries(SweepAll(t).used)| <= t.total
  {
    hide Uncovered;
    UncoveredSubset(t);
    Shrinks(Entries(SweepAll(t).used), Entries(t.used));
  }

  lemma UncoveredSubset(t: Table)
    ensures Entries(SweepAll(t).used) <= Entries(t.used)
  {
  }

  function Pairs(k: Key, ns: set<Nonce>): set<(Key, Nonce)> {
    set n | n in ns :: (k, n)
  }

  lemma {:induction false} PairCount(k: Key, ns: set<Nonce>)
    ensures |Pairs(k, ns)| == |ns|
    decreases ns
  {
    if ns != {} {
      var x :| x in ns;
      PairCount(k, ns - {x});
      assert Pairs(k, ns) == Pairs(k, ns - {x}) + {(k, x)};
    }
  }

  /** Replacing the set of one key changes the entries of that key only. */
  lemma ReplaceCounts(used: map<Key, set<Nonce>>, k: Key, ns: set<Nonce>)
    ensures |Entries(used[k := ns])| == |Entries(used - {k})| + |ns|
  {
    PairCount(k, ns);
    assert Entries(used[k := ns]) == Entries(used - {k}) + Pairs(k, ns);
    assert Entries(used - {k}) !! Pairs(k, ns);
  }

  lemma SweepKeyCounts(t: Table, k: Key)
    requires Counted(t)
    ensures Counted(SweepKey(t, k)) && (k in t.used ==> 0 <= t.total - (|t.used[k]| - |Uncovered(t, k)|) <= t.total)
  {
    hide Entries;
    if k in t.used {
      assert t.used == t.used[k := t.used[k]];
      ReplaceCounts(t.used, k, t.used[k]);
      ReplaceCounts(t.used, k, Uncovered(t, k));
      Shrinks(Uncovered(t, k), t.used[k]);
      if Uncovered(t, k) == {} {
        assert (t.used - {k}) == SweepKey(t, k).used;
      }
    }
  }

  lemma MakeInnerKeeps(t: Table, k: Key)
    ensures SameBlocked(t, MakeInner(t, k)) && k in MakeInner(t, k).used
    ensures Counted(t) ==> Counted(MakeInner(t, k))
    ensures Capped(t) ==> Capped(MakeInner(t, k))
    ensures Lean(t) ==> Lean(MakeInner(t, k))
  {
    assert Entries(MakeInner(t, k).used) == Entries(t.used);
  }

  lemma InsertCounts(t: Table, k: Key, n: Nonce)
    requires k in t.used && n !in t.used[k]
    ensures |Entries(Insert(t, k, n).used)| == |Entries(t.used)| + 1
    ensures Remove(Insert(t, k, n), k, n) == t
  {
    assert Entries(Insert(t, k, n).used) == Entries(t.used) + {(k, n)};
    assert t.used[k] + {n} - {n} == t.used[k];
    assert t.used == t.used[k := t.used[k]];
  }

  // ---------------------------------------------------------------- submit

  lemma PreparedKeeps(t: Table, k: Key)
    ensures SameBlocked(t, Prepared(t, k))
    ensures Counted(t) ==> Counted(Prepared(t, k)) && Prepared(t, k).total <= t.total
  {
    hide SweepAll, SweepKey, Entries, Blocked;
    var t1 := MakeInner(t, k);
    MakeInnerKeeps(t, k);
    SweepAllBlocks(t1);
    var t2 := if t1.total >= MAX_GLOBAL then SweepAll(t1) else t1;
    SweepKeyBlocks(t2, k);
    if Counted(t) {
      SweepAllCounts(t1);
      SweepKeyCounts(t2, k);
      assert SweepKey(t2, k).total <= t2.total by { SweepKeyTotal(t2, k); }
      assert SweepAll(t1).total <= t1.total;
    }
  }

  lemma SweepKeyTotal(t: Table, k: Key)
    requires Counted(t)
    ensures SweepKey(t, k).total <= t.total
  {
    SweepKeyCounts(t, k);
  }

  lemma SubmitCases(t: Table, k: Key, n: Nonce, valid: bool, submitted: bool)
    ensures var p := Prepared(t, k); var (t', o) := Submit(t, k, n, valid, submitted);
            match o
            case Accepted => k in p.used && !Blocked(p, k, n) && p.total < MAX_GLOBAL && |Tracked(p, k)| < MAX_PER_KEY
                             && t' == Insert(p, k, n) && valid && submitted
            case RolledBack => k in p.used && !Blocked(p, k, n) && t' == Remove(Insert(p, k, n), k, n)
            case Panicked => k !in p.used && t' == p && !Blocked(p, k, n) && valid
            case Rejected(_) => t' == p
  {
    hide SweepAll, SweepKey, MakeInner;
    var t1 := MakeInner(t, k);
    SweepKeyAtMost(if t1.total >= MAX_GLOBAL then SweepAll(t1) else t1, k);
  }

  lemma SweepKeyAtMost(t: Table, k: Key)
    ensures SweepKey(t, k).total <= Clamp(t.total)
  {
    if k in t.used {
      Shrinks(Uncovered(t, k), t.used[k]);
    }
  }

  /** An accepted submit blocks exactly its own nonce more; every other outcome blocks nothing more or less. */
  lemma SubmitBlocks(t: Table, k: Key, n: Nonce, valid: bool, submitted: bool)
    ensures var (t', o) := Submit(t, k, n, valid, submitted);
            && (o == Accepted ==> !Blocked(t, k, n))
            && forall k', n' :: Blocked(t', k', n') <==> Blocked(t, k', n') || (o == Accepted && k' == k && n' == n)
  {
    hide Submit, Prepared;
    var p := Prepared(t, k);
    PreparedKeeps(t, k);
    SubmitCases(t, k, n, valid, submitted);
    var (t', o) := Submit(t, k, n, valid, submitted);
    if o == RolledBack {
      InsertCounts(p, k, n);
    }
  }

  lemma SubmitCounts(t: Table, k: Key, n: Nonce, valid: bool, submitted: bool)
    requires Counted(t)
    ensures Counted(Submit(t, k, n, valid, submitted).0)
  {
    hide Submit, Prepared, Entries;
    PreparedKeeps(t, k);
    SubmitCases(t, k, n, valid, submitted);
    var p, o := Prepared(t, k), Submit(t, k, n, valid, submitted).1;
    if o == Accepted || o == RolledBack {
      InsertCounts(p, k, n);
    }
  }

  lemma ExecuteBlocks(t: Table, k: Key, n: Nonce)
    ensures forall k', n': Nonce :: Blocked(Execute(t, k, n), k', n') <==> Blocked(t, k', n') || (k' == k && n' <= n)
  {
    hide SweepKey;
    SweepKeyBlocks(Raise(t, k, n), k);
  }

  lemma ExecuteCounts(t: Table, k: Key, n: Nonce)
    requires Counted(t)
    ensures Counted(Execute(t, k, n))
  {
    hide SweepKey, Entries;
    SweepKeyCounts(Raise(t, k, n), k);
  }

  // ---------------------------------------------------------------- caps and leanness

  lemma SweepsKeepCaps(t: Table, k: Key)
    requires Capped(t) && Counted(t)
    ensures Capped(SweepAll(t)) && Capped(SweepKey(t, k))
  {
    SweepAllCounts(t);
    SweepKeyTotal(t, k);
    forall k' | k' in t.used
      ensures |Uncovered(t, k')| <= MAX_PER_KEY
    {
      Shrinks(Uncovered(t, k'), t.used[k']);
    }
  }

  lemma SubmitKeepsCaps(t: Table, k: Key, n: Nonce, valid: bool, submitted: bool)
    requires Capped(t) && Counted(t)
    ensures Capped(Submit(t, k, n, valid, submitted).0)
  {
    hide Submit, SweepAll, SweepKey, Counted, Capped;
    var t1 := MakeInner(t, k);
    MakeInnerKeeps(t, k);
    SweepsKeepCaps(t1, k);
    SweepAllCounts(t1);
    var t2 := if t1.total >= MAX_GLOBAL then SweepAll(t1) else t1;
    SweepsKeepCaps(t2, k);
    assert Capped(Prepared(t, k));
    SubmitCases(t, k, n, valid, submitted);
    var p, o := Prepared(t, k), Submit(t, k, n, valid, submitted).1;
    if o == Accepted {
      InsertKeepsCaps(p, k, n);
    } else if o == RolledBack {
      InsertCounts(p, k, n);
    }
  }

  lemma InsertKeepsCaps(t: Table, k: Key, n: Nonce)
    requires Capped(t) && k in t.used && t.total < MAX_GLOBAL && |t.used[k]| < MAX_PER_KEY && n !in t.used[k]
    ensures Capped(Insert(t, k, n))
  {
  }

  lemma ExecuteKeepsCaps(t: Table, k: Key, n: Nonce)
    requires Capped(t) && Counted(t)
    ensures Capped(Execute(t, k, n))
  {
    hide SweepKey, SweepAll;
    SweepsKeepCaps(Raise(t, k, n), k);
  }

  lemma SubmitKeepsLean(t: Table, k: Key, n: Nonce, valid: bool, submitted: bool)
    requires Lean(t)
    ensures Lean(Submit(t, k, n, valid, submitted).0)
  {
    hide Submit, SweepAll, SweepKey;
    var t1 := MakeInner(t, k);
    MakeInnerKeeps(t, k);
    SweepAllBlocks(t1);
    var t2 := if t1.total >= MAX_GLOBAL then SweepAll(t1) else t1;
    SweepKeyLean(t2, k);
    assert Lean(Prepared(t, k));
    SubmitCases(t, k, n, valid, submitted);
    var p, o := Prepared(t, k), Submit(t, k, n, valid, submitted).1;
    if o == RolledBack {
      InsertCounts(p, k, n);
    }
  }

  lemma SweepKeyLean(t: Table, k: Key)
    requires forall k', n | k' in t.used && k' != k && n in t.used[k'] :: n > High(t, k')
    ensures Lean(SweepKey(t, k))
  {
  }

  lemma ExecuteKeepsLean(t: Table, k: Key, n: Nonce)
    requires Lean(t)
    ensures Lean(Execute(t, k, n))
  {
    hide SweepKey;
    SweepKeyLean(Raise(t, k, n), k);
  }

  // ---------------------------------------------------------------- the nil inner map

  /** All tracked nonces of the key are below its high-water mark, so a sweep drops its inner map. */
  predicate AllCovered(t: Table, k: Key) {
    forall n | n in Tracked(t, k) :: n <= High(t, k)
  }

  /** When the write in SubmitMessage hits a nil map: exactly when a sweep just removed the key's map. */
  ghost predicate WouldPanic(t: Table, k: Key, n: Nonce) {
    && !Blocked(t, k, n)
    && AllCovered(t, k)
    && (t.total < MAX_GLOBAL ==> |Tracked(t, k)| >= MAX_PER_KEY)
    && (t.total >= MAX_GLOBAL ==> |Entries(SweepAll(t).used)| < MAX_GLOBAL)
  }

  lemma SweepIgnoresEmptyInner(t: Table, k: Key)
    ensures SweepAll(MakeInner(t, k)).used == SweepAll(t).used
  {
    var t1 := MakeInner(t, k);
    assert forall k' :: Uncovered(t1, k') == Uncovered(t, k') by {
      assert forall k' :: Tracked(t1, k') == Tracked(t, k');
    }
  }

  lemma CoveredIff(t: Table, k: Key)
    ensures Uncovered(t, k) == {} <==> AllCovered(t, k)
  {
    if Uncovered(t, k) == {} {
      assert forall n | n in Tracked(t, k) :: n > High(t, k) ==> n in Uncovered(t, k);
    }
  }

  lemma PanicIff(t: Table, k: Key, n: Nonce, valid: bool, submitted: bool)
    requires Counted(t)
    ensures Submit(t, k, n, valid, submitted).1 == Panicked <==> valid && WouldPanic(t, k, n)
  {
    hide Entries, Counted;
    var t1 := MakeInner(t, k);
    MakeInnerKeeps(t, k);
    SweepIgnoresEmptyInner(t, k);
    assert Tracked(t1, k) == Tracked(t, k) && High(t1, k) == High(t, k) && t1.total == t.total;
    CoveredIff(t1, k);
    if t.total >= MAX_GLOBAL {
      SweepAllCounts(t1);
      SweptTotal(t1);
      var t2 := SweepAll(t1);
      assert t2.total == |Entries(SweepAll(t).used)|;
      assert Tracked(t2, k) == Uncovered(t1, k);
      SweepKeyBlocks(t2, k);
      if |Tracked(t2, k)| >= MAX_PER_KEY {
        SweepAllBlocks(t1);
        assert SweepKey(t2, k).used == t2.used;
      }
    } else {
      assert Tracked(SweepKey(t1, k), k) == Uncovered(t1, k);
      assert k in SweepKey(t1, k).used <==> Uncovered(t1, k) != {};
      SweepKeyBlocks(t1, k);
    }
  }

  lemma SweptTotal(t: Table)
    requires Counted(t)
    ensures SweepAll(t).total == |Entries(SweepAll(t).used)|
  {
    SweepAllCounts(t);
  }

  /** From a lean table the write never meets a nil map. */
  lemma LeanNeverPanics(t: Table, k: Key, n: Nonce, valid: bool, submitted: bool)
    requires Counted(t) && Lean(t)
    ensures Submit(t, k, n, valid, submitted).1 != Panicked
  {
    hide Submit;
    PanicIff(t, k, n, valid, submitted);
    assert forall k' | k' in t.used :: Uncovered(t, k') == t.used[k'];
    assert Entries(SweepAll(t).used) == Entries(t.used);
    assert Tracked(t, k) != {} ==> exists m :: m in Tracked(t, k);
  }
}
