/**
 What a submit answers, told from the table before the call: which of the caps, the high-water mark,
 the tracked nonces, the remaining checks and the adapter decides, in that order.
 */
module NonceOutcomes {
  import opened Results
  import opened Nonces

  /** The entries a global sweep would leave. */
  ghost function LiveEntries(t: Table): set<(Key, Nonce)> {
    set k, n | k in t.used && n in t.used[k] && n > High(t, k) :: (k, n)
  }

  /** The nonces of one key a sweep would leave. */
  ghost function LiveNonces(t: Table, k: Key): set<Nonce> {
    set n | n in Tracked(t, k) && n > High(t, k)
  }

  ghost predicate GlobalFull(t: Table) {
    |LiveEntries(t)| >= 1_000_000
  }

  ghost predicate KeyFull(t: Table, k: Key) {
    |LiveNonces(t, k)| >= 10_000
  }

  /** The answer, without the nil-map panic. */
  ghost function Answer(t: Table, k: Key, n: Nonce, valid: bool, submitted: bool): Outcome {
    if GlobalFull(t) then Rejected(GlobalCap)
    else if KeyFull(t, k) then Rejected(KeyCap)
    else if n <= High(t, k) then Rejected(BelowHighest)
    else if n in Tracked(t, k) then Rejected(AlreadyUsed)
    else if !valid then Rejected(Invalid)
    else if submitted then Accepted
    else RolledBack
  }

  lemma SweptEntries(t: Table)
    requires Counted(t)
    ensures Entries(SweepAll(t).used) == LiveEntries(t) && SweepAll(t).total == |LiveEntries(t)| <= t.total
  {
    SweepAllCounts(t);
    SweptTotal(t);
    forall e
      ensures e in Entries(SweepAll(t).used) <==> e in LiveEntries(t)
    {
      if e in LiveEntries(t) {
        assert e.1 in Uncovered(t, e.0);
      }
    }
  }

  lemma LiveIsUncovered(t: Table, k: Key)
    ensures LiveNonces(t, k) == Uncovered(t, k) && |LiveNonces(t, k)| <= |Tracked(t, k)|
  {
    Shrinks(Uncovered(t, k), Tracked(t, k));
  }

  /** Making the inner map changes neither what is live nor what is tracked. */
  lemma InnerChangesNothing(t: Table, k: Key)
    ensures var t1 := MakeInner(t, k);
            && LiveEntries(t1) == LiveEntries(t) && LiveNonces(t1, k) == LiveNonces(t, k)
            && Tracked(t1, k) == Tracked(t, k) && High(t1, k) == High(t, k) && t1.total == t.total
  {
  }

  /** What the caps see after their sweeps. */
  lemma CapsSeeLive(t: Table, k: Key)
    requires Counted(t)
    ensures CapReason(t, k)
         == if GlobalFull(t) then Some(GlobalCap) else if KeyFull(t, k) then Some(KeyCap) else None
  {
    hide Entries, Counted, SweepAll, SweepKey, LiveEntries, LiveNonces;
    var t1 := MakeInner(t, k);
    MakeInnerKeeps(t, k);
    InnerChangesNothing(t, k);
    SweptEntries(t1);
    LiveIsUncovered(t1, k);
    AfterSweepAll(t1, k);
    AfterSweepKey(t1, k);
    AfterSweepKey(SweepAll(t1), k);
    LiveIsUncovered(SweepAll(t1), k);
  }

  lemma AfterSweepAll(t: Table, k: Key)
    ensures Tracked(SweepAll(t), k) == Uncovered(t, k) == Uncovered(SweepAll(t), k)
    ensures High(SweepAll(t), k) == High(t, k)
  {
  }

  lemma AfterSweepKey(t: Table, k: Key)
    ensures Tracked(SweepKey(t, k), k) == Uncovered(t, k) && High(SweepKey(t, k), k) == High(t, k)
  {
  }

  /** A nonce above the mark is tracked after the cap relief exactly when it was before. */
  lemma ReliefKeepsTracked(t: Table, k: Key, n: Nonce)
    ensures High(Prepared(t, k), k) == High(t, k)
    ensures n > High(t, k) ==> (n in Tracked(Prepared(t, k), k) <==> n in Tracked(t, k))
  {
    hide SweepAll, SweepKey;
    var t1 := MakeInner(t, k);
    InnerChangesNothing(t, k);
    AfterSweepAll(t1, k);
    AfterSweepKey(t1, k);
    AfterSweepKey(SweepAll(t1), k);
  }

  /** Every outcome, with its exact condition. */
  lemma SubmitAnswers(t: Table, k: Key, n: Nonce, valid: bool, submitted: bool)
    requires Counted(t)
    ensures Submit(t, k, n, valid, submitted).1
         == if valid && WouldPanic(t, k, n) then Panicked else Answer(t, k, n, valid, submitted)
  {
    hide Prepared, CapReason, Counted, GlobalFull, KeyFull, WouldPanic;
    PanicIff(t, k, n, valid, submitted);
    CapsSeeLive(t, k);
    ReliefKeepsTracked(t, k, n);
  }

  /** In particular, a fresh nonce is accepted by every table below both caps that a sweep does not empty. */
  lemma AcceptedIff(t: Table, k: Key, n: Nonce, valid: bool, submitted: bool)
    requires Counted(t)
    ensures Submit(t, k, n, valid, submitted).1 == Accepted
       <==> valid && submitted && !Blocked(t, k, n) && !WouldPanic(t, k, n) && !GlobalFull(t) && !KeyFull(t, k)
  {
    hide Submit, GlobalFull, KeyFull, WouldPanic;
    SubmitAnswers(t, k, n, valid, submitted);
  }
}
