/**
 What whole calls of the ordered mutex do, from any state of any run: who holds what afterwards, what
 the stacks record, and when the check fires. TryLock is the call without a check.
 */
module LockSteps {
  import opened Results
  import opened LockOrder

  /** Several steps of one goroutine. */
  function Steps(c: Config, s: State, g: Gid, actions: seq<Action>): Option<State>
    decreases |actions|
  {
    if actions == [] then Some(s)
    else
      var next := Step(c, s, g, actions[0]);
      if next.None? then None else Steps(c, next.value, g, actions[1..])
  }

  /** g is idle in both states, and no other goroutine, mutex or stack differs. */
  ghost predicate OnlyOf(s: State, s': State, g: Gid, m: Mutex) {
    && At(s, g) == At(s', g) == Idle
    && (forall h | h != g :: At(s', h) == At(s, h) && StackFor(s'.stacks, h) == StackFor(s.stacks, h))
    && (forall k, h | k != m :: Holds(s', h, k) <==> Holds(s, h, k))
  }

  /** g has taken m: it is the only holder, and the entry of m is on top of its stack. */
  ghost predicate Took(c: Config, s: State, s': State, g: Gid, m: Mutex)
    requires m in c
  {
    && OnlyOf(s, s', g, m) && (forall h :: Holds(s', h, m) <==> h == g)
    && StackFor(s'.stacks, g) == StackFor(s.stacks, g) + [c[m]]
  }

  lemma OneAction(c: Config, s: State, g: Gid, a: Action)
    ensures Steps(c, s, g, [a]) == Step(c, s, g, a)
  {
    hide Step;
    assert [a][1..] == [];
  }

  lemma MoreActions(c: Config, s: State, g: Gid, a: Action, rest: seq<Action>)
    requires Step(c, s, g, a).Some?
    ensures Steps(c, s, g, [a] + rest) == Steps(c, Step(c, s, g, a).value, g, rest)
  {
    hide Step;
    assert ([a] + rest)[1..] == rest;
  }

  function ByOne(g: Gid, actions: seq<Action>): (r: seq<(Gid, Action)>)
    ensures |r| == |actions|
  {
    seq(|actions|, i requires 0 <= i < |actions| => (g, actions[i]))
  }

  /** Steps without Lock calls extend a run. */
  lemma {:induction false} StepsExtendRun(c: Config, steps: seq<(Gid, Action)>, s: State, g: Gid, actions: seq<Action>)
    requires Run(c, steps) == Some(s) && Steps(c, s, g, actions).Some?
    requires forall i | 0 <= i < |actions| :: !actions[i].Lock?
    ensures Run(c, steps + ByOne(g, actions)) == Steps(c, s, g, actions)
    decreases |actions|
  {
    hide Step, Run;
    if actions == [] {
      assert steps + ByOne(g, actions) == steps;
    } else {
      var a := actions[0];
      var next := Step(c, s, g, a).value;
      Extend(c, steps, s, g, a, next);
      StepsExtendRun(c, steps + [(g, a)], next, g, actions[1..]);
      assert steps + ByOne(g, actions) == steps + [(g, a)] + ByOne(g, actions[1..]);
    }
  }

  /** TryLock of a free mutex takes and records it, whatever the goroutine holds. */
  lemma TryLockTakes(c: Config, s: State, g: Gid, m: Mutex)
    requires At(s, g) == Idle && m in c && m !in s.owner
    ensures Steps(c, s, g, [TryLock(m), Continue]).Some?
    ensures Took(c, s, Steps(c, s, g, [TryLock(m), Continue]).value, g, m)
  {
    hide Inversions, Popped;
    MoreActions(c, s, g, TryLock(m), [Continue]);
    OneAction(c, Step(c, s, g, TryLock(m)).value, g, Continue);
  }

  /** TryLock of a held mutex changes nothing. */
  lemma TryLockOfHeld(c: Config, s: State, g: Gid, m: Mutex)
    requires At(s, g) == Idle && m in c && m in s.owner
    ensures Step(c, s, g, TryLock(m)) == Some(s)
  {
  }

  /** The check of Lock fires exactly when a ranked lock above m is on the stack; it looks at nothing else. */
  lemma LockFiresIff(c: Config, s: State, g: Gid, m: Mutex)
    requires At(s, g) == Idle && m in c
    ensures Step(c, s, g, Lock(m)).None?
       <==> c[m].rank != 0 && c[m].lockId != "" && exists e | e in StackFor(s.stacks, g) :: e.rank > c[m].rank
  {
    NoInversion(c[m].rank, StackFor(s.stacks, g));
  }

  /** A Lock that passes its check waits for exactly as long as the mutex is held. */
  lemma LockWaits(c: Config, s: State, g: Gid, m: Mutex)
    requires At(s, g) == Idle && Step(c, s, g, Lock(m)).Some?
    ensures var s' := Step(c, s, g, Lock(m)).value;
            && At(s', g) == Waiting(m) && s'.owner == s.owner && s'.stacks == s.stacks
            && (forall h | h != g :: At(s', h) == At(s, h))
            && (Step(c, s', g, Continue).None? <==> m in s.owner)
  {
    hide Inversions, Popped;
  }

  /** An uncontended Lock that passes its check ends like a successful TryLock. */
  lemma LockTakes(c: Config, s: State, g: Gid, m: Mutex)
    requires At(s, g) == Idle && m in c && m !in s.owner && Step(c, s, g, Lock(m)).Some?
    ensures Steps(c, s, g, [Lock(m), Continue, Continue]).Some?
    ensures Took(c, s, Steps(c, s, g, [Lock(m), Continue, Continue]).value, g, m)
  {
    hide Inversions, Popped;
    MoreActions(c, s, g, Lock(m), [Continue, Continue]);
    var s1 := Step(c, s, g, Lock(m)).value;
    MoreActions(c, s1, g, Continue, [Continue]);
    assert [Continue] + [Continue] == [Continue, Continue];
    assert [Lock(m)] + [Continue, Continue] == [Lock(m), Continue, Continue];
    OneAction(c, Step(c, s1, g, Continue).value, g, Continue);
  }

  /** Only the holder can unlock; then nobody holds the mutex and its last entry is off the stack. */
  lemma UnlockGives(c: Config, s: State, g: Gid, m: Mutex)
    requires At(s, g) == Idle && m in c
    ensures Steps(c, s, g, [Unlock(m), Continue]).Some? <==> Holds(s, g, m)
    ensures Holds(s, g, m) ==>
              var s' := Steps(c, s, g, [Unlock(m), Continue]).value;
              && OnlyOf(s, s', g, m) && m !in s'.owner
              && StackFor(s'.stacks, g) == WithoutLast(StackFor(s.stacks, g), c[m].lockId)
  {
    hide Inversions, Popped, WithoutLast;
    if Holds(s, g, m) {
      MoreActions(c, s, g, Unlock(m), [Continue]);
      var s1 := Step(c, s, g, Unlock(m)).value;
      OneAction(c, s1, g, Continue);
      forall h
        ensures StackFor(Popped(s.stacks, g, c[m].lockId), h)
             == if h == g then WithoutLast(StackFor(s.stacks, g), c[m].lockId) else StackFor(s.stacks, h)
      {
        PoppedStack(s.stacks, g, c[m].lockId, h);
      }
    }
  }

  /** Taking a mutex and releasing it leaves every holder and every stack as it was. */
  lemma TakeAndReleaseRestores(c: Config, s: State, g: Gid, m: Mutex)
    requires At(s, g) == Idle && m in c && m !in s.owner
    ensures var taken := Steps(c, s, g, [TryLock(m), Continue]);
            taken.Some? && var back := Steps(c, taken.value, g, [Unlock(m), Continue]);
            && back.Some? && OnlyOf(s, back.value, g, m) && m !in back.value.owner
            && StackFor(back.value.stacks, g) == StackFor(s.stacks, g)
  {
    hide Step, Inversions, Popped;
    TryLockTakes(c, s, g, m);
    var taken := Steps(c, s, g, [TryLock(m), Continue]).value;
    UnlockGives(c, taken, g, m);
    PushedLast(StackFor(s.stacks, g), c[m]);
  }

  lemma PushedLast(stack: seq<Entry>, e: Entry)
    ensures WithoutLast(stack + [e], e.lockId) == stack
  {
    assert (stack + [e])[..|stack|] == stack;
  }

  /**
   A TryLock against the order succeeds silently, and what it recorded counts from then on: the next
   Lock of a mutex ranked between the two fires because of the higher one.
   */
  lemma TryLockAgainstTheOrder(c: Config, g: Gid, low: Mutex, mid: Mutex, high: Mutex)
    requires low in c && mid in c && high in c && low != high
    requires 0 < c[low].rank < c[mid].rank < c[high].rank && c[mid].lockId != "" && c[low].lockId != ""
    ensures var s1 := Steps(c, INITIAL, g, [TryLock(high), Continue]);
            && s1.Some? && Step(c, s1.value, g, Lock(low)).None?
            && var s2 := Steps(c, s1.value, g, [TryLock(low), Continue]);
               && s2.Some? && Holds(s2.value, g, low) && Holds(s2.value, g, high)
               && Step(c, s2.value, g, Lock(mid)).None?
               && Run(c, ByOne(g, [TryLock(high), Continue]) + ByOne(g, [TryLock(low), Continue])) == s2
  {
    hide Step, Took, Run;
    TryLockTakes(c, INITIAL, g, high);
    var s1 := Steps(c, INITIAL, g, [TryLock(high), Continue]).value;
    assert Took(c, INITIAL, s1, g, high);
    TookFacts(c, INITIAL, s1, g, high, low);
    assert c[high] in StackFor(s1.stacks, g);
    LockFiresIff(c, s1, g, low);
    TryLockTakes(c, s1, g, low);
    var s2 := Steps(c, s1, g, [TryLock(low), Continue]).value;
    TookFacts(c, s1, s2, g, low, high);
    assert c[high] in StackFor(s2.stacks, g);
    LockFiresIff(c, s2, g, mid);
    EmptyRun(c);
    StepsExtendRun(c, [], INITIAL, g, [TryLock(high), Continue]);
    assert [] + ByOne(g, [TryLock(high), Continue]) == ByOne(g, [TryLock(high), Continue]);
    StepsExtendRun(c, ByOne(g, [TryLock(high), Continue]), s1, g, [TryLock(low), Continue]);
  }

  lemma TookFacts(c: Config, s: State, s': State, g: Gid, m: Mutex, other: Mutex)
    requires m in c && Took(c, s, s', g, m) && other != m
    ensures Holds(s', g, m) && At(s', g) == Idle && StackFor(s'.stacks, g) == StackFor(s.stacks, g) + [c[m]]
    ensures (other in s'.owner <==> other in s.owner) && (Holds(s', g, other) <==> Holds(s, g, other))
  {
    if other in s'.owner {
      assert Holds(s', s'.owner[other], other);
    }
    if other in s.owner {
      assert Holds(s, s.owner[other], other);
    }
  }

  /** Asking again for a mutex one holds passes the check and waits for oneself. */
  lemma RelockDeadlocks(c: Config, s: State, g: Gid, m: Mutex)
    requires At(s, g) == Idle && m in c && Holds(s, g, m)
    requires forall e | e in StackFor(s.stacks, g) :: e.rank <= c[m].rank
    ensures Step(c, s, g, Lock(m)).Some? && Deadlocked(Step(c, s, g, Lock(m)).value)
  {
    LockFiresIff(c, s, g, m);
    var s' := Step(c, s, g, Lock(m)).value;
    var p := [g, g];
    assert WaitsFor(s', g, g);
    assert WaitPath(s', p) && p[0] == p[|p| - 1];
  }
}
