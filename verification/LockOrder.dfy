/**
 The lock-order checker of common/lock_order.go, with tracing on, as interleaved goroutine steps.

 A goroutine's Lock call is three steps (check, wait-and-take, record), its Unlock call two (release,
 forget), so other goroutines may run between the mutex operation and the bookkeeping. TryLock takes
 without a check. A run is any interleaving in which the check never fires, no goroutine locks a mutex
 it holds, and only the holder unlocks.
 */
module LockOrder {
  import opened Results

  type Gid = int
  type Mutex = nat

  /** What Init gave a mutex, and what a goroutine's stack records about it. */
  datatype Entry = Entry(lockId: string, rank: nat)

  type Config = map<Mutex, Entry>

  // ---------------------------------------------------------------- the tracker

  /** The held locks that assertOrder reports for a mutex `e`: ranked ones above its own rank. */
  function Inversions(e: Entry, stack: seq<Entry>): seq<Entry> {
    if e.rank == 0 || e.lockId == "" then [] else HigherRanked(e.rank, stack)
  }

  function HigherRanked(rank: nat, stack: seq<Entry>): seq<Entry> {
    if stack == [] then []
    else HigherRanked(rank, stack[..|stack| - 1])
         + (if stack[|stack| - 1].rank != 0 && stack[|stack| - 1].rank > rank then [stack[|stack| - 1]] else [])
  }

  /** Removes the last entry that carries the id. */
  function WithoutLast(stack: seq<Entry>, lockId: string): seq<Entry> {
    if stack == [] then []
    else if stack[|stack| - 1].lockId == lockId then stack[..|stack| - 1]
    else WithoutLast(stack[..|stack| - 1], lockId) + [stack[|stack| - 1]]
  }

  lemma {:induction false} NoInversion(rank: nat, stack: seq<Entry>)
    ensures HigherRanked(rank, stack) == [] <==> forall e | e in stack :: e.rank <= rank
  {
    if stack != [] {
      var last := |stack| - 1;
      NoInversion(rank, stack[..last]);
      assert stack == stack[..last] + [stack[last]];
    }
  }

  lemma {:induction false} OthersStay(stack: seq<Entry>, lockId: string, e: Entry)
    requires e in stack && e.lockId != lockId
    ensures e in WithoutLast(stack, lockId)
  {
    var last := |stack| - 1;
    assert stack == stack[..last] + [stack[last]];
    if stack[last] != e && stack[last].lockId != lockId {
      OthersStay(stack[..last], lockId, e);
    }
  }

  function StackFor(stacks: map<Gid, seq<Entry>>, g: Gid): seq<Entry> {
    if g in stacks then stacks[g] else []
  }

  /** The map after a pop: an emptied stack is deleted, and without a match nothing is stored. */
  function Popped(stacks: map<Gid, seq<Entry>>, g: Gid, lockId: string): map<Gid, seq<Entry>> {
    var stack := StackFor(stacks, g);
    if forall e | e in stack :: e.lockId != lockId then stacks
    else if WithoutLast(stack, lockId) == [] then stacks - {g}
    else stacks[g := WithoutLast(stack, lockId)]
  }

  lemma {:induction false} NothingToRemove(stack: seq<Entry>, lockId: string)
    requires forall e | e in stack :: e.lockId != lockId
    ensures WithoutLast(stack, lockId) == stack
  {
    if stack != [] {
      var last := |stack| - 1;
      NothingToRemove(stack[..last], lockId);
      assert stack == stack[..last] + [stack[last]];
    }
  }

  lemma PoppedStack(stacks: map<Gid, seq<Entry>>, g: Gid, lockId: string, h: Gid)
    ensures StackFor(Popped(stacks, g, lockId), h)
         == if h == g then WithoutLast(StackFor(stacks, g), lockId) else StackFor(stacks, h)
  {
    var stack := StackFor(stacks, g);
    if forall e | e in stack :: e.lockId != lockId {
      NothingToRemove(stack, lockId);
    }
  }

  /** The global tracker and its loops. */
  class Tracker {
    var stacks: map<Gid, seq<Entry>>

    constructor ()
      ensures stacks == map[]
    {
      stacks := map[];
    }

    /** The violation assertOrder would fire with; none exactly when no ranked held lock is above e. */
    method AssertOrder(g: Gid, e: Entry) returns (held: seq<Entry>)
      ensures held == Inversions(e, StackFor(stacks, g))
      ensures held == [] <==> e.rank == 0 || e.lockId == "" || forall h | h in StackFor(stacks, g) :: h.rank <= e.rank
    {
      NoInversion(e.rank, StackFor(stacks, g));
      if e.rank == 0 || e.lockId == "" {
        return [];
      }
      var stack := StackFor(stacks, g);
      held := [];
      for i := 0 to |stack|
        invariant held == HigherRanked(e.rank, stack[..i])
      {
        var ent := stack[i];
        assert stack[..i + 1][..i] == stack[..i];
        if ent.rank == 0 {
          continue;
        }
        if ent.rank > e.rank {
          held := held + [ent];
        }
      }
      assert stack[..|stack|] == stack;
    }

    method Record(g: Gid, e: Entry)
      modifies this
      ensures stacks == old(stacks)[g := StackFor(old(stacks), g) + [e]]
    {
      stacks := stacks[g := StackFor(stacks, g) + [e]];
    }

    method Forget(g: Gid, lockId: string)
      modifies this
      ensures stacks == Popped(old(stacks), g, lockId)
    {
      var stack := StackFor(stacks, g);
      var i := |stack| - 1;
      while i >= 0
        invariant -1 <= i < |stack| && stacks == old(stacks)
        invariant forall k | i < k < |stack| :: stack[k].lockId != lockId
      {
        if stack[i].lockId == lockId {
          var newStack := stack[..i] + stack[i + 1..];
          RemovedAt(stack, lockId, i);
          if |newStack| == 0 {
            stacks := stacks - {g};
          } else {
            stacks := stacks[g := newStack];
          }
          return;
        }
        i := i - 1;
      }
    }
  }

  lemma {:induction false} RemovedAt(stack: seq<Entry>, lockId: string, i: nat)
    requires i < |stack| && stack[i].lockId == lockId
    requires forall k | i < k < |stack| :: stack[k].lockId != lockId
    ensures WithoutLast(stack, lockId) == stack[..i] + stack[i + 1..]
    decreases |stack|
  {
    var last := |stack| - 1;
    if i < last {
      RemovedAt(stack[..last], lockId, i);
      assert stack[i + 1..] == stack[i + 1..last] + [stack[last]];
    }
  }

  // ---------------------------------------------------------------- goroutines

  datatype Pc = Idle | Waiting(m: Mutex) | Acquired(m: Mutex) | Released(m: Mutex)

  datatype State = State(owner: map<Mutex, Gid>, stacks: map<Gid, seq<Entry>>, pc: map<Gid, Pc>)

  datatype Action = Lock(m: Mutex) | TryLock(m: Mutex) | Unlock(m: Mutex) | Continue

  function At(s: State, g: Gid): Pc {
    if g in s.pc then s.pc[g] else Idle
  }

  predicate Holds(s: State, g: Gid, m: Mutex) {
    m in s.owner && s.owner[m] == g
  }

  /** One step of goroutine g; None when the step is not enabled, or a check fires. */
  function Step(c: Config, s: State, g: Gid, a: Action): Option<State> {
    match At(s, g)
    case Idle =>
      (match a
       case Lock(m) =>
         if m !in c || Inversions(c[m], StackFor(s.stacks, g)) != [] then None
         else Some(s.(pc := s.pc[g := Waiting(m)]))
       case TryLock(m) =>
         if m !in c then None
         else if m in s.owner then Some(s)
         else Some(s.(owner := s.owner[m := g], pc := s.pc[g := Acquired(m)]))
       case Unlock(m) =>
         if m !in c || !Holds(s, g, m) then None
         else Some(s.(owner := s.owner - {m}, pc := s.pc[g := Released(m)]))
       case Continue => None)
    case Waiting(m) =>
      if a != Continue || m in s.owner then None
      else Some(s.(owner := s.owner[m := g], pc := s.pc[g := Acquired(m)]))
    case Acquired(m) =>
      if a != Continue || m !in c then None
      else Some(s.(stacks := s.stacks[g := StackFor(s.stacks, g) + [c[m]]], pc := s.pc[g := Idle]))
    case Released(m) =>
      if a != Continue || m !in c then None
      else Some(s.(stacks := Popped(s.stacks, g, c[m].lockId), pc := s.pc[g := Idle]))
  }

  const INITIAL := State(map[], map[], map[])

  /** g asks for a mutex it holds; the check does not see that, and sync.Mutex never grants it. */
  predicate Relocks(s: State, g: Gid, a: Action) {
    a.Lock? && Holds(s, g, a.m)
  }

  /** The state after a list of steps, from the start; no goroutine locks a mutex it holds. */
  function Run(c: Config, steps: seq<(Gid, Action)>): Option<State> {
    if steps == [] then Some(INITIAL)
    else
      var before := Run(c, steps[..|steps| - 1]);
      var (g, a) := steps[|steps| - 1];
      if before.None? || Relocks(before.value, g, a) then None else Step(c, before.value, g, a)
  }

  ghost predicate Reachable(c: Config, s: State) {
    exists steps :: Run(c, steps) == Some(s)
  }

  // ---------------------------------------------------------------- waiting

  predicate WaitsFor(s: State, g: Gid, h: Gid) {
    At(s, g).Waiting? && Holds(s, h, At(s, g).m)
  }

  predicate WaitPath(s: State, p: seq<Gid>) {
    forall i | 0 <= i < |p| - 1 :: WaitsFor(s, p[i], p[i + 1])
  }

  ghost predicate Deadlocked(s: State) {
    exists p: seq<Gid> :: |p| >= 2 && WaitPath(s, p) && p[0] == p[|p| - 1]
  }

  ghost predicate DeadlockFree(c: Config) {
    forall s | Reachable(c, s) :: !Deadlocked(s)
  }

  /**
   What the configuration must be: ids and ranks pairwise different, no zero rank beside another mutex,
   and an empty id at most on the highest-ranked mutex.
   */
  predicate Ordered(c: Config) {
    forall a, b | a in c && b in c && a != b :: OrderedPair(c[a], c[b])
  }

  predicate OrderedPair(a: Entry, b: Entry) {
    a.lockId != b.lockId && a.rank != b.rank && a.rank != 0 && b.rank != 0 && (a.lockId == "" ==> a.rank > b.rank)
  }

  // ---------------------------------------------------------------- safety

  /** Every mutex a goroutine holds is on its stack, except between taking it and recording it. */
  ghost predicate Recorded(c: Config, s: State) {
    && (forall m | m in s.owner :: m in c)
    && (forall g | g in s.pc && !s.pc[g].Idle? :: s.pc[g].m in c)
    && (forall g | g in s.pc && s.pc[g].Released? :: !Holds(s, g, s.pc[g].m))
    && (forall m | m in s.owner && At(s, s.owner[m]) != Acquired(m) :: c[m] in StackFor(s.stacks, s.owner[m]))
  }

  /** A waiting goroutine holds only mutexes ranked below the one it waits for. */
  ghost predicate Ascending(c: Config, s: State) {
    forall g, m | g in s.pc && s.pc[g].Waiting? && Holds(s, g, m) ::
      m in c && s.pc[g].m in c && c[m].rank < c[s.pc[g].m].rank
  }

  ghost predicate Inv(c: Config, s: State) {
    Recorded(c, s) && Ascending(c, s)
  }

  lemma WaitKeeps(c: Config, s: State, g: Gid, m: Mutex)
    requires Ordered(c) && Inv(c, s) && At(s, g).Idle? && m in c && !Holds(s, g, m)
    requires Inversions(c[m], StackFor(s.stacks, g)) == []
    ensures Inv(c, s.(pc := s.pc[g := Waiting(m)]))
  {
    hide Inversions, Ordered;
    var s' := s.(pc := s.pc[g := Waiting(m)]);
    assert Recorded(c, s');
    forall h, k | h in s'.pc && s'.pc[h].Waiting? && Holds(s', h, k)
      ensures k in c && s'.pc[h].m in c && c[k].rank < c[s'.pc[h].m].rank
    {
      if h == g {
        CheckedIsHigher(c, s, g, m, k);
      }
    }
  }

  lemma TakeKeeps(c: Config, s: State, g: Gid, m: Mutex)
    requires Inv(c, s) && (At(s, g).Idle? || At(s, g) == Waiting(m)) && m in c && m !in s.owner
    ensures Inv(c, s.(owner := s.owner[m := g], pc := s.pc[g := Acquired(m)]))
  {
  }

  lemma ReleaseKeeps(c: Config, s: State, g: Gid, m: Mutex)
    requires Inv(c, s) && At(s, g).Idle? && Holds(s, g, m)
    ensures Inv(c, s.(owner := s.owner - {m}, pc := s.pc[g := Released(m)]))
  {
  }

  lemma RecordKeeps(c: Config, s: State, g: Gid, m: Mutex)
    requires Inv(c, s) && At(s, g) == Acquired(m) && m in c
    ensures Inv(c, s.(stacks := s.stacks[g := StackFor(s.stacks, g) + [c[m]]], pc := s.pc[g := Idle]))
  {
  }

  lemma ForgetKeeps(c: Config, s: State, g: Gid, m: Mutex)
    requires Ordered(c) && Inv(c, s) && At(s, g) == Released(m) && m in c
    ensures Inv(c, s.(stacks := Popped(s.stacks, g, c[m].lockId), pc := s.pc[g := Idle]))
  {
    hide Popped, WithoutLast, Ordered;
    var s' := s.(stacks := Popped(s.stacks, g, c[m].lockId), pc := s.pc[g := Idle]);
    forall k | k in s'.owner && At(s', s'.owner[k]) != Acquired(k)
      ensures k in c && c[k] in StackFor(s'.stacks, s'.owner[k])
    {
      PoppedStack(s.stacks, g, c[m].lockId, s'.owner[k]);
      if s'.owner[k] == g {
        ReleasedIsElsewhere(c, s, g, m, k);
      }
    }
  }

  lemma ReleasedIsElsewhere(c: Config, s: State, g: Gid, m: Mutex, k: Mutex)
    requires Ordered(c) && Recorded(c, s) && At(s, g) == Released(m) && Holds(s, g, k)
    requires k != m
    ensures c[k] in WithoutLast(StackFor(s.stacks, g), c[m].lockId)
  {
    assert OrderedPair(c[k], c[m]);
    OthersStay(StackFor(s.stacks, g), c[m].lockId, c[k]);
  }

  /** Every step of every goroutine keeps the bookkeeping and the order. */
  lemma StepKeeps(c: Config, s: State, g: Gid, a: Action, s': State)
    requires Ordered(c) && Inv(c, s) && !Relocks(s, g, a) && Step(c, s, g, a) == Some(s')
    ensures Inv(c, s')
  {
    hide Inversions, Popped, Inv, Ordered;
    match At(s, g)
    case Idle =>
      match a {
        case Lock(m) => WaitKeeps(c, s, g, m);
        case TryLock(m) =>
          if m !in s.owner {
            TakeKeeps(c, s, g, m);
          }
        case Unlock(m) => ReleaseKeeps(c, s, g, m);
        case Continue =>
      }
    case Waiting(m) =>
      assert m in c by { WaitingIsKnown(c, s, g); }
      TakeKeeps(c, s, g, m);
    case Acquired(m) => RecordKeeps(c, s, g, m);
    case Released(m) => ForgetKeeps(c, s, g, m);
  }

  lemma WaitingIsKnown(c: Config, s: State, g: Gid)
    requires Inv(c, s) && At(s, g).Waiting?
    ensures At(s, g).m in c
  {
  }

  /** What a silent check says about a mutex already held. */
  lemma CheckedIsHigher(c: Config, s: State, g: Gid, m: Mutex, h: Mutex)
    requires Ordered(c) && Recorded(c, s) && At(s, g).Idle? && m in c && Holds(s, g, h) && h != m
    requires Inversions(c[m], StackFor(s.stacks, g)) == []
    ensures c[h].rank < c[m].rank
  {
    assert OrderedPair(c[h], c[m]) && OrderedPair(c[m], c[h]);
    NoInversion(c[m].rank, StackFor(s.stacks, g));
  }

  lemma {:induction false} RunKeepsOrder(c: Config, steps: seq<(Gid, Action)>, s: State)
    requires Ordered(c) && Run(c, steps) == Some(s)
    ensures Recorded(c, s) && Ascending(c, s)
    decreases |steps|
  {
    hide Step, Ordered;
    if steps != [] {
      var before := Run(c, steps[..|steps| - 1]).value;
      var (g, a) := steps[|steps| - 1];
      RunKeepsOrder(c, steps[..|steps| - 1], before);
      StepKeeps(c, before, g, a, s);
    }
  }

  /** Along a path of waits the rank of the awaited mutex strictly grows. */
  lemma {:induction false} RanksGrow(c: Config, s: State, p: seq<Gid>, k: nat)
    requires Recorded(c, s) && Ascending(c, s) && WaitPath(s, p) && 0 < k < |p| && At(s, p[k]).Waiting?
    ensures At(s, p[0]).Waiting? && At(s, p[0]).m in c && At(s, p[k]).m in c
    ensures c[At(s, p[0]).m].rank < c[At(s, p[k]).m].rank
  {
    hide Recorded;
    var m := At(s, p[k - 1]).m;
    assert WaitsFor(s, p[k - 1], p[k]);
    assert m in c && c[m].rank < c[At(s, p[k]).m].rank;
    if k > 1 {
      RanksGrow(c, s, p, k - 1);
    }
  }

  /** No run reaches a cycle of waits. */
  lemma OrderedIsDeadlockFree(c: Config)
    requires Ordered(c)
    ensures DeadlockFree(c)
  {
    hide Ordered, Recorded, Ascending, Run;
    forall s | Reachable(c, s)
      ensures !Deadlocked(s)
    {
      var steps :| Run(c, steps) == Some(s);
      RunKeepsOrder(c, steps, s);
      forall p: seq<Gid> | |p| >= 2 && WaitPath(s, p)
        ensures p[0] != p[|p| - 1]
      {
        if p[0] == p[|p| - 1] {
          assert WaitsFor(s, p[0], p[1]);
          RanksGrow(c, s, p, |p| - 1);
          assert false;
        }
      }
    }
  }

  // ---------------------------------------------------------------- progress

  /** A step that needs nobody else: taking a free mutex, finishing the bookkeeping, or releasing. */
  predicate CanAdvance(c: Config, s: State, g: Gid) {
    || Step(c, s, g, Continue).Some?
    || exists m | m in s.owner :: Step(c, s, g, Unlock(m)).Some?
  }

  lemma {:induction false} RanksAreBounded(c: Config, ms: set<Mutex>) returns (top: nat)
    requires ms <= c.Keys
    ensures forall m | m in ms :: c[m].rank <= top
    decreases ms
  {
    if ms == {} {
      return 0;
    }
    var x :| x in ms;
    var r := RanksAreBounded(c, ms - {x});
    top := r + c[x].rank;
    assert forall m | m in ms :: m == x || m in ms - {x};
  }

  /** From every waiting goroutine a path of waits leads to one that can advance. */
  lemma {:induction false} WaitLeadsToProgress(c: Config, s: State, g: Gid, top: nat) returns (p: seq<Gid>)
    requires Recorded(c, s) && Ascending(c, s) && At(s, g).Waiting? && forall m | m in c :: c[m].rank <= top
    ensures |p| >= 1 && p[0] == g && WaitPath(s, p) && CanAdvance(c, s, p[|p| - 1])
    decreases top - c[At(s, g).m].rank
  {
    hide Inversions, Popped, WithoutLast;
    var m := At(s, g).m;
    assert m in c;
    if m !in s.owner {
      assert Step(c, s, g, Continue).Some?;
      p := [g];
    } else {
      var h := s.owner[m];
      assert WaitsFor(s, g, h);
      match At(s, h)
      case Waiting(k) =>
        assert c[m].rank < c[k].rank <= top;
        var rest := WaitLeadsToProgress(c, s, h, top);
        p := [g] + rest;
        forall i | 0 <= i < |p| - 1
          ensures WaitsFor(s, p[i], p[i + 1])
        {
          if i > 0 {
            assert WaitsFor(s, rest[i - 1], rest[i]);
          }
        }
      case Idle =>
        assert Step(c, s, h, Unlock(m)).Some?;
        p := [g, h];
      case Acquired(_) =>
        assert Step(c, s, h, Continue).Some?;
        p := [g, h];
      case Released(_) =>
        assert Step(c, s, h, Continue).Some?;
        p := [g, h];
    }
  }

  /** In every reachable state with a waiting goroutine, some goroutine can advance. */
  lemma RunsProgress(c: Config, s: State, g: Gid)
    requires Ordered(c) && Reachable(c, s) && At(s, g).Waiting?
    ensures exists p: seq<Gid> :: |p| >= 1 && p[0] == g && WaitPath(s, p) && CanAdvance(c, s, p[|p| - 1])
  {
    hide Ordered, Recorded, Ascending, Run, CanAdvance;
    var steps :| Run(c, steps) == Some(s);
    RunKeepsOrder(c, steps, s);
    var top := RanksAreBounded(c, c.Keys);
    var p := WaitLeadsToProgress(c, s, g, top);
  }

  // ---------------------------------------------------------------- necessity

  lemma Extend(c: Config, steps: seq<(Gid, Action)>, s: State, g: Gid, a: Action, s': State)
    requires Run(c, steps) == Some(s) && !Relocks(s, g, a) && Step(c, s, g, a) == Some(s')
    ensures Run(c, steps + [(g, a)]) == Some(s')
  {
    hide Step;
    assert (steps + [(g, a)])[..|steps|] == steps;
  }

  /** A whole uncontended Lock call. */
  lemma Take(c: Config, steps: seq<(Gid, Action)>, s: State, g: Gid, m: Mutex)
      returns (steps': seq<(Gid, Action)>, s': State)
    requires Run(c, steps) == Some(s) && At(s, g) == Idle && m in c && m !in s.owner
    requires Inversions(c[m], StackFor(s.stacks, g)) == []
    ensures Run(c, steps') == Some(s') && s'.owner == s.owner[m := g]
    ensures s'.stacks == s.stacks[g := StackFor(s.stacks, g) + [c[m]]]
    ensures forall h :: At(s', h) == At(s, h)
  {
    hide Run, Inversions;
    var s1 := s.(pc := s.pc[g := Waiting(m)]);
    Extend(c, steps, s, g, Lock(m), s1);
    var s2 := s1.(owner := s.owner[m := g], pc := s1.pc[g := Acquired(m)]);
    Extend(c, steps + [(g, Lock(m))], s1, g, Continue, s2);
    s' := s2.(stacks := s.stacks[g := StackFor(s.stacks, g) + [c[m]]], pc := s2.pc[g := Idle]);
    steps' := steps + [(g, Lock(m))] + [(g, Continue)];
    Extend(c, steps', s2, g, Continue, s');
    steps' := steps' + [(g, Continue)];
  }

  /** Two goroutines that each hold what the other asks for. */
  lemma Cross(c: Config, steps: seq<(Gid, Action)>, s: State, a: Mutex, b: Mutex)
    requires Run(c, steps) == Some(s) && a in c && b in c && a != b
    requires At(s, 0) == At(s, 1) == Idle && Holds(s, 0, a) && Holds(s, 1, b)
    requires Inversions(c[b], StackFor(s.stacks, 0)) == [] && Inversions(c[a], StackFor(s.stacks, 1)) == []
    ensures !DeadlockFree(c)
  {
    hide Run, Inversions;
    var s1 := s.(pc := s.pc[0 := Waiting(b)]);
    Extend(c, steps, s, 0, Lock(b), s1);
    var s2 := s1.(pc := s1.pc[1 := Waiting(a)]);
    Extend(c, steps + [(0, Lock(b))], s1, 1, Lock(a), s2);
    assert Reachable(c, s2);
    var p: seq<Gid> := [0, 1, 0];
    assert WaitsFor(s2, 0, 1) && WaitsFor(s2, 1, 0);
    assert WaitPath(s2, p) && p[0] == p[|p| - 1];
  }

  /** Locking m while holding only h does not fire. */
  predicate Silent(m: Entry, h: Entry) {
    m.rank == 0 || m.lockId == "" || h.rank == 0 || h.rank <= m.rank
  }

  lemma SilentCheck(m: Entry, h: Entry)
    requires Silent(m, h)
    ensures Inversions(m, [h]) == []
    ensures Inversions(m, []) == []
  {
    assert [h][..|[h]| - 1] == [] && HigherRanked(m.rank, []) == [];
  }

  /** Two mutexes whose checks are silent both ways deadlock when taken crosswise. */
  lemma SilentPairDeadlocks(c: Config, a: Mutex, b: Mutex)
    requires a in c && b in c && a != b && Silent(c[a], c[b]) && Silent(c[b], c[a])
    ensures !DeadlockFree(c)
  {
    hide Inversions, DeadlockFree, Run;
    SilentCheck(c[a], c[b]);
    SilentCheck(c[b], c[a]);
    assert Run(c, []) == Some(INITIAL) by { EmptyRun(c); }
    var steps, s := Take(c, [], INITIAL, 0, a);
    steps, s := Take(c, steps, s, 1, b);
    assert StackFor(s.stacks, 0) == [c[a]] && StackFor(s.stacks, 1) == [c[b]];
    Cross(c, steps, s, a, b);
  }

  lemma EmptyRun(c: Config)
    ensures Run(c, []) == Some(INITIAL)
  {
  }

  /** Two mutexes with one id deadlock: releasing the lower pops the entry of the higher. */
  lemma SharedIdDeadlocks(c: Config, a: Mutex, b: Mutex)
    requires a in c && b in c && a != b && c[a].lockId == c[b].lockId && c[a].rank < c[b].rank
    ensures !DeadlockFree(c)
  {
    hide Inversions, DeadlockFree, Run;
    SilentCheck(c[b], c[a]);
    SilentCheck(c[a], c[a]);
    EmptyRun(c);
    var steps, s := Take(c, [], INITIAL, 0, a);
    assert StackFor(s.stacks, 0) == [c[a]];
    steps, s := Take(c, steps, s, 0, b);
    assert StackFor(s.stacks, 0) == [c[a], c[b]];
    var s1 := s.(owner := s.owner - {a}, pc := s.pc[0 := Released(a)]);
    Extend(c, steps, s, 0, Unlock(a), s1);
    var s2 := s1.(stacks := Popped(s1.stacks, 0, c[a].lockId), pc := s1.pc[0 := Idle]);
    Extend(c, steps + [(0, Unlock(a))], s1, 0, Continue, s2);
    LastOfTwo(s1.stacks, c[a], c[b]);
    assert At(s, 1) == Idle && At(s2, 1) == Idle;
    steps, s := Take(c, steps + [(0, Unlock(a))] + [(0, Continue)], s2, 1, a);
    Cross(c, steps, s, b, a);
  }

  lemma LastOfTwo(stacks: map<Gid, seq<Entry>>, a: Entry, b: Entry)
    requires StackFor(stacks, 0) == [a, b] && a.lockId == b.lockId
    ensures StackFor(Popped(stacks, 0, a.lockId), 0) == [a]
    ensures StackFor(Popped(stacks, 0, a.lockId), 1) == StackFor(stacks, 1)
  {
    PoppedStack(stacks, 0, a.lockId, 0);
    PoppedStack(stacks, 0, a.lockId, 1);
    assert WithoutLast([a, b], a.lockId) == [a];
  }

  /** The checker rules out deadlock exactly for ordered configurations. */
  lemma DeadlockFreeIffOrdered(c: Config)
    ensures DeadlockFree(c) <==> Ordered(c)
  {
    hide DeadlockFree;
    if Ordered(c) {
      OrderedIsDeadlockFree(c);
    } else {
      var a, b :| a in c && b in c && a != b && !OrderedPair(c[a], c[b]);
      if Silent(c[a], c[b]) && Silent(c[b], c[a]) {
        SilentPairDeadlocks(c, a, b);
      } else if c[a].rank < c[b].rank {
        SharedIdDeadlocks(c, a, b);
      } else {
        SharedIdDeadlocks(c, b, a);
      }
    }
  }
}
