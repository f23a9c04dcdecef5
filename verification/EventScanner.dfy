/**
 WatchEvents of bridge/ethereum_adapter.go: the block scanner with its adaptive polling interval.

 What the chain holds at each height is the parameter `logs`. Each tick brings the answer of the
 height query, the heights that can be read at that moment, and which callback of the tick (if any)
 fails. Heights are below the largest uint64, where the height loop would not end.
 */
module EventScanner {
  import opened Results

  type Height = h: nat | h < 0xFFFF_FFFF_FFFF_FFFF

  /** Durations in nanoseconds. */
  const SECOND: nat := 1_000_000_000
  const MIN_INTERVAL: nat := 1 * SECOND
  const MAX_INTERVAL: nat := 15 * SECOND
  const DEFAULT_INTERVAL: nat := 5 * SECOND
  const NO_PROGRESS_THRESHOLD: nat := 3

  datatype Tick = Tick(height: Option<Height>, unreadable: set<nat>, failAt: Option<nat>)

  /** delivered: every message handed to the callback; stopped: a callback failed and the watcher returned. */
  datatype Watch<M> = Watch(last: Height, interval: nat, idle: nat, delivered: seq<M>, stopped: bool)

  function Initial<M>(): Watch<M> {
    Watch(0, DEFAULT_INTERVAL, 0, [], false)
  }

  // ---------------------------------------------------------------- one tick

  /** The messages of the heights after a, up to b. */
  function Between<M>(logs: nat -> seq<M>, a: nat, b: nat): seq<M> {
    if b <= a then [] else Between(logs, a, b - 1) + logs(b)
  }

  /** Where a scan from `last` ends: before the first unreadable height. */
  function Reach(unreadable: set<nat>, last: Height, current: Height): (r: Height)
    ensures last <= r && (last <= current ==> r <= current)
    decreases current - last
  {
    if current <= last || last + 1 in unreadable then last else Reach(unreadable, last + 1, current)
  }

  function Backoff(interval: nat): nat {
    if interval < MAX_INTERVAL then (if interval * 3 / 2 > MAX_INTERVAL then MAX_INTERVAL else interval * 3 / 2)
      else interval
  }

  function Step<M>(logs: nat -> seq<M>, w: Watch<M>, t: Tick): Watch<M> {
    if w.stopped || t.height.None? then w
    else if w.last == 0 then w.(last := t.height.value)
    else
      var reach := Reach(t.unreadable, w.last, t.height.value);
      var batch := Between(logs, w.last, reach);
      if t.failAt.Some? && t.failAt.value < |batch| then
        w.(delivered := w.delivered + batch[..t.failAt.value + 1], stopped := true)
      else
        Adapt(w.(last := reach, delivered := w.delivered + batch), reach > w.last)
  }

  function Adapt<M>(w: Watch<M>, progress: bool): Watch<M> {
    if progress then w.(interval := MIN_INTERVAL, idle := 0)
    else if w.idle + 1 >= NO_PROGRESS_THRESHOLD then w.(interval := Backoff(w.interval), idle := 0)
    else w.(idle := w.idle + 1)
  }

  function Run<M>(logs: nat -> seq<M>, ticks: seq<Tick>): Watch<M> {
    if ticks == [] then Initial() else Step(logs, Run(logs, ticks[..|ticks| - 1]), ticks[|ticks| - 1])
  }

  /** The first height other than 0 that a run saw; 0 before that. */
  function Start(ticks: seq<Tick>): Height {
    if ticks == [] then 0
    else
      var before := Start(ticks[..|ticks| - 1]);
      var t := ticks[|ticks| - 1];
      if before == 0 && t.height.Some? then t.height.value else before
  }

  // ---------------------------------------------------------------- delivery

  lemma {:induction false} BetweenSplits<M>(logs: nat -> seq<M>, a: nat, b: nat, c: nat)
    requires a <= b <= c
    ensures Between(logs, a, c) == Between(logs, a, b) + Between(logs, b, c)
    decreases c
  {
    if b < c {
      BetweenSplits(logs, a, b, c - 1);
    } else {
      assert Between(logs, a, c) + [] == Between(logs, a, c);
    }
  }

  lemma Split<M>(s: seq<M>, a: seq<M>, b: seq<M>, n: nat)
    requires s == a + b && n <= |b|
    ensures a + b[..n] == s[..|a| + n]
  {
  }

  /** What has been delivered: everything after the start up to the last height, once, in order. */
  ghost predicate Exact<M>(logs: nat -> seq<M>, start: Height, w: Watch<M>) {
    && (start == 0 ==> w.last == 0 && w.delivered == [])
    && (start != 0 ==> start <= w.last)
    && (!w.stopped ==> w.delivered == Between(logs, start, w.last))
    && (w.stopped ==> exists h: nat, n: nat ::
      w.last < h && n <= |Between(logs, start, h)| && w.delivered == Between(logs, start, h)[..n])
    && (w.stopped ==> |w.delivered| > |Between(logs, start, w.last)|)
  }

  lemma StepIsExact<M>(logs: nat -> seq<M>, start: Height, w: Watch<M>, t: Tick)
    requires Exact(logs, start, w) && start != 0
    ensures Exact(logs, start, Step(logs, w, t))
  {
    hide Reach, Between;
    if !w.stopped && t.height.Some? {
      var reach := Reach(t.unreadable, w.last, t.height.value);
      var batch := Between(logs, w.last, reach);
      BetweenSplits(logs, start, w.last, reach);
      NothingBetween(logs, w.last);
      if t.failAt.Some? && t.failAt.value < |batch| {
        Split(Between(logs, start, reach), Between(logs, start, w.last), batch, t.failAt.value + 1);
        assert reach > w.last;
      }
    }
  }

  lemma NothingBetween<M>(logs: nat -> seq<M>, a: nat)
    ensures Between(logs, a, a) == []
  {
  }

  /** The watcher stopped in this tick: the last message delivered is the one the callback refused. */
  ghost predicate StoppedIn<M>(logs: nat -> seq<M>, before: Watch<M>, t: Tick, w: Watch<M>) {
    && !before.stopped && t.height.Some? && t.failAt.Some?
    && var batch := Between(logs, before.last, Reach(t.unreadable, before.last, t.height.value));
       && t.failAt.value < |batch|
       && w == before.(delivered := before.delivered + batch[..t.failAt.value + 1], stopped := true)
  }

  /** A stopped watcher had delivered everything before one tick, and of that tick exactly up to the refused message. */
  lemma {:induction false} StopsAtRefusal<M>(logs: nat -> seq<M>, ticks: seq<Tick>)
    requires Run(logs, ticks).stopped
    ensures exists i | 0 <= i < |ticks| :: StoppedIn(logs, Run(logs, ticks[..i]), ticks[i], Run(logs, ticks))
    decreases |ticks|
  {
    hide Between, Reach;
    var last := |ticks| - 1;
    var front := ticks[..last];
    if Run(logs, front).stopped {
      StopsAtRefusal(logs, front);
      var i :| 0 <= i < |front| && StoppedIn(logs, Run(logs, front[..i]), front[i], Run(logs, front));
      assert front[..i] == ticks[..i];
      assert StoppedIn(logs, Run(logs, ticks[..i]), ticks[i], Run(logs, ticks));
    } else {
      assert StoppedIn(logs, Run(logs, ticks[..last]), ticks[last], Run(logs, ticks));
    }
  }

  /** Over every run the deliveries are exact, whatever fails and however often. */
  lemma {:induction false} DeliveryIsExact<M>(logs: nat -> seq<M>, ticks: seq<Tick>)
    ensures Exact(logs, Start(ticks), Run(logs, ticks))
    decreases |ticks|
  {
    hide Exact, Step, Between;
    if ticks == [] {
      InitialIsExact(logs);
    } else {
      var front, t := ticks[..|ticks| - 1], ticks[|ticks| - 1];
      DeliveryIsExact(logs, front);
      var before := Run(logs, front);
      if Start(front) == 0 {
        FirstHeight(logs, before, t);
      } else {
        StepIsExact(logs, Start(front), before, t);
      }
    }
  }

  lemma InitialIsExact<M>(logs: nat -> seq<M>)
    ensures Exact(logs, 0, Initial<M>())
  {
  }

  lemma FirstHeight<M>(logs: nat -> seq<M>, w: Watch<M>, t: Tick)
    requires Exact(logs, 0, w)
    ensures Exact(logs, if t.height.Some? then t.height.value else 0, Step(logs, w, t))
  {
    NothingBetween(logs, 0);
    if t.height.Some? {
      NothingBetween(logs, t.height.value);
    }
  }

  /** A tick in which every height can be read and no callback fails catches up. */
  lemma CleanTickCatchesUp<M>(logs: nat -> seq<M>, w: Watch<M>, current: Height)
    requires !w.stopped && w.last != 0
    ensures Step(logs, w, Tick(Some(current), {}, None)).last == if w.last <= current then current else w.last
  {
    ReachAll(w.last, current);
  }

  /** A scan reads every height up to its end, and ends at the current height or before one it cannot read. */
  lemma {:induction false} ReachIsMaximal(unreadable: set<nat>, last: Height, current: Height)
    ensures var r := Reach(unreadable, last, current);
            && (forall h | last < h <= r :: h !in unreadable)
            && (r >= current || r + 1 in unreadable)
    decreases current - last
  {
    if last < current && last + 1 !in unreadable {
      ReachIsMaximal(unreadable, last + 1, current);
    }
  }

  lemma {:induction false} ReachAll(last: Height, current: Height)
    ensures Reach({}, last, current) == if last <= current then current else last
    decreases current - last
  {
    if last < current {
      ReachAll(last + 1, current);
    }
  }

  /**
   Every tick, told without the scan: with a start and an answered query, the watcher moves to the
   farthest height it can read up to, in one step, unless a callback on the way refuses.
   */
  lemma TickIsDecided<M>(logs: nat -> seq<M>, w: Watch<M>, t: Tick, far: Height)
    requires !w.stopped && w.last != 0 && t.height.Some? && w.last <= far
    requires (forall h | w.last < h <= far :: h !in t.unreadable)
    requires far + 1 in t.unreadable || far == t.height.value || (far == w.last && t.height.value < far)
    requires far <= t.height.value || far == w.last
    ensures var w' := Step(logs, w, t); var batch := Between(logs, w.last, far);
            && (w'.stopped <==> t.failAt.Some? && t.failAt.value < |batch|)
            && (!w'.stopped ==> w'.last == far && w'.delivered == w.delivered + batch)
            && (w'.stopped ==> w'.last == w.last && w'.delivered == w.delivered + batch[..t.failAt.value + 1])
  {
    hide Between, Reach;
    FarthestIsReach(t.unreadable, w.last, t.height.value, far);
  }

  lemma {:induction false} FarthestIsReach(unreadable: set<nat>, last: Height, current: Height, far: Height)
    requires last <= far && (forall h | last < h <= far :: h !in unreadable)
    requires far + 1 in unreadable || far == current || (far == last && current < far)
    requires far <= current || far == last
    ensures Reach(unreadable, last, current) == far
    decreases far - last
  {
    if last < far {
      FarthestIsReach(unreadable, last + 1, current, far);
    }
  }

  /** Before the start a tick only sets it; an unanswered query or a stopped watcher changes nothing. */
  lemma OtherTicks<M>(logs: nat -> seq<M>, w: Watch<M>, t: Tick)
    ensures w.stopped || t.height.None? ==> Step(logs, w, t) == w
    ensures !w.stopped && t.height.Some? && w.last == 0 ==> Step(logs, w, t) == w.(last := t.height.value)
  {
    hide Between, Reach;
  }

  // ---------------------------------------------------------------- interval

  lemma IntervalStep<M>(logs: nat -> seq<M>, w: Watch<M>, t: Tick)
    requires MIN_INTERVAL <= w.interval <= MAX_INTERVAL && w.idle < NO_PROGRESS_THRESHOLD
    ensures var w' := Step(logs, w, t); MIN_INTERVAL <= w'.interval <= MAX_INTERVAL && w'.idle < NO_PROGRESS_THRESHOLD
  {
    hide Reach, Between;
  }

  lemma {:induction false} IntervalIsBounded<M>(logs: nat -> seq<M>, ticks: seq<Tick>)
    ensures var w := Run(logs, ticks); MIN_INTERVAL <= w.interval <= MAX_INTERVAL && w.idle < NO_PROGRESS_THRESHOLD
    decreases |ticks|
  {
    hide Step;
    if ticks != [] {
      IntervalIsBounded(logs, ticks[..|ticks| - 1]);
      IntervalStep(logs, Run(logs, ticks[..|ticks| - 1]), ticks[|ticks| - 1]);
    }
  }

  /** A tick that finds the height query answered but nothing new to read. */
  predicate Idle<M>(w: Watch<M>, t: Tick) {
    && !w.stopped && w.last != 0 && t.height.Some?
    && (t.height.value <= w.last || w.last + 1 in t.unreadable)
  }

  lemma IdleStep<M>(logs: nat -> seq<M>, w: Watch<M>, t: Tick)
    requires Idle(w, t)
    ensures Step(logs, w, t) == Adapt(w, false)
  {
    NothingBetween(logs, w.last);
    assert w.delivered + [] == w.delivered;
  }

  /** After a tick with progress the watcher polls every second; without one, every third tick slows it down by half. */
  lemma IntervalFollowsProgress<M>(logs: nat -> seq<M>, w: Watch<M>, t: Tick)
    requires !w.stopped && w.last != 0 && !Step(logs, w, t).stopped && t.height.Some?
    ensures var w' := Step(logs, w, t);
            if w'.last > w.last then w'.interval == 1_000_000_000 && w'.idle == 0
            else if w.idle < 2 then w'.interval == w.interval && w'.idle == w.idle + 1
            else w'.idle == 0 && w'.interval == if w.interval >= 15_000_000_000 then w.interval
                                                else if w.interval * 3 / 2 > 15_000_000_000 then 15_000_000_000
                                                else w.interval * 3 / 2
  {
    hide Between, Reach;
  }

  /** No tick but one with an answered query and no refusal touches the interval. */
  lemma IntervalOnlyThen<M>(logs: nat -> seq<M>, w: Watch<M>, t: Tick)
    requires w.stopped || t.height.None? || w.last == 0 || Step(logs, w, t).stopped
    ensures var w' := Step(logs, w, t); w'.interval == w.interval && w'.idle == w.idle
  {
    hide Between, Reach;
  }

  /** The state after idle ticks only. */
  function Quiet<M>(w: Watch<M>, n: nat): Watch<M> {
    if n == 0 then w else Adapt(Quiet(w, n - 1), false)
  }

  /** A run that goes on with idle ticks. */
  lemma {:induction false} IdleTicksAreQuiet<M>(logs: nat -> seq<M>, ticks: seq<Tick>, more: seq<Tick>)
    requires forall i | 0 <= i < |more| :: Idle(Run(logs, ticks), more[i])
    ensures Run(logs, ticks + more) == Quiet(Run(logs, ticks), |more|)
    decreases |more|
  {
    hide Step, Adapt;
    if more == [] {
      assert ticks + more == ticks;
    } else {
      var n := |more| - 1;
      IdleTicksAreQuiet(logs, ticks, more[..n]);
      assert (ticks + more)[..|ticks| + n] == ticks + more[..n];
      var w := Quiet(Run(logs, ticks), n);
      QuietKeeps(Run(logs, ticks), n);
      IdleStep(logs, w, more[n]);
    }
  }

  lemma {:induction false} QuietKeeps<M>(w: Watch<M>, n: nat)
    ensures var q := Quiet(w, n); q.last == w.last && q.stopped == w.stopped && q.delivered == w.delivered
  {
    if n > 0 {
      QuietKeeps(w, n - 1);
    }
  }

  lemma ThreeIdle<M>(w: Watch<M>, n: nat)
    requires Quiet(w, n).idle == 0
    ensures Quiet(w, n + 3) == Quiet(w, n).(interval := Backoff(Quiet(w, n).interval))
  {
    assert Quiet(w, n + 1) == Quiet(w, n).(idle := 1);
    assert Quiet(w, n + 2) == Quiet(w, n).(idle := 2);
  }

  /** From polling every second, 21 idle ticks bring the watcher to its slowest pace, and there it stays. */
  lemma QuietReachesSlowest<M>(w: Watch<M>)
    requires w.interval == MIN_INTERVAL && w.idle == 0
    ensures Quiet(w, 18).interval < MAX_INTERVAL && Quiet(w, 21).interval == MAX_INTERVAL
    ensures Quiet(w, 24).interval == MAX_INTERVAL
  {
    hide Quiet;
    assert Quiet(w, 0) == w by { QuietNone(w); }
    ThreeIdle(w, 0);
    ThreeIdle(w, 3);
    ThreeIdle(w, 6);
    ThreeIdle(w, 9);
    ThreeIdle(w, 12);
    ThreeIdle(w, 15);
    ThreeIdle(w, 18);
    ThreeIdle(w, 21);
  }

  lemma QuietNone<M>(w: Watch<M>)
    ensures Quiet(w, 0) == w
  {
  }

  // ---------------------------------------------------------------- the loops

  /** Hands the messages of one height to the callback; failed when the k-th of the tick is refused. */
  method DeliverHeight<M>(msgs: seq<M>, called: nat, failAt: Option<nat>) returns (handed: seq<M>, failed: bool)
    requires failAt.Some? ==> called <= failAt.value
    ensures failed <==> failAt.Some? && failAt.value < called + |msgs|
    ensures handed == if failed then msgs[..failAt.value - called + 1] else msgs
  {
    handed := [];
    for i := 0 to |msgs|
      invariant handed == msgs[..i] && (failAt.Some? ==> called + i <= failAt.value)
    {
      handed := handed + [msgs[i]];
      if failAt == Some(called + i) {
        return handed, true;
      }
    }
    return handed, false;
  }

  /** The height loop of one tick. */
  method ScanHeights<M>(logs: nat -> seq<M>, last: Height, current: Height, unreadable: set<nat>, failAt: Option<nat>)
    returns (nextCheckpoint: Height, handed: seq<M>, failed: bool)
    ensures var batch := Between(logs, last, Reach(unreadable, last, current));
            && (failed <==> failAt.Some? && failAt.value < |batch|)
            && handed == (if failed then batch[..failAt.value + 1] else batch)
            && (!failed ==> nextCheckpoint == Reach(unreadable, last, current))
  {
    hide Between, Reach;
    nextCheckpoint, handed, failed := last, [], false;
    NothingBetween(logs, last);
    var height: nat := last + 1;
    while height <= current
      invariant last + 1 <= height && nextCheckpoint == height - 1 && (last < current ==> height <= current + 1)
      invariant nextCheckpoint > last ==> nextCheckpoint <= current
      invariant Reach(unreadable, last, current) == Reach(unreadable, nextCheckpoint, current)
      invariant handed == Between(logs, last, nextCheckpoint) && !failed
      invariant failAt.Some? ==> |handed| <= failAt.value
      decreases current + 1 - height
    {
      ReachStep(unreadable, nextCheckpoint, current);
      if height in unreadable {
        break;
      }
      var more;
      more, failed := DeliverHeight(logs(height), |handed|, failAt);
      BetweenNext(logs, last, height);
      if failed {
        FailedWithin(logs, last, height, Reach(unreadable, last, current), failAt.value);
        handed := handed + more;
        return;
      }
      handed := handed + more;
      nextCheckpoint := height;
      height := height + 1;
    }
    ReachStep(unreadable, nextCheckpoint, current);
  }

  lemma ReachStep(unreadable: set<nat>, last: Height, current: Height)
    ensures Reach(unreadable, last, current)
         == if current <= last || last + 1 in unreadable then last else Reach(unreadable, last + 1, current)
  {
  }

  lemma BetweenNext<M>(logs: nat -> seq<M>, a: nat, h: nat)
    requires a < h
    ensures Between(logs, a, h) == Between(logs, a, h - 1) + logs(h)
  {
  }

  /** A callback that fails inside height h fails at the same place of the whole batch. */
  lemma FailedWithin<M>(logs: nat -> seq<M>, last: nat, h: nat, reach: nat, k: nat)
    requires last < h <= reach && |Between(logs, last, h - 1)| <= k < |Between(logs, last, h)|
    ensures k < |Between(logs, last, reach)|
    ensures Between(logs, last, reach)[..k + 1]
         == Between(logs, last, h - 1) + logs(h)[..k - |Between(logs, last, h - 1)| + 1]
  {
    hide Between;
    BetweenNext(logs, last, h);
    BetweenSplits(logs, last, h, reach);
  }

  /** The polling loop, over the ticks of its ticker until the watcher returns. */
  method WatchEvents<M>(logs: nat -> seq<M>, ticks: seq<Tick>) returns (w: Watch<M>)
    ensures w == Run(logs, ticks)
  {
    hide Between, Reach;
    var lastChecked: Height, interval: nat, idle: nat := 0, DEFAULT_INTERVAL, 0;
    var delivered: seq<M> := [];
    for i := 0 to |ticks|
      invariant Watch(lastChecked, interval, idle, delivered, false) == Run(logs, ticks[..i])
    {
      assert ticks[..i + 1][..i] == ticks[..i];
      var t := ticks[i];
      if t.height.None? {
        continue;
      }
      if lastChecked == 0 {
        lastChecked := t.height.value;
        continue;
      }
      var next, handed, failed := ScanHeights(logs, lastChecked, t.height.value, t.unreadable, t.failAt);
      delivered := delivered + handed;
      if failed {
        w := Watch(lastChecked, interval, idle, delivered, true);
        StoppedStays(logs, ticks, i + 1);
        return;
      }
      var progress := next > lastChecked;
      lastChecked := next;
      if progress {
        interval, idle := MIN_INTERVAL, 0;
      } else {
        idle := idle + 1;
        if idle >= NO_PROGRESS_THRESHOLD {
          if interval < MAX_INTERVAL {
            interval := interval * 3 / 2;
            if interval > MAX_INTERVAL {
              interval := MAX_INTERVAL;
            }
          }
          idle := 0;
        }
      }
    }
    assert ticks[..|ticks|] == ticks;
    w := Watch(lastChecked, interval, idle, delivered, false);
  }

  lemma {:induction false} StoppedStays<M>(logs: nat -> seq<M>, ticks: seq<Tick>, i: nat)
    requires i <= |ticks|
    ensures Run(logs, ticks[..i]).stopped ==> Run(logs, ticks) == Run(logs, ticks[..i])
    decreases |ticks|
  {
    hide Between, Reach;
    if i == |ticks| {
      assert ticks[..i] == ticks;
    } else {
      var front := ticks[..|ticks| - 1];
      assert front[..i] == ticks[..i];
      StoppedStays(logs, front, i);
    }
  }
}
