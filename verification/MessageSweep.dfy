/**
 The bounded in-memory message cache of bridge/bridge.go: sweepMessages evicts terminal messages,
 oldest first, until the cache is within its cap.
 */
module MessageSweep {
  import opened FinalizedIds

  const MAX_IN_MEMORY: nat := 10_000

  datatype Status = Pending | Verified | Executed | Failed | Expired

  datatype Message = Message(status: Status, timestamp: int, source: string, target: string)

  /** The messages and everything that is keyed by a message id. */
  datatype Cache = Cache(
    messages: map<string, Message>,
    byStatus: map<Status, set<string>>,
    bySource: map<string, set<string>>,
    byTarget: map<string, set<string>>,
    locks: set<string>, retries: set<string>, retryTimes: set<string>)

  predicate IsTerminal(st: Status) {
    st == Executed || st == Failed || st == Expired
  }

  function Terminal(c: Cache): set<string> {
    set id | id in c.messages && IsTerminal(c.messages[id].status)
  }

  function Listed<K>(ix: map<K, set<string>>, k: K): set<string> {
    if k in ix then ix[k] else {}
  }

  ghost predicate IndexesAgree(c: Cache) {
    && (forall st, id :: id in Listed(c.byStatus, st) <==> id in c.messages && c.messages[id].status == st)
    && (forall chain, id :: id in Listed(c.bySource, chain) <==> id in c.messages && c.messages[id].source == chain)
    && (forall chain, id :: id in Listed(c.byTarget, chain) <==> id in c.messages && c.messages[id].target == chain)
  }

  /** The messages a sweep considers: cached and listed under a terminal status. */
  function Sweepable(c: Cache): set<string> {
    set id | id in c.messages
      && (id in Listed(c.byStatus, Executed) || id in Listed(c.byStatus, Failed) || id in Listed(c.byStatus, Expired))
  }

  /** Where the indexes agree these are the terminal messages. */
  lemma SweepableIsTerminal(c: Cache)
    requires IndexesAgree(c)
    ensures Sweepable(c) == Terminal(c)
  {
    hide Listed;
  }

  // ---------------------------------------------------------------- what a sweep is

  function Purge<K>(ix: map<K, set<string>>, ids: set<string>): map<K, set<string>> {
    map k | k in ix :: ix[k] - ids
  }

  function WithStatus(c: Cache, ids: set<string>, st: Status): set<string> {
    set id | id in ids && id in c.messages && c.messages[id].status == st
  }

  /** Each id leaves the list of its own status only. */
  function PurgeOwn(c: Cache, ids: set<string>): map<Status, set<string>> {
    map st | st in c.byStatus :: c.byStatus[st] - WithStatus(c, ids, st)
  }

  function Without(c: Cache, ids: set<string>): Cache {
    Cache(c.messages - ids, PurgeOwn(c, ids), Purge(c.bySource, ids), Purge(c.byTarget, ids),
          c.locks - ids, c.retries - ids, c.retryTimes - ids)
  }

  /** The id is known in none of the maps; its own status list is told by `st`. */
  ghost predicate Unknown(c: Cache, id: string, st: Status) {
    && id !in c.messages && id !in c.locks && id !in c.retries && id !in c.retryTimes
    && id !in Listed(c.byStatus, st)
    && (forall chain :: id !in Listed(c.bySource, chain) && id !in Listed(c.byTarget, chain))
  }

  /** Wherever the one cache knows the id, the other does too, and with the same message. */
  ghost predicate SameFor(c: Cache, c': Cache, id: string) {
    && (id in c.messages <==> id in c'.messages) && (id in c.messages ==> c'.messages[id] == c.messages[id])
    && (id in c.locks <==> id in c'.locks) && (id in c.retries <==> id in c'.retries)
    && (id in c.retryTimes <==> id in c'.retryTimes)
    && (forall st :: id in Listed(c.byStatus, st) <==> id in Listed(c'.byStatus, st))
    && (forall chain :: id in Listed(c.bySource, chain) <==> id in Listed(c'.bySource, chain))
    && (forall chain :: id in Listed(c.byTarget, chain) <==> id in Listed(c'.byTarget, chain))
  }

  /** An evicted message is gone everywhere; nothing about any other changes. */
  lemma EvictedIsGone(c: Cache, ids: set<string>, id: string)
    ensures id in ids && id in c.messages ==> Unknown(Without(c, ids), id, c.messages[id].status)
    ensures id !in ids ==> SameFor(c, Without(c, ids), id)
  {
  }

  function Excess(c: Cache): nat {
    if |c.messages| <= MAX_IN_MEMORY then 0 else |c.messages| - MAX_IN_MEMORY
  }

  /**
   Sweepable messages only, none newer than a sweepable one that stays, and exactly as many as needed
   or available.
   */
  ghost predicate OldestFirst(c: Cache, evicted: set<string>) {
    && evicted <= Sweepable(c)
    && (forall e, k | e in evicted && k in Sweepable(c) - evicted :: c.messages[e].timestamp <= c.messages[k].timestamp)
    && |evicted| == if Excess(c) <= |Sweepable(c)| then Excess(c) else |Sweepable(c)|
  }

  /** Removing messages keeps agreeing indexes agreeing. */
  lemma WithoutAgrees(c: Cache, ids: set<string>)
    requires IndexesAgree(c)
    ensures IndexesAgree(Without(c, ids))
  {
    var c' := Without(c, ids);
    forall st, id
      ensures id in Listed(c'.byStatus, st) <==> id in c'.messages && c'.messages[id].status == st
    {
      assert Listed(c'.byStatus, st) == Listed(c.byStatus, st) - WithStatus(c, ids, st);
    }
    forall chain
      ensures Listed(c'.bySource, chain) == Listed(c.bySource, chain) - ids
      ensures Listed(c'.byTarget, chain) == Listed(c.byTarget, chain) - ids
    {
    }
  }

  lemma Remaining(messages: map<string, Message>, ids: set<string>)
    requires ids <= messages.Keys
    ensures |messages - ids| == |messages| - |ids|
  {
    assert (messages - ids).Keys == messages.Keys - ids;
    assert messages.Keys == (messages.Keys - ids) + ids;
    assert |(messages - ids).Keys| == |messages - ids| && |messages.Keys| == |messages|;
  }

  /** What a sweep leaves: at most the cap, unless nothing sweepable is left, and never less than the cap. */
  lemma SweepBounds(c: Cache, evicted: set<string>)
    requires OldestFirst(c, evicted)
    ensures var c' := Without(c, evicted);
            && (|c'.messages| <= MAX_IN_MEMORY || Sweepable(c') == {})
            && (|c.messages| > MAX_IN_MEMORY ==> |c'.messages| >= MAX_IN_MEMORY)
            && (|c.messages| <= MAX_IN_MEMORY ==> c'.messages == c.messages)
  {
    hide Purge, PurgeOwn, Listed, Sweepable;
    assert evicted <= c.messages.Keys by { SweepableIsCached(c); }
    Remaining(c.messages, evicted);
    if |evicted| == |Sweepable(c)| {
      SameSize(evicted, Sweepable(c));
      NoneLeft(c);
    }
    if |c.messages| <= MAX_IN_MEMORY {
      assert evicted == {};
    }
  }

  lemma SweepableIsCached(c: Cache)
    ensures Sweepable(c) <= c.messages.Keys
  {
  }

  lemma NoneLeft(c: Cache)
    ensures Sweepable(Without(c, Sweepable(c))) == {}
  {
    hide Purge;
    var c' := Without(c, Sweepable(c));
    forall st
      ensures Listed(c'.byStatus, st) <= Listed(c.byStatus, st)
    {
    }
  }

  /**
   With agreeing indexes: no message in progress goes, and the eviction is oldest first among all
   terminal messages.
   */
  lemma AgreeingSweep(c: Cache, evicted: set<string>)
    requires IndexesAgree(c) && OldestFirst(c, evicted)
    ensures var c' := Without(c, evicted);
            && IndexesAgree(c')
            && (forall id | id in c.messages && !IsTerminal(c.messages[id].status) ::
              id in c'.messages && c'.messages[id] == c.messages[id])
            && (forall e, k | e in evicted && k in Terminal(c') :: c.messages[e].timestamp <= c.messages[k].timestamp)
            && (|c'.messages| <= MAX_IN_MEMORY || Terminal(c') == {})
  {
    hide IndexesAgree, Purge, PurgeOwn, Sweepable;
    SweepableIsTerminal(c);
    WithoutAgrees(c, evicted);
    SweepableIsTerminal(Without(c, evicted));
    SweepBounds(c, evicted);
  }

  lemma SameSize(a: set<string>, b: set<string>)
    requires a <= b && |a| == |b|
    ensures a == b
  {
    assert b == a + (b - a);
  }

  /** With distinct timestamps the evicted set is determined. */
  lemma SweepIsDetermined(c: Cache, a: set<string>, b: set<string>)
    requires OldestFirst(c, a) && OldestFirst(c, b)
    requires forall x, y | x in Sweepable(c) && y in Sweepable(c) && x != y ::
             c.messages[x].timestamp != c.messages[y].timestamp
    ensures a == b
  {
    hide Sweepable;
    if a != b {
      if a <= b {
        SameSize(a, b);
      } else if b <= a {
        SameSize(b, a);
      } else {
        assert false;
      }
    }
  }

  // ---------------------------------------------------------------- the terminal list

  datatype Entry = Entry(id: string, timestamp: int)

  function IdsOf(es: seq<Entry>): set<string> {
    set i | 0 <= i < |es| :: es[i].id
  }

  predicate Stamped(c: Cache, es: seq<Entry>) {
    forall e | e in es :: e.id in c.messages && e.timestamp == c.messages[e.id].timestamp
  }

  predicate Sorted(es: seq<Entry>) {
    forall i, j | 0 <= i < j < |es| :: es[i].timestamp <= es[j].timestamp
  }

  /** In-place insertion sort by timestamp, swapping neighbours. */
  method SortByAge(a: array<Entry>)
    modifies a
    ensures Sorted(a[..]) && multiset(a[..]) == multiset(old(a[..]))
  {
    if a.Length == 0 {
      return;
    }
    var i := 1;
    while i < a.Length
      invariant 1 <= i <= a.Length
      invariant Sorted(a[..i]) && multiset(a[..]) == multiset(old(a[..]))
    {
      SiftDown(a, i);
      i := i + 1;
    }
    assert a[..a.Length] == a[..];
  }

  /** Sorted up to i, apart from the entry on its way at j, which is not newer than those it passed. */
  predicate SortedBut(s: seq<Entry>, i: nat, j: nat)
    requires j <= i < |s|
  {
    && (forall p, q | 0 <= p < q <= i && p != j && q != j :: s[p].timestamp <= s[q].timestamp)
    && (forall q | j < q <= i :: s[j].timestamp <= s[q].timestamp)
  }

  function Swapped(s: seq<Entry>, j: nat): (r: seq<Entry>)
    requires 0 < j < |s|
    ensures |r| == |s|
  {
    s[j := s[j - 1]][j - 1 := s[j]]
  }

  lemma SwapSteps(s: seq<Entry>, i: nat, j: nat)
    requires 0 < j <= i < |s| && SortedBut(s, i, j) && s[j].timestamp < s[j - 1].timestamp
    ensures SortedBut(Swapped(s, j), i, j - 1)
  {
  }

  lemma SwapPermutes(s: seq<Entry>, j: nat)
    requires 0 < j < |s|
    ensures multiset(Swapped(s, j)) == multiset(s)
  {
  }

  /** The inner loop: moves a[i] left to its place in the sorted prefix. */
  method SiftDown(a: array<Entry>, i: nat)
    requires 1 <= i < a.Length && Sorted(a[..i])
    modifies a
    ensures Sorted(a[..i + 1]) && multiset(a[..]) == multiset(old(a[..]))
  {
    hide SortedBut, Sorted;
    StartSift(a[..], i);
    assert a[..i] == a[..][..i];
    var j := i;
    while j > 0 && a[j].timestamp < a[j - 1].timestamp
      invariant 0 <= j <= i && multiset(a[..]) == multiset(old(a[..])) && SortedBut(a[..], i, j)
    {
      ghost var s := a[..];
      SwapSteps(s, i, j);
      SwapPermutes(s, j);
      a[j], a[j - 1] := a[j - 1], a[j];
      assert a[..] == Swapped(s, j);
      j := j - 1;
    }
    EndSift(a[..], i, j);
    assert a[..i + 1] == a[..][..i + 1];
  }

  lemma StartSift(s: seq<Entry>, i: nat)
    requires i < |s|
    ensures Sorted(s[..i]) ==> SortedBut(s, i, i)
  {
    assert forall p | 0 <= p < i :: s[..i][p] == s[p];
  }

  lemma EndSift(s: seq<Entry>, i: nat, j: nat)
    requires j <= i < |s| && SortedBut(s, i, j) && (j > 0 ==> s[j].timestamp >= s[j - 1].timestamp)
    ensures Sorted(s[..i + 1])
  {
    forall p, q | 0 <= p < q <= i
      ensures s[p].timestamp <= s[q].timestamp
    {
      if q == j {
        assert p < j - 1 ==> s[p].timestamp <= s[j - 1].timestamp;
      }
    }
  }

  /** Sorting keeps the list a list of the same messages. */
  lemma SortKeepsList(c: Cache, es: seq<Entry>, sorted: seq<Entry>)
    requires Stamped(c, es) && multiset(sorted) == multiset(es)
    ensures Stamped(c, sorted) && IdsOf(sorted) == IdsOf(es)
  {
    hide IdsOf;
    SameElements(es, sorted);
    SameIds(es, sorted);
    SameIds(sorted, es);
  }

  lemma SameElements(a: seq<Entry>, b: seq<Entry>)
    requires multiset(a) == multiset(b)
    ensures forall e :: e in a <==> e in b
  {
    assert forall e :: e in a <==> e in multiset(a);
    assert forall e :: e in b <==> e in multiset(b);
  }

  lemma SameIds(a: seq<Entry>, b: seq<Entry>)
    requires forall e | e in a :: e in b
    ensures IdsOf(a) <= IdsOf(b)
  {
    forall i | 0 <= i < |a|
      ensures a[i].id in IdsOf(b)
    {
      assert a[i] in b;
    }
  }

  lemma IdsGrow(es: seq<Entry>, i: nat)
    requires i < |es|
    ensures IdsOf(es[..i + 1]) == IdsOf(es[..i]) + {es[i].id}
  {
    assert es[..i + 1] == es[..i] + [es[i]];
    AppendEntry(es[..i], es[i]);
  }

  /** A prefix of the sorted list with the right number of messages is an oldest-first choice. */
  lemma PrefixIsOldest(c: Cache, es: seq<Entry>, n: nat)
    requires Stamped(c, es) && Sorted(es) && IdsOf(es) == Sweepable(c) && n <= |es|
    requires |IdsOf(es[..n])| == if Excess(c) <= |Sweepable(c)| then Excess(c) else |Sweepable(c)|
    ensures OldestFirst(c, IdsOf(es[..n]))
  {
    hide Sweepable;
    var evicted := IdsOf(es[..n]);
    assert evicted <= IdsOf(es);
    forall e, k | e in evicted && k in Sweepable(c) - evicted
      ensures c.messages[e].timestamp <= c.messages[k].timestamp
    {
      var i :| 0 <= i < n && es[i].id == e;
      var j :| 0 <= j < |es| && es[j].id == k;
      assert es[i] in es && es[j] in es;
      if j < n {
        InPrefix(es, n, j);
        assert false;
      }
    }
  }

  lemma InPrefix(es: seq<Entry>, n: nat, j: nat)
    requires j < n <= |es|
    ensures es[j].id in IdsOf(es[..n])
  {
    assert es[..n][j] == es[j];
  }

  // ---------------------------------------------------------------- the cache object

  class MessageCache {
    var messages: map<string, Message>
    var byStatus: map<Status, set<string>>
    var bySource: map<string, set<string>>
    var byTarget: map<string, set<string>>
    var locks: set<string>
    var retries: set<string>
    var retryTimes: set<string>
    const finalized: FinalizedLog

    ghost function Value(): Cache
      reads this
    {
      Cache(messages, byStatus, bySource, byTarget, locks, retries, retryTimes)
    }

    constructor ()
      ensures Value() == Cache(map[], map[], map[], map[], {}, {}, {}) && fresh(finalized) && finalized.Agree()
    {
      messages, byStatus, bySource, byTarget := map[], map[], map[], map[];
      locks, retries, retryTimes := {}, {}, {};
      finalized := new FinalizedLog();
    }

    /** All cached messages the terminal statuses list. */
    method CollectTerminal() returns (terminal: seq<Entry>)
      ensures Stamped(Value(), terminal) && IdsOf(terminal) == Sweepable(Value())
    {
      hide IdsOf;
      terminal := CollectStatus(Executed, []);
      terminal := CollectStatus(Failed, terminal);
      terminal := CollectStatus(Expired, terminal);
      NoIds();
    }

    /** The inner loop; a listed id without a message is skipped. */
    method CollectStatus(st: Status, sofar: seq<Entry>) returns (terminal: seq<Entry>)
      requires Stamped(Value(), sofar)
      ensures Stamped(Value(), terminal)
      ensures IdsOf(terminal) == IdsOf(sofar) + Listed(byStatus, st) * messages.Keys
    {
      hide IdsOf;
      terminal := sofar;
      var todo := if st in byStatus then byStatus[st] else {};
      while todo != {}
        invariant todo <= Listed(byStatus, st)
        invariant Stamped(Value(), terminal)
        invariant IdsOf(terminal) == IdsOf(sofar) + (Listed(byStatus, st) - todo) * messages.Keys
      {
        var id :| id in todo;
        todo := todo - {id};
        if id in messages {
          AppendEntry(terminal, Entry(id, messages[id].timestamp));
          terminal := terminal + [Entry(id, messages[id].timestamp)];
        }
      }
    }

    /** One eviction: finalized first, then out of the maps. */
    method EvictOne(id: string)
      requires id in messages && finalized.Agree()
      modifies this, finalized
      ensures Value() == Without(old(Value()), {id}) && finalized.Agree()
      ensures finalized.order == Marked(old(finalized.order), id)
    {
      hide Purge;
      var status := messages[id].status;
      finalized.MarkFinalized(id);
      OwnStatusOnly(Value(), id);
      messages := messages - {id};
      if status in byStatus {
        byStatus := byStatus[status := byStatus[status] - {id}];
      }
      locks := locks - {id};
      retries := retries - {id};
      retryTimes := retryTimes - {id};
      bySource := RemoveFromAll(bySource, id);
      byTarget := RemoveFromAll(byTarget, id);
    }

    /** Evicts sweepable messages, oldest first, until the cache is within its cap or none is left. */
    method SweepMessages()
      requires finalized.Agree()
      modifies this, finalized
      ensures finalized.Agree() && (old(IndexesAgree(Value())) ==> IndexesAgree(Value()))
      ensures var evicted := old(messages).Keys - messages.Keys;
              && OldestFirst(old(Value()), evicted) && Value() == Without(old(Value()), evicted)
              && Elements(finalized.order) == Elements(old(finalized.order)) + evicted
              && old(finalized.order) <= finalized.order
    {
      hide IndexesAgree, OldestFirst, Without, FinalizedLog.Agree, Elements, Stamped, Sweepable, IdsOf;
      ghost var before := Value();
      if |messages| <= MAX_IN_MEMORY {
        NothingToDo(before);
        return;
      }
      var terminal := CollectTerminal();
      if |terminal| == 0 {
        NoIds();
        NothingToDo(before);
        return;
      }
      var a := new Entry[|terminal|](i requires 0 <= i < |terminal| => terminal[i]);
      assert a[..] == terminal;
      SortByAge(a);
      SortKeepsList(before, terminal, a[..]);
      EvictSorted(a[..]);
      if IndexesAgree(before) {
        WithoutAgrees(before, before.messages.Keys - messages.Keys);
      }
    }

    /** The last loop of sweepMessages, over the sorted list; an id that is already gone is skipped. */
    method EvictSorted(es: seq<Entry>)
      requires finalized.Agree() && |messages| > MAX_IN_MEMORY
      requires Stamped(Value(), es) && Sorted(es) && IdsOf(es) == Sweepable(Value())
      modifies this, finalized
      ensures finalized.Agree()
      ensures var evicted := old(messages).Keys - messages.Keys;
              && OldestFirst(old(Value()), evicted) && Value() == Without(old(Value()), evicted)
              && Elements(finalized.order) == Elements(old(finalized.order)) + evicted
              && old(finalized.order) <= finalized.order
    {
      hide OldestFirst, Without, FinalizedLog.Agree, Elements, Stamped, IdsOf, Sorted, Sweepable, Marked;
      ghost var before := Value();
      var i := 0;
      WithoutNone(before, es);
      assert Elements(finalized.order) + {} == Elements(finalized.order);
      while i < |es|
        invariant 0 <= i <= |es| && finalized.Agree()
        invariant Value() == Without(before, IdsOf(es[..i])) && |messages| == |before.messages| - |IdsOf(es[..i])|
        invariant |IdsOf(es[..i])| <= Excess(before)
        invariant Elements(finalized.order) == Elements(old(finalized.order)) + IdsOf(es[..i])
        invariant old(finalized.order) <= finalized.order
      {
        if |messages| <= MAX_IN_MEMORY {
          break;
        }
        IdsGrow(es, i);
        CachedIff(before, es, i);
        EntryIsCached(before, es, i);
        var id := es[i].id;
        if id !in messages {
          assert IdsOf(es[..i]) + {id} == IdsOf(es[..i]);
          i := i + 1;
          continue;
        }
        ghost var order := finalized.order;
        EvictOne(id);
        MarkedElements(order, id);
        IdsAreCached(before, es, i);
        WithoutOneMore(before, IdsOf(es[..i]), id);
        assert Elements(old(finalized.order)) + IdsOf(es[..i]) + {id}
            == Elements(old(finalized.order)) + (IdsOf(es[..i]) + {id});
        i := i + 1;
      }
      PrefixCount(before, es, i);
      PrefixIsOldest(before, es, i);
      EvictedKeys(before, es, i);
    }

    method RemoveFromAll(ix: map<string, set<string>>, id: string) returns (r: map<string, set<string>>)
      ensures r == Purge(ix, {id})
    {
      r := ix;
      var todo := ix.Keys;
      while todo != {}
        invariant todo <= ix.Keys == r.Keys
        invariant forall k | k in ix :: r[k] == if k in todo then ix[k] else ix[k] - {id}
      {
        var k :| k in todo;
        r := r[k := r[k] - {id}];
        todo := todo - {k};
      }
    }
  }

  lemma NoIds()
    ensures IdsOf([]) == {}
  {
  }

  lemma AppendEntry(es: seq<Entry>, e: Entry)
    ensures IdsOf(es + [e]) == IdsOf(es) + {e.id}
  {
    var more := es + [e];
    forall i | 0 <= i < |es|
      ensures more[i].id in IdsOf(es)
    {
      assert more[i] == es[i];
    }
    assert more[|es|] == e;
    forall x | x in IdsOf(es)
      ensures x in IdsOf(more)
    {
      var i :| 0 <= i < |es| && es[i].id == x;
      assert more[i].id == x;
    }
  }

  lemma OwnStatusOnly(c: Cache, id: string)
    requires id in c.messages
    ensures var st := c.messages[id].status;
            (if st in c.byStatus then c.byStatus[st := c.byStatus[st] - {id}] else c.byStatus) == PurgeOwn(c, {id})
  {
    var st := c.messages[id].status;
    forall k | k in c.byStatus
      ensures PurgeOwn(c, {id})[k] == if k == st then c.byStatus[k] - {id} else c.byStatus[k]
    {
      assert WithStatus(c, {id}, k) == if k == st then {id} else {};
    }
  }

  /** Below the cap, or with nothing sweepable, the empty choice is the right one. */
  lemma NothingToDo(c: Cache)
    requires |c.messages| <= MAX_IN_MEMORY || Sweepable(c) == {}
    ensures OldestFirst(c, c.messages.Keys - c.messages.Keys) && Without(c, c.messages.Keys - c.messages.Keys) == c
    ensures c.messages.Keys - c.messages.Keys == {}
  {
    hide Sweepable;
    assert c.messages.Keys - c.messages.Keys == {};
    WithoutNothing(c);
  }

  lemma WithoutNothing(c: Cache)
    ensures Without(c, {}) == c
  {
    forall st | st in c.byStatus
      ensures PurgeOwn(c, {})[st] == c.byStatus[st]
    {
      assert WithStatus(c, {}, st) == {};
    }
    assert PurgeOwn(c, {}) == c.byStatus;
    PurgeNothing(c.bySource);
    PurgeNothing(c.byTarget);
  }

  lemma PurgeNothing<K>(ix: map<K, set<string>>)
    ensures Purge(ix, {}) == ix
  {
    assert forall k | k in ix :: ix[k] - {} == ix[k];
  }

  lemma WithoutNone(c: Cache, es: seq<Entry>)
    ensures IdsOf(es[..0]) == {} && Without(c, IdsOf(es[..0])) == c
  {
    assert IdsOf(es[..0]) == {};
    WithoutNothing(c);
  }

  /** An entry is still cached unless it came before. */
  lemma CachedIff(c: Cache, es: seq<Entry>, i: nat)
    requires i < |es| && Stamped(c, es)
    ensures es[i].id in Without(c, IdsOf(es[..i])).messages <==> es[i].id !in IdsOf(es[..i])
  {
    assert es[i] in es;
  }

  lemma WithoutOneMore(c: Cache, a: set<string>, id: string)
    requires id in c.messages && id !in a && a <= c.messages.Keys
    ensures Without(Without(c, a), {id}) == Without(c, a + {id})
    ensures |Without(c, a + {id}).messages| == |c.messages| - |a| - 1
  {
    hide Purge, PurgeOwn;
    PurgeOwnTwice(c, a, id);
    PurgeTwice(c.bySource, a, id);
    PurgeTwice(c.byTarget, a, id);
    assert c.messages - a - {id} == c.messages - (a + {id});
    assert c.locks - a - {id} == c.locks - (a + {id}) && c.retries - a - {id} == c.retries - (a + {id});
    assert c.retryTimes - a - {id} == c.retryTimes - (a + {id});
    Remaining(c.messages, a + {id});
  }

  lemma PurgeOwnTwice(c: Cache, a: set<string>, id: string)
    requires id in c.messages && id !in a
    ensures PurgeOwn(Without(c, a), {id}) == PurgeOwn(c, a + {id})
  {
    hide Purge;
    forall st | st in c.byStatus
      ensures WithStatus(c, a, st) + WithStatus(Without(c, a), {id}, st) == WithStatus(c, a + {id}, st)
    {
    }
    assert forall st | st in c.byStatus ::
      c.byStatus[st] - WithStatus(c, a, st) - WithStatus(Without(c, a), {id}, st)
      == c.byStatus[st] - (WithStatus(c, a, st) + WithStatus(Without(c, a), {id}, st));
  }

  lemma PurgeTwice<K>(ix: map<K, set<string>>, a: set<string>, id: string)
    ensures Purge(Purge(ix, a), {id}) == Purge(ix, a + {id})
  {
    assert forall k | k in ix :: ix[k] - a - {id} == ix[k] - (a + {id});
  }

  /** The loop stops with the needed number of messages gone, or all of them. */
  lemma PrefixCount(c: Cache, es: seq<Entry>, i: nat)
    requires i <= |es| && IdsOf(es) == Sweepable(c) && |IdsOf(es[..i])| <= Excess(c)
    requires i == |es| || |IdsOf(es[..i])| >= Excess(c)
    ensures |IdsOf(es[..i])| == if Excess(c) <= |Sweepable(c)| then Excess(c) else |Sweepable(c)|
  {
    hide Sweepable, Excess;
    if i == |es| {
      assert es[..i] == es;
    }
    forall x | x in IdsOf(es[..i])
      ensures x in IdsOf(es)
    {
    }
    var all, part := IdsOf(es), IdsOf(es[..i]);
    assert all == part + (all - part);
  }

  lemma MarkedElements(order: seq<string>, id: string)
    ensures Elements(Marked(order, id)) == Elements(order) + {id} && order <= Marked(order, id)
  {
  }

  lemma EvictedKeys(c: Cache, es: seq<Entry>, i: nat)
    requires i <= |es| && Stamped(c, es)
    ensures c.messages.Keys - Without(c, IdsOf(es[..i])).messages.Keys == IdsOf(es[..i])
  {
    IdsAreCached(c, es, i);
  }

  lemma EntryIsCached(c: Cache, es: seq<Entry>, i: nat)
    requires i < |es| && Stamped(c, es)
    ensures es[i].id in c.messages
  {
    assert es[i] in es;
  }

  lemma IdsAreCached(c: Cache, es: seq<Entry>, i: nat)
    requires i <= |es| && Stamped(c, es)
    ensures IdsOf(es[..i]) <= c.messages.Keys
  {
    forall k | 0 <= k < i
      ensures es[k].id in c.messages
    {
      assert es[k] in es;
    }
  }
}
