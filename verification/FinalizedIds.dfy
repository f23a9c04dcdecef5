/**
 The finalized-id log of bridge/bridge.go: a set, an order slice and an index map that describe one
 duplicate-free sequence, appended to by markFinalized and cut from the front by evictOldMessages.
 */
module FinalizedIds {
  import opened Sequences

  const MAX_FINALIZED: nat := 200_000

  function Elements(s: seq<string>): set<string> {
    set x | x in s
  }

  function Marked(order: seq<string>, id: string): seq<string> {
    if id in order then order else order + [id]
  }

  function Trimmed(order: seq<string>): seq<string> {
    if |order| <= MAX_FINALIZED then order else order[|order| - MAX_FINALIZED..]
  }

  class FinalizedLog {
    var ids: set<string>
    var order: seq<string>
    var index: map<string, nat>

    /** One duplicate-free sequence, three ways. */
    ghost predicate Agree()
      reads this
    {
      && Distinct(order)
      && ids == index.Keys == Elements(order)
      && (forall i | 0 <= i < |order| :: order[i] in index && index[order[i]] == i)
    }

    constructor ()
      ensures Agree() && order == []
    {
      ids, order, index := {}, [], map[];
    }

    method MarkFinalized(id: string)
      requires Agree()
      modifies this
      ensures Agree() && order == Marked(old(order), id)
    {
      if id in ids {
        return;
      }
      ids := ids + {id};
      order := order + [id];
      index := index[id := |order| - 1];
      assert Elements(order) == Elements(old(order)) + {id};
    }

    /** Leaves exactly the most recently inserted entries, in their order. */
    method TrimFinalized()
      requires Agree()
      modifies this
      ensures Agree() && order == Trimmed(old(order))
    {
      SizeOf(ids, order);
      if |ids| > MAX_FINALIZED {
        var evictCount := |ids| - MAX_FINALIZED;
        ForgetFront(evictCount);
        order := order[evictCount..];
        Renumber();
      }
    }

    /** The eviction loop: the first evictCount entries leave the set and the index. */
    method ForgetFront(evictCount: nat)
      requires Agree() && evictCount <= |order|
      modifies this`ids, this`index
      ensures ids == index.Keys == Elements(order[evictCount..])
    {
      hide Elements;
      var i := 0;
      assert order[0..] == order;
      while i < evictCount && i < |order|
        invariant 0 <= i <= evictCount
        invariant ids == index.Keys == Elements(order[i..])
      {
        FirstLeaves(order, i);
        ids := ids - {order[i]};
        index := index - {order[i]};
        i := i + 1;
      }
    }

    method Renumber()
      requires Distinct(order) && ids == index.Keys == Elements(order)
      modifies this`index
      ensures Agree()
    {
      for newIdx := 0 to |order|
        invariant index.Keys == Elements(order)
        invariant forall i | 0 <= i < newIdx :: order[i] in index && index[order[i]] == i
      {
        assert order[newIdx] in Elements(order);
        index := index[order[newIdx] := newIdx];
      }
    }
  }

  lemma FirstLeaves(order: seq<string>, i: nat)
    requires Distinct(order) && i < |order|
    ensures Elements(order[i..]) - {order[i]} == Elements(order[i + 1..])
  {
    assert order[i..] == [order[i]] + order[i + 1..];
    assert order[i] !in order[i + 1..];
  }

  lemma {:induction false} SizeOf(ids: set<string>, order: seq<string>)
    requires Distinct(order) && ids == Elements(order)
    ensures |ids| == |order|
    decreases |order|
  {
    if order != [] {
      FirstLeaves(order, 0);
      assert order[0..] == order;
      SizeOf(ids - {order[0]}, order[1..]);
    }
  }

  /** A trim keeps the last 200000 entries, all of them if there are no more, and their order. */
  lemma TrimKeepsTheLast(order: seq<string>)
    ensures |Trimmed(order)| == if |order| <= 200_000 then |order| else 200_000
    ensures forall i | 0 <= i < |Trimmed(order)| :: Trimmed(order)[i] == order[|order| - |Trimmed(order)| + i]
  {
  }

  // ---------------------------------------------------------------- runs

  datatype Op = Mark(id: string) | Trim

  function Apply(order: seq<string>, op: Op): seq<string> {
    if op.Mark? then Marked(order, op.id) else Trimmed(order)
  }

  function After(order: seq<string>, ops: seq<Op>): seq<string> {
    if ops == [] then order else Apply(After(order, ops[..|ops| - 1]), ops[|ops| - 1])
  }

  function Marks(ops: seq<Op>): nat {
    if ops == [] then 0 else Marks(ops[..|ops| - 1]) + if ops[|ops| - 1].Mark? then 1 else 0
  }

  /** id is among the last d entries. */
  predicate Within(order: seq<string>, id: string, d: nat) {
    exists i | 0 <= i < |order| :: order[i] == id && |order| - i <= d
  }

  lemma ApplyKeepsRecent(order: seq<string>, op: Op, id: string, d: nat)
    requires Within(order, id, d) && (op.Mark? ==> d + 1 <= MAX_FINALIZED) && d <= MAX_FINALIZED
    ensures Within(Apply(order, op), id, if op.Mark? then d + 1 else d)
  {
    var i :| 0 <= i < |order| && order[i] == id && |order| - i <= d;
    var next := Apply(order, op);
    if op.Trim? && |order| > MAX_FINALIZED {
      var k := i - (|order| - MAX_FINALIZED);
      assert next[k] == id && |next| - k <= d;
    } else {
      assert next[i] == id;
    }
  }

  /** A finalized id stays known for as long as fewer than MAX_FINALIZED others are marked after it. */
  lemma {:induction false} RecentIdsSurvive(order: seq<string>, ops: seq<Op>, id: string, d: nat)
    requires Within(order, id, d) && d + Marks(ops) <= MAX_FINALIZED
    ensures Within(After(order, ops), id, d + Marks(ops)) && id in After(order, ops)
    decreases |ops|
  {
    hide Apply;
    if ops != [] {
      var front := ops[..|ops| - 1];
      RecentIdsSurvive(order, front, id, d);
      ApplyKeepsRecent(After(order, front), ops[|ops| - 1], id, d + Marks(front));
    }
  }

  /** After a trim, and for as long as nothing new is marked, at most 200000 ids are known. */
  lemma {:induction false} LogIsBounded(order: seq<string>, ops: seq<Op>)
    requires |order| <= MAX_FINALIZED
    ensures |After(order, ops)| <= MAX_FINALIZED + Marks(ops)
    ensures ops != [] && ops[|ops| - 1].Trim? ==> |After(order, ops)| <= MAX_FINALIZED
    decreases |ops|
  {
    if ops != [] {
      LogIsBounded(order, ops[..|ops| - 1]);
    }
  }

  /** Marks alone forget nothing, and a marked id is known at once. */
  lemma MarkIsKnown(order: seq<string>, id: string)
    ensures id in Marked(order, id) && order <= Marked(order, id)
    ensures |Marked(order, id)| == |order| + if id in order then 0 else 1
  {
  }
}
