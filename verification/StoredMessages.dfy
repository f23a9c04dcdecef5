/**
 What the message store holds, told from the calls alone: under each id the message last saved there,
 its status moved on by the updates that matched.
 */
module StoredMessages {
  import opened ByteStrings
  import opened ByteOrder
  import opened Results
  import opened MessageStore

  /** The status texts of the index keys. */
  lemma StatusesSpelled()
    ensures Text(Pending) == Ascii("PENDING") && Text(Verified) == Ascii("VERIFIED")
    ensures Text(Executed) == Ascii("EXECUTED") && Text(Failed) == Ascii("FAILED") && Text(Expired) == Ascii("EXPIRED")
    ensures [SEPARATOR] == Ascii("|")
  {
  }

  /** The message saved under the id by the last save, with the status later updates gave it. */
  function Latest(ops: seq<Op>, id: Id): Option<Message> {
    if ops == [] then None
    else
      var before := Latest(ops[..|ops| - 1], id);
      match ops[|ops| - 1]
      case SaveOp(m) => if m.Some? && id != [] && m.value.id == id then m else before
      case UpdateOp(target, from, to) =>
        if target == id && before.Some? && before.value.status == from
        then Some(Message(id, to, before.value.body)) else before
  }

  /** Index of the last save under the id. */
  predicate LastSave(ops: seq<Op>, id: Id, i: nat) {
    && i < |ops| && ops[i].SaveOp? && ops[i].m.Some? && ops[i].m.value.id == id
    && forall j | i < j < |ops| && ops[j].SaveOp? && ops[j].m.Some? :: ops[j].m.value.id != id
  }

  lemma {:induction false} LatestId(ops: seq<Op>, id: Id)
    ensures Latest(ops, id).Some? ==> Latest(ops, id).value.id == id && id != []
  {
    if ops != [] {
      LatestId(ops[..|ops| - 1], id);
    }
  }

  /** The content is that of the last save, whatever was updated since. */
  lemma {:induction false} LatestIsLastSaved(ops: seq<Op>, id: Id, i: nat)
    requires id != [] && LastSave(ops, id, i)
    ensures Latest(ops, id).Some? && Latest(ops, id).value.body == ops[i].m.value.body
  {
    var last := |ops| - 1;
    if i < last {
      var front := ops[..last];
      assert forall j | 0 <= j < last :: front[j] == ops[j];
      LatestIsLastSaved(front, id, i);
    }
  }

  /** The store holds exactly the latest messages. */
  lemma {:induction false} RunStoresLatest(ops: seq<Op>, id: Id)
    ensures (id in Run(ops).messages <==> Latest(ops, id).Some?)
    ensures id in Run(ops).messages ==> Run(ops).messages[id] == Latest(ops, id).value
  {
    hide StatusKey, IndexKeys;
    if ops != [] {
      RunStoresLatest(ops[..|ops| - 1], id);
      LatestId(ops[..|ops| - 1], id);
    }
  }

  /** m is the latest message under its id, and has the status. */
  ghost predicate Current(ops: seq<Op>, st: Status, m: Message) {
    Latest(ops, m.id) == Some(m) && m.status == st
  }

  lemma StoredIsCurrent(ops: seq<Op>, st: Status, m: Message)
    ensures Stored(Run(ops), st, m) <==> Current(ops, st, m)
  {
    hide Run, Latest;
    RunStoresLatest(ops, m.id);
  }

  /**
   After any calls, a load by status returns only messages that are current with that status, contents
   included, each once, and all of them exactly when there are at most 100000.
   */
  lemma LoadReturnsCurrent(ops: seq<Op>, st: Status, ids: seq<Id>, loaded: seq<Message>)
    requires Lists(ids, IdsWith(Run(ops), st)) && FirstOf(Run(ops), ids, loaded)
    ensures forall m | m in loaded :: Current(ops, st, m)
    ensures forall i, j | 0 <= i < j < |loaded| :: loaded[i].id != loaded[j].id
    ensures (forall m | Current(ops, st, m) :: m in loaded) <==> |ids| <= 100_000
  {
    hide Run, Latest, Current, Lists, Less, Consistent;
    RunIsConsistent(ops);
    ScanIsComplete(Run(ops), st, ids, loaded);
    ListedCount(ids, IdsWith(Run(ops), st));
    forall m
      ensures Stored(Run(ops), st, m) <==> Current(ops, st, m)
    {
      StoredIsCurrent(ops, st, m);
    }
  }
}
