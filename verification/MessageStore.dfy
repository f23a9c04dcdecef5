/**
 The persistent message store of bridge/message_store.go: a message bucket and a status index whose
 keys are status|id, both with keys in byte order. A bbolt transaction is all or nothing; message
 bodies are stored as values, so the JSON coding is not part of the model.
 */
module MessageStore {
  import opened ByteStrings
  import opened ByteOrder
  import opened Results

  type Id = seq<byte>

  datatype Status = Pending | Verified | Executed | Failed | Expired

  const STATUSES: seq<Status> := [Pending, Verified, Executed, Failed, Expired]
  const SEPARATOR: byte := 124
  const MAX_ITERATIONS: nat := 100_000

  /** PENDING, VERIFIED, EXECUTED, FAILED, EXPIRED */
  function Text(st: Status): seq<byte> {
    match st
    case Pending => [80, 69, 78, 68, 73, 78, 71]
    case Verified => [86, 69, 82, 73, 70, 73, 69, 68]
    case Executed => [69, 88, 69, 67, 85, 84, 69, 68]
    case Failed => [70, 65, 73, 76, 69, 68]
    case Expired => [69, 88, 80, 73, 82, 69, 68]
  }

  /** All other fields of a message are its body. */
  datatype Message = Message(id: Id, status: Status, body: seq<byte>)

  datatype Store = Store(messages: map<Id, Message>, index: set<seq<byte>>)

  const EMPTY := Store(map[], {})

  // ---------------------------------------------------------------- index keys

  function Prefix(st: Status): seq<byte> {
    Text(st) + [SEPARATOR]
  }

  function StatusKey(st: Status, id: Id): seq<byte> {
    Prefix(st) + id
  }

  function ExtractId(key: seq<byte>, st: Status): Id {
    if |key| <= |Prefix(st)| then [] else key[|Prefix(st)|..]
  }

  lemma ExtractUndoesKey(st: Status, id: Id)
    ensures ExtractId(StatusKey(st, id), st) == id && HasPrefix(StatusKey(st, id), Prefix(st))
  {
    hide Text;
    assert StatusKey(st, id)[|Prefix(st)|..] == id;
    assert StatusKey(st, id)[..|Prefix(st)|] == Prefix(st);
  }

  /** No status prefix is a prefix of another status's keys, whatever bytes the id has. */
  lemma PrefixTellsStatus(st: Status, other: Status, id: Id)
    ensures HasPrefix(StatusKey(other, id), Prefix(st)) <==> other == st
  {
    var key := StatusKey(other, id);
    ExtractUndoesKey(other, id);
    PrefixBytes(key, Prefix(other));
    if HasPrefix(key, Prefix(st)) {
      PrefixBytes(key, Prefix(st));
    }
  }

  lemma PrefixBytes(key: seq<byte>, p: seq<byte>)
    requires HasPrefix(key, p) && |p| > 2
    ensures key[0] == p[0] && key[2] == p[2]
  {
    assert p[0] == key[..|p|][0] && p[2] == key[..|p|][2];
  }

  lemma KeyIsInjective(st: Status, id: Id, st': Status, id': Id)
    requires StatusKey(st, id) == StatusKey(st', id')
    ensures st == st' && id == id'
  {
    hide Text, StatusKey, Prefix, ExtractId;
    ExtractUndoesKey(st, id);
    PrefixTellsStatus(st, st', id');
    ExtractUndoesKey(st', id');
  }

  // ---------------------------------------------------------------- operations

  datatype Error = NilMessage | EmptyId | NotFound | StatusMismatch

  function IndexKeys(id: Id): set<seq<byte>> {
    set i | 0 <= i < |STATUSES| :: StatusKey(STATUSES[i], id)
  }

  function Save(s: Store, m: Option<Message>): Store {
    if m.None? || m.value.id == [] then s
    else Store(s.messages[m.value.id := m.value],
      s.index - IndexKeys(m.value.id) + {StatusKey(m.value.status, m.value.id)})
  }

  function Update(s: Store, id: Id, from: Status, to: Status): Store {
    if id == [] || id !in s.messages || s.messages[id].status != from then s
    else Store(s.messages[id := s.messages[id].(status := to)], s.index - {StatusKey(from, id)} + {StatusKey(to, id)})
  }

  // ---------------------------------------------------------------- consistency

  predicate IndexRight(s: Store, st: Status, id: Id) {
    StatusKey(st, id) in s.index <==> id in s.messages && s.messages[id].status == st
  }

  /** The index holds exactly status|id of every stored message. */
  ghost predicate Consistent(s: Store) {
    && (forall id | id in s.messages :: id != [] && s.messages[id].id == id)
    && (forall st, id :: IndexRight(s, st, id))
    && (forall key | key in s.index :: exists st, id :: key == StatusKey(st, id))
  }

  lemma StatusesAreAll(st: Status, id: Id)
    ensures StatusKey(st, id) in IndexKeys(id)
  {
    hide StatusKey;
    assert STATUSES[0] == Pending && STATUSES[1] == Verified && STATUSES[2] == Executed && STATUSES[3] == Failed
           && STATUSES[4] == Expired;
  }

  lemma OtherIdsKeepKeys(st: Status, id: Id, other: Id)
    requires other != id
    ensures StatusKey(st, other) !in IndexKeys(id)
  {
    hide StatusKey;
    forall i | 0 <= i < |STATUSES|
      ensures StatusKey(STATUSES[i], id) != StatusKey(st, other)
    {
      if StatusKey(STATUSES[i], id) == StatusKey(st, other) {
        KeyIsInjective(STATUSES[i], id, st, other);
      }
    }
  }

  lemma SaveKeeps(s: Store, m: Option<Message>)
    requires Consistent(s)
    ensures Consistent(Save(s, m))
  {
    hide StatusKey, IndexKeys;
    if m.Some? && m.value.id != [] {
      var s' := Save(s, m);
      var id := m.value.id;
      forall st, other
        ensures IndexRight(s', st, other)
      {
        assert IndexRight(s, st, other);
        if other == id {
          StatusesAreAll(st, id);
        } else {
          OtherIdsKeepKeys(st, id, other);
        }
        if StatusKey(st, other) == StatusKey(m.value.status, id) {
          KeyIsInjective(st, other, m.value.status, id);
        }
      }
    }
  }

  lemma UpdateKeeps(s: Store, id: Id, from: Status, to: Status)
    requires Consistent(s)
    ensures Consistent(Update(s, id, from, to))
  {
    hide StatusKey;
    if id != [] && id in s.messages && s.messages[id].status == from {
      var s' := Update(s, id, from, to);
      forall st, other
        ensures IndexRight(s', st, other)
      {
        assert IndexRight(s, st, other);
        if StatusKey(st, other) == StatusKey(from, id) {
          KeyIsInjective(st, other, from, id);
        }
        if StatusKey(st, other) == StatusKey(to, id) {
          KeyIsInjective(st, other, to, id);
        }
      }
    }
  }

  datatype Op = SaveOp(m: Option<Message>) | UpdateOp(id: Id, from: Status, to: Status)

  function Apply(s: Store, op: Op): Store {
    match op
    case SaveOp(m) => Save(s, m)
    case UpdateOp(id, from, to) => Update(s, id, from, to)
  }

  function Run(ops: seq<Op>): Store {
    if ops == [] then EMPTY else Apply(Run(ops[..|ops| - 1]), ops[|ops| - 1])
  }

  /** After any sequence of saves and status updates the index agrees with the stored statuses. */
  lemma {:induction false} RunIsConsistent(ops: seq<Op>)
    ensures Consistent(Run(ops))
  {
    hide Save, Update, StatusKey;
    if ops != [] {
      var before, op := Run(ops[..|ops| - 1]), ops[|ops| - 1];
      RunIsConsistent(ops[..|ops| - 1]);
      match op
      case SaveOp(m) => SaveKeeps(before, m);
      case UpdateOp(id, from, to) => UpdateKeeps(before, id, from, to);
    }
  }

  // ---------------------------------------------------------------- scanning

  function IdsWith(s: Store, st: Status): set<Id> {
    set id | id in s.messages && s.messages[id].status == st
  }

  lemma {:induction false} CommonPrefixOrder(p: seq<byte>, a: seq<byte>, b: seq<byte>)
    ensures Less(p + a, p + b) <==> Less(a, b)
  {
    if p == [] {
      assert p + a == a && p + b == b;
    } else {
      CommonPrefixOrder(p[1..], a, b);
      assert (p + a)[1..] == p[1..] + a && (p + b)[1..] == p[1..] + b;
    }
  }

  /**
   In the ordered bucket the keys of one status are a block: below it smaller keys, above it keys
   without the prefix.
   */
  lemma PrefixBlock(keys: seq<seq<byte>>, p: seq<byte>, start: nat, end: nat, j: nat)
    requires Ascending(keys) && start <= end <= |keys| && j < |keys|
    requires forall i | 0 <= i < start :: Less(keys[i], p)
    requires forall i | start <= i < |keys| :: !Less(keys[i], p)
    requires forall i | start <= i < end :: HasPrefix(keys[i], p)
    requires end == |keys| || !HasPrefix(keys[end], p)
    ensures HasPrefix(keys[j], p) <==> start <= j < end
  {
    hide Less, HasPrefix;
    if j < start && HasPrefix(keys[j], p) {
      PrefixIsNotAbove(keys[j], p);
    }
    if j >= end && HasPrefix(keys[j], p) {
      LessIsTotal(keys[end], keys[j]);
      PrefixIsContiguous(p, keys[end], keys[j]);
    }
  }

  /** The ids cut from the block are the stored ids of the status, ascending. */
  lemma BlockIsStatus(s: Store, st: Status, keys: seq<seq<byte>>, start: nat, end: nat, ids: seq<Id>)
    requires Consistent(s) && Lists(keys, s.index) && start <= end <= |keys|
    requires forall j | 0 <= j < |keys| :: HasPrefix(keys[j], Prefix(st)) <==> start <= j < end
    requires |ids| == end - start && forall i | 0 <= i < |ids| :: keys[start + i] == StatusKey(st, ids[i])
    ensures Lists(ids, IdsWith(s, st))
  {
    hide StatusKey, Prefix, Less, HasPrefix;
    forall i, j | 0 <= i < j < |ids|
      ensures Less(ids[i], ids[j])
    {
      assert Less(keys[start + i], keys[start + j]);
      KeyOrder(st, ids[i], ids[j]);
    }
    forall id
      ensures id in ids <==> id in IdsWith(s, st)
    {
      assert IndexRight(s, st, id);
      if id in ids {
        var i :| 0 <= i < |ids| && ids[i] == id;
        assert keys[start + i] in keys;
      }
      if id in IdsWith(s, st) {
        var j :| 0 <= j < |keys| && keys[j] == StatusKey(st, id);
        ExtractUndoesKey(st, id);
        var i := j - start;
        KeyIsInjective(st, ids[i], st, id);
      }
    }
  }

  lemma KeyOrder(st: Status, a: Id, b: Id)
    ensures Less(StatusKey(st, a), StatusKey(st, b)) <==> Less(a, b)
  {
    hide Less, Prefix;
    CommonPrefixOrder(Prefix(st), a, b);
  }

  /** Every key with the status prefix is the key of some id. */
  lemma PrefixedKey(s: Store, st: Status, key: seq<byte>)
    requires Consistent(s) && key in s.index && HasPrefix(key, Prefix(st))
    ensures var id := ExtractId(key, st);
            key == StatusKey(st, id) && id != [] && id in s.messages && s.messages[id].status == st
  {
    hide StatusKey, Prefix, HasPrefix, ExtractId;
    var st', id' :| key == StatusKey(st', id');
    PrefixTellsStatus(st, st', id');
    ExtractUndoesKey(st, id');
    assert IndexRight(s, st, id');
  }

  // ---------------------------------------------------------------- the store object

  class BoltMessageStore {
    var messages: map<Id, Message>
    var index: set<seq<byte>>

    function Value(): Store
      reads this
    {
      Store(messages, index)
    }

    /** The index holds exactly status|id of every stored message. */
    ghost predicate Valid()
      reads this
    {
      Consistent(Value())
    }

    constructor ()
      ensures Valid() && Value() == EMPTY
    {
      messages, index := map[], {};
    }

    method RemoveStatusIndex(id: Id)
      modifies this`index
      ensures index == old(index) - IndexKeys(id)
    {
      hide StatusKey;
      for i := 0 to |STATUSES|
        invariant index == old(index) - (set k | 0 <= k < i :: StatusKey(STATUSES[k], id))
      {
        index := index - {StatusKey(STATUSES[i], id)};
      }
    }

    method SaveMessage(m: Option<Message>) returns (r: Option<Error>)
      requires Valid()
      modifies this
      ensures Valid()
      ensures Value() == Save(old(Value()), m)
      ensures r == if m.None? then Some(NilMessage) else if m.value.id == [] then Some(EmptyId) else None
    {
      hide StatusKey, Consistent, IndexKeys;
      SaveKeeps(Value(), m);
      if m.None? {
        return Some(NilMessage);
      }
      if m.value.id == [] {
        return Some(EmptyId);
      }
      RemoveStatusIndex(m.value.id);
      messages := messages[m.value.id := m.value];
      index := index + {StatusKey(m.value.status, m.value.id)};
      return None;
    }

    method UpdateMessageStatus(id: Id, from: Status, to: Status) returns (r: Option<Error>)
      requires Valid()
      modifies this
      ensures Valid()
      ensures Value() == Update(old(Value()), id, from, to)
      ensures r == if id == [] then Some(EmptyId) else if id !in old(messages) then Some(NotFound)
                   else if old(messages)[id].status != from then Some(StatusMismatch) else None
    {
      hide StatusKey, Consistent;
      UpdateKeeps(Value(), id, from, to);
      if id == [] {
        return Some(EmptyId);
      }
      if id !in messages {
        return Some(NotFound);
      }
      if messages[id].status != from {
        return Some(StatusMismatch);
      }
      messages := messages[id := messages[id].(status := to)];
      index := index - {StatusKey(from, id)};
      index := index + {StatusKey(to, id)};
      return None;
    }

    /** Cursor.Seek: the first position whose key is not below the prefix. */
    method Seek(keys: seq<seq<byte>>, p: seq<byte>) returns (start: nat)
      requires Ascending(keys)
      ensures start <= |keys| && (forall i | 0 <= i < start :: Less(keys[i], p))
              && (forall i | start <= i < |keys| :: !Less(keys[i], p))
    {
      hide Less;
      start := 0;
      while start < |keys| && Less(keys[start], p)
        invariant start <= |keys| && forall i | 0 <= i < start :: Less(keys[i], p)
      {
        start := start + 1;
      }
      forall i | start < i < |keys|
        ensures !Less(keys[i], p)
      {
        if Less(keys[i], p) {
          LessIsTransitive(keys[start], keys[i], p);
        }
      }
    }

    /** The messages with one status, in id order, up to the iteration limit. */
    method LoadMessagesByStatus(st: Status) returns (loaded: seq<Message>)
      requires Valid()
      ensures exists ids :: Lists(ids, IdsWith(Value(), st)) && FirstOf(Value(), ids, loaded)
    {
      hide Less, HasPrefix, StatusKey, Prefix, ExtractId, Lists, Consistent;
      var p := Prefix(st);
      var keys := SortSet(index);
      ListedIsAscending(keys, index);
      var start := Seek(keys, p);
      ghost var ids := StatusListing(Value(), st, keys, start);
      var i := start;
      loaded := [];
      while i < |keys| && HasPrefix(keys[i], p)
        invariant start <= i <= start + |ids| && |loaded| == i - start <= MAX_ITERATIONS
        invariant forall j | 0 <= j < |loaded| :: ids[j] in messages && loaded[j] == messages[ids[j]]
      {
        if i - start >= MAX_ITERATIONS {
          break;
        }
        ListedIsIn(keys, index, i);
        PrefixedKey(Value(), st, keys[i]);
        var id := ExtractId(keys[i], st);
        assert id == ids[i - start];
        loaded := loaded + [messages[id]];
        i := i + 1;
      }
      assert i - start < |ids| ==> ids[i - start] == ExtractId(keys[start + (i - start)], st) && HasPrefix(keys[i], p);
      assert FirstOf(Value(), ids, loaded);
    }
  }

  /** The stored messages of the first ids, as many as one scan may visit. */
  predicate FirstOf(s: Store, ids: seq<Id>, loaded: seq<Message>) {
    && |loaded| == (if |ids| <= MAX_ITERATIONS then |ids| else MAX_ITERATIONS)
    && forall i | 0 <= i < |loaded| :: ids[i] in s.messages && loaded[i] == s.messages[ids[i]]
  }

  predicate Stored(s: Store, st: Status, m: Message) {
    m.id in s.messages && s.messages[m.id] == m && m.status == st
  }

  /** A scan returns stored messages with the status only, each once; all of them exactly within the limit. */
  lemma ScanIsComplete(s: Store, st: Status, ids: seq<Id>, loaded: seq<Message>)
    requires Consistent(s) && Lists(ids, IdsWith(s, st)) && FirstOf(s, ids, loaded)
    ensures forall m | m in loaded :: Stored(s, st, m)
    ensures forall i, j | 0 <= i < j < |loaded| :: loaded[i].id != loaded[j].id
    ensures (forall m | Stored(s, st, m) :: m in loaded) <==> |IdsWith(s, st)| <= MAX_ITERATIONS
  {
    hide Less, StatusKey;
    ListedCount(ids, IdsWith(s, st));
    forall i | 0 <= i < |ids|
      ensures ids[i] in s.messages && Stored(s, st, s.messages[ids[i]]) && s.messages[ids[i]].id == ids[i]
    {
      assert ids[i] in ids;
    }
    forall i, j | 0 <= i < j < |ids|
      ensures ids[i] != ids[j]
    {
      LessIsTotal(ids[i], ids[j]);
    }
    if |ids| <= MAX_ITERATIONS {
      forall m | Stored(s, st, m)
        ensures m in loaded
      {
        assert m.id in IdsWith(s, st) && m.id in ids;
        var i :| 0 <= i < |ids| && ids[i] == m.id;
        assert loaded[i] == m;
      }
    } else {
      var missed := s.messages[ids[MAX_ITERATIONS]];
      assert Stored(s, st, missed) && missed !in loaded;
    }
  }

  lemma ListedIsAscending(keys: seq<seq<byte>>, s: set<seq<byte>>)
    requires Lists(keys, s)
    ensures Ascending(keys)
  {
  }

  lemma ListedIsIn(keys: seq<seq<byte>>, s: set<seq<byte>>, i: nat)
    requires Lists(keys, s) && i < |keys|
    ensures keys[i] in s
  {
    assert keys[i] in keys;
  }

  /** The listing of a status, read off the ordered keys from the seek position on. */
  lemma StatusListing(s: Store, st: Status, keys: seq<seq<byte>>, start: nat) returns (ids: seq<Id>)
    requires Consistent(s) && Lists(keys, s.index) && start <= |keys|
    requires forall i | 0 <= i < start :: Less(keys[i], Prefix(st))
    requires forall i | start <= i < |keys| :: !Less(keys[i], Prefix(st))
    ensures Lists(ids, IdsWith(s, st)) && start + |ids| <= |keys|
    ensures forall i | 0 <= i < |ids| ::
            ids[i] == ExtractId(keys[start + i], st) && HasPrefix(keys[start + i], Prefix(st))
    ensures start + |ids| < |keys| ==> !HasPrefix(keys[start + |ids|], Prefix(st))
  {
    hide Less, HasPrefix, StatusKey, Prefix, ExtractId, Lists, Consistent;
    var p := Prefix(st);
    ListedIsAscending(keys, s.index);
    var end := start;
    ids := [];
    while end < |keys| && HasPrefix(keys[end], p)
      invariant start <= end <= |keys| && |ids| == end - start
      invariant forall j | start <= j < end :: HasPrefix(keys[j], p)
      invariant forall j | 0 <= j < |ids| ::
                ids[j] == ExtractId(keys[start + j], st) && keys[start + j] == StatusKey(st, ids[j])
    {
      ListedIsIn(keys, s.index, end);
      PrefixedKey(s, st, keys[end]);
      ids := ids + [ExtractId(keys[end], st)];
      end := end + 1;
    }
    forall j | 0 <= j < |keys|
      ensures HasPrefix(keys[j], p) <==> start <= j < end
    {
      PrefixBlock(keys, p, start, end, j);
    }
    BlockIsStatus(s, st, keys, start, end, ids);
  }
}
