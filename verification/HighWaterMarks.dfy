/**
 The high-water bucket of bridge/message_store.go: one 8-byte mark for each source chain and address,
 under the key chain|address, read back by splitting every key at its first separator. The bucket may
 hold any keys and values, as an older or damaged file would.
 */
module HighWaterMarks {
  import opened ByteStrings
  import opened ByteOrder
  import opened Results
  import MessageStore

  const SEPARATOR: byte := MessageStore.SEPARATOR
  const MARK_WIDTH: nat := 8
  const MAX_ITERATIONS: nat := MessageStore.MAX_ITERATIONS

  type Mark = n: nat | n < Pow256(MARK_WIDTH)
  type Bucket = map<seq<byte>, seq<byte>>

  datatype NonceKey = NonceKey(chain: seq<byte>, addr: seq<byte>)

  // ---------------------------------------------------------------- keys

  function MarkKey(k: NonceKey): seq<byte> {
    k.chain + [SEPARATOR] + k.addr
  }

  /** bytes.SplitN into two: the parts around the first separator, if there is one. */
  function SplitKey(key: seq<byte>): Option<NonceKey> {
    if key == [] then None
    else if key[0] == SEPARATOR then Some(NonceKey([], key[1..]))
    else
      match SplitKey(key[1..])
      case None => None
      case Some(k) => Some(NonceKey([key[0]] + k.chain, k.addr))
  }

  /** Splitting finds the one way to read a key with a separator-free chain. */
  lemma {:induction false} SplitIsExact(key: seq<byte>, k: NonceKey)
    ensures SplitKey(key) == Some(k) <==> MarkKey(k) == key && SEPARATOR !in k.chain
    decreases |key|
  {
    if key == [] {
      assert MarkKey(k) != [];
    } else if k.chain == [] {
      assert MarkKey(k) == [SEPARATOR] + k.addr;
      assert key == [key[0]] + key[1..];
    } else {
      var rest := NonceKey(k.chain[1..], k.addr);
      SplitIsExact(key[1..], rest);
      assert k.chain == [k.chain[0]] + k.chain[1..];
      assert MarkKey(k) == [k.chain[0]] + MarkKey(rest);
      assert key == [key[0]] + key[1..];
    }
  }

  /** A key comes back from the bucket as itself exactly when its chain has no separator. */
  lemma SplitUndoesJoinIff(k: NonceKey)
    ensures SplitKey(MarkKey(k)) == Some(k) <==> SEPARATOR !in k.chain
  {
    hide MarkKey, SplitKey;
    SplitIsExact(MarkKey(k), k);
  }

  /** The chain of k starts with the chain of j and a separator, and the address of j makes up for it. */
  predicate Shifted(j: NonceKey, k: NonceKey) {
    && HasPrefix(k.chain, j.chain + [SEPARATOR])
    && j.addr == k.chain[|j.chain| + 1..] + [SEPARATOR] + k.addr
  }

  lemma ShiftedShareKey(j: NonceKey, k: NonceKey)
    requires Shifted(j, k)
    ensures MarkKey(j) == MarkKey(k) && j != k
  {
    var n := |j.chain| + 1;
    assert k.chain == k.chain[..n] + k.chain[n..];
    assert MarkKey(k) == j.chain + [SEPARATOR] + (k.chain[n..] + [SEPARATOR] + k.addr);
  }

  lemma SharedKeyIsShifted(j: NonceKey, k: NonceKey)
    requires MarkKey(j) == MarkKey(k) && |j.chain| < |k.chain|
    ensures Shifted(j, k)
  {
    var key, n := MarkKey(j), |j.chain| + 1;
    assert key[..n] == j.chain + [SEPARATOR];
    assert key[..n] == k.chain[..n];
    assert key[n..] == j.addr;
    assert key[n..] == k.chain[n..] + [SEPARATOR] + k.addr;
  }

  /** Two keys share their place in the bucket exactly when one is the other shifted. */
  lemma KeysMeetIff(j: NonceKey, k: NonceKey)
    ensures MarkKey(j) == MarkKey(k) && j != k <==> Shifted(j, k) || Shifted(k, j)
  {
    if Shifted(j, k) {
      ShiftedShareKey(j, k);
    } else if Shifted(k, j) {
      ShiftedShareKey(k, j);
    } else if MarkKey(j) == MarkKey(k) {
      if |j.chain| < |k.chain| {
        SharedKeyIsShifted(j, k);
      } else if |k.chain| < |j.chain| {
        SharedKeyIsShifted(k, j);
      } else {
        var n := |j.chain|;
        assert j.chain == MarkKey(j)[..n] == MarkKey(k)[..n] == k.chain;
        assert j.addr == MarkKey(j)[n + 1..] == MarkKey(k)[n + 1..] == k.addr;
      }
    }
  }

  /** The keys SaveHighestUsedNonce accepts. */
  predicate Storable(k: NonceKey) {
    k.chain != [] && k.addr != []
  }

  /** Storable keys over these chains, with any addresses, have places of their own. */
  ghost predicate MarksToldApart(chains: iset<seq<byte>>) {
    forall j, k | Storable(j) && Storable(k) && j.chain in chains && k.chain in chains && MarkKey(j) == MarkKey(k) ::
      j == k
  }

  /** That holds exactly when no chain is another chain continued by a separator. */
  lemma MarksToldApartIff(chains: iset<seq<byte>>)
    ensures MarksToldApart(chains)
       <==> forall c, d | c in chains && d in chains && c != [] :: !HasPrefix(d, c + [SEPARATOR])
  {
    hide MarkKey;
    if c, d :| c in chains && d in chains && c != [] && HasPrefix(d, c + [SEPARATOR]) {
      var k := NonceKey(d, [0]);
      var j := NonceKey(c, d[|c| + 1..] + [SEPARATOR] + [0]);
      KeysMeetIff(j, k);
      assert Storable(j) && Storable(k);
    } else {
      forall j, k | Storable(j) && Storable(k) && j.chain in chains && k.chain in chains && MarkKey(j) == MarkKey(k)
        ensures j == k
      {
        KeysMeetIff(j, k);
      }
    }
  }

  // ---------------------------------------------------------------- saving and loading

  function Save(b: Bucket, k: NonceKey, n: Mark): Bucket {
    if !Storable(k) then b else b[MarkKey(k) := BigEndian(n, MARK_WIDTH)]
  }

  /** A save with an empty chain or address stores nothing; any other stores the mark under its key, and only there. */
  lemma SaveStores(b: Bucket, k: NonceKey, n: Mark, key: seq<byte>)
    ensures k.chain == [] || k.addr == [] ==> Save(b, k, n) == b
    ensures k.chain != [] && k.addr != [] ==>
              var b' := Save(b, k, n);
              && MarkKey(k) in b' && |b'[MarkKey(k)]| == 8 && ToNat(b'[MarkKey(k)]) == n
              && (key != MarkKey(k) ==> (key in b' <==> key in b) && (key in b ==> b'[key] == b[key]))
  {
    hide MarkKey, BigEndian, ToNat, Pow256;
    ToNatOfBigEndian(n, MARK_WIDTH);
  }

  /** What the entries under these keys give, in order; malformed entries are skipped. */
  function Read(b: Bucket, keys: seq<seq<byte>>): map<NonceKey, Mark>
    requires forall key | key in keys :: key in b
  {
    if keys == [] then map[]
    else
      var last := |keys| - 1;
      assert keys[last] in keys;
      ReadOne(Read(b, keys[..last]), keys[last], b[keys[last]])
  }

  function ReadOne(marks: map<NonceKey, Mark>, key: seq<byte>, v: seq<byte>): map<NonceKey, Mark> {
    if |v| != MARK_WIDTH || SplitKey(key).None? then marks
    else
      ToNatBound(v);
      marks[SplitKey(key).value := ToNat(v)]
  }

  /** The keys one load visits. */
  function Visited(keys: seq<seq<byte>>): seq<seq<byte>> {
    if |keys| <= MAX_ITERATIONS then keys else keys[..MAX_ITERATIONS]
  }

  /** What a load gives under k, told from the bucket. */
  lemma {:induction false} ReadIsExact(b: Bucket, keys: seq<seq<byte>>, k: NonceKey)
    requires forall key | key in keys :: key in b
    ensures var key := MarkKey(k); var marks := Read(b, keys);
            && (k in marks <==> SEPARATOR !in k.chain && key in keys && |b[key]| == MARK_WIDTH)
            && (k in marks ==> marks[k] == ToNat(b[key]))
    decreases |keys|
  {
    hide MarkKey, SplitKey, ToNat;
    if keys != [] {
      var last := |keys| - 1;
      assert keys[last] in keys && keys == keys[..last] + [keys[last]];
      ReadIsExact(b, keys[..last], k);
      SplitIsExact(keys[last], k);
    }
  }

  lemma {:induction false} ReadSize(b: Bucket, keys: seq<seq<byte>>)
    requires forall key | key in keys :: key in b
    ensures |Read(b, keys)| <= |keys|
    decreases |keys|
  {
    hide SplitKey, ToNat;
    if keys != [] {
      var last := |keys| - 1;
      assert keys[last] in keys;
      ReadSize(b, keys[..last]);
    }
  }

  /** A saved mark comes back under its key exactly when the chain has no separator and the load gets that far. */
  lemma SavedMarkReturnsIff(b: Bucket, k: NonceKey, n: Mark, keys: seq<seq<byte>>)
    requires Storable(k) && Lists(keys, Save(b, k, n).Keys)
    ensures var marks := Read(Save(b, k, n), Visited(keys));
            k in marks && marks[k] == n <==> SEPARATOR !in k.chain && MarkKey(k) in Visited(keys)
  {
    hide MarkKey, Less, ToNat, BigEndian, Pow256;
    ReadIsExact(Save(b, k, n), Visited(keys), k);
    ToNatOfBigEndian(n, MARK_WIDTH);
  }

  /** Saving under one of two keys that meet replaces the mark of the other. */
  lemma MarkIsOverwritten(b: Bucket, j: NonceKey, m: Mark, k: NonceKey, n: Mark, keys: seq<seq<byte>>)
    requires Storable(j) && Storable(k) && Shifted(j, k) && SEPARATOR !in j.chain
    requires Lists(keys, Save(Save(b, j, m), k, n).Keys) && MarkKey(k) in Visited(keys)
    ensures var marks := Read(Save(Save(b, j, m), k, n), Visited(keys));
            j in marks && marks[j] == n && k !in marks
  {
    hide MarkKey, Less, ToNat, BigEndian, Pow256, Shifted;
    var b' := Save(Save(b, j, m), k, n);
    ShiftedShareKey(j, k);
    ReadIsExact(b', Visited(keys), j);
    ReadIsExact(b', Visited(keys), k);
    SeparatorInside(j, k);
    ToNatOfBigEndian(n, MARK_WIDTH);
  }

  lemma SeparatorInside(j: NonceKey, k: NonceKey)
    requires Shifted(j, k)
    ensures SEPARATOR in k.chain
  {
    assert k.chain[|j.chain|] == (j.chain + [SEPARATOR])[|j.chain|];
  }

  // ---------------------------------------------------------------- runs

  datatype Op = SaveOp(key: NonceKey, mark: Mark)

  function Run(ops: seq<Op>): Bucket {
    if ops == [] then map[] else
      var op := ops[|ops| - 1];
      Save(Run(ops[..|ops| - 1]), op.key, op.mark)
  }

  /** The mark each key was last saved with. */
  function LastSaved(ops: seq<Op>): map<NonceKey, Mark> {
    if ops == [] then map[] else
      var before, op := LastSaved(ops[..|ops| - 1]), ops[|ops| - 1];
      if Storable(op.key) then before[op.key := op.mark] else before
  }

  ghost predicate SeparatorFree(marks: map<NonceKey, Mark>) {
    forall k | k in marks :: SEPARATOR !in k.chain
  }

  /** Every saved key has an entry, and there are no more entries than keys. */
  lemma {:induction false} RunHasEntries(ops: seq<Op>)
    ensures (forall k | k in LastSaved(ops) :: MarkKey(k) in Run(ops)) && |Run(ops)| <= |LastSaved(ops)|
  {
    hide MarkKey, BigEndian;
    if ops != [] {
      RunHasEntries(ops[..|ops| - 1]);
    }
  }

  lemma SeparatorFreeApart(j: NonceKey, k: NonceKey)
    requires SEPARATOR !in j.chain && SEPARATOR !in k.chain && MarkKey(j) == MarkKey(k)
    ensures j == k
  {
    hide MarkKey, SplitKey;
    SplitUndoesJoinIff(j);
    SplitUndoesJoinIff(k);
  }

  /** Without separators in the chains, the bucket holds exactly the last marks. */
  lemma {:induction false} RunHoldsLast(ops: seq<Op>, k: NonceKey)
    requires SeparatorFree(LastSaved(ops)) && SEPARATOR !in k.chain
    ensures MarkKey(k) in Run(ops) <==> k in LastSaved(ops)
    ensures k in LastSaved(ops) ==> Run(ops)[MarkKey(k)] == BigEndian(LastSaved(ops)[k], MARK_WIDTH)
    decreases |ops|
  {
    hide MarkKey, BigEndian;
    if ops != [] {
      var front, op := ops[..|ops| - 1], ops[|ops| - 1];
      assert LastSaved(front).Keys <= LastSaved(ops).Keys;
      RunHoldsLast(front, k);
      if Storable(op.key) && MarkKey(op.key) == MarkKey(k) {
        assert op.key in LastSaved(ops);
        SeparatorFreeApart(op.key, k);
      }
    }
  }

  lemma LoadsAllLast(ops: seq<Op>, keys: seq<seq<byte>>)
    requires Lists(keys, Run(ops).Keys) && SeparatorFree(LastSaved(ops)) && |LastSaved(ops)| <= MAX_ITERATIONS
    ensures Read(Run(ops), Visited(keys)) == LastSaved(ops)
  {
    hide MarkKey, BigEndian, Less, ToNat, Read, Run, LastSaved;
    RunHasEntries(ops);
    ListedCount(keys, Run(ops).Keys);
    assert |Run(ops).Keys| == |Run(ops)|;
    forall k
      ensures k in Read(Run(ops), keys) <==> k in LastSaved(ops)
      ensures k in LastSaved(ops) ==> k in Read(Run(ops), keys) && Read(Run(ops), keys)[k] == LastSaved(ops)[k]
    {
      ReadIsExact(Run(ops), keys, k);
      if SEPARATOR !in k.chain {
        RunHoldsLast(ops, k);
        if k in LastSaved(ops) {
          ToNatOfBigEndian(LastSaved(ops)[k], MARK_WIDTH);
        }
      }
    }
  }

  /**
   After any saves a load gives each key its last mark exactly when no saved chain has a separator and
   the saved keys are within the iteration limit.
   */
  lemma RunLoadsBackIff(ops: seq<Op>, keys: seq<seq<byte>>)
    requires Lists(keys, Run(ops).Keys)
    ensures Read(Run(ops), Visited(keys)) == LastSaved(ops)
       <==> SeparatorFree(LastSaved(ops)) && |LastSaved(ops)| <= MAX_ITERATIONS
  {
    hide MarkKey, BigEndian, Less, ToNat, Read, Run, LastSaved;
    if !SeparatorFree(LastSaved(ops)) {
      var k :| k in LastSaved(ops) && SEPARATOR in k.chain;
      ReadIsExact(Run(ops), Visited(keys), k);
    } else if |LastSaved(ops)| > MAX_ITERATIONS {
      ReadSize(Run(ops), Visited(keys));
    } else {
      LoadsAllLast(ops, keys);
    }
  }

  // ---------------------------------------------------------------- the bucket object

  class HighWaterBucket {
    var bucket: Bucket

    constructor ()
      ensures bucket == map[]
    {
      bucket := map[];
    }

    method SaveHighestUsedNonce(chain: seq<byte>, addr: seq<byte>, nonce: Mark) returns (ok: bool)
      modifies this
      ensures bucket == Save(old(bucket), NonceKey(chain, addr), nonce)
      ensures ok <==> chain != [] && addr != []
    {
      if chain == [] || addr == [] {
        return false;
      }
      var key := chain + [SEPARATOR] + addr;
      bucket := bucket[key := BigEndian(nonce, MARK_WIDTH)];
      return true;
    }

    /** Visits the keys in byte order, up to the limit. */
    method LoadAllHighestUsedNonces() returns (marks: map<NonceKey, Mark>)
      ensures exists keys :: Lists(keys, bucket.Keys) && marks == Read(bucket, Visited(keys))
    {
      hide Less, SplitKey, ToNat;
      var keys := SortSet(bucket.Keys);
      marks := map[];
      var i := 0;
      while i < |keys|
        invariant i <= |keys| && i <= MAX_ITERATIONS && marks == Read(bucket, keys[..i])
      {
        if i >= MAX_ITERATIONS {
          break;
        }
        assert keys[..i + 1][..i] == keys[..i];
        i := i + 1;
        var key := keys[i - 1];
        var v := bucket[key];
        if |v| != MARK_WIDTH {
          continue;
        }
        var parts := SplitKey(key);
        if parts.None? {
          continue;
        }
        ToNatBound(v);
        marks := marks[parts.value := ToNat(v)];
      }
      assert keys[..i] == Visited(keys);
    }
  }
}
