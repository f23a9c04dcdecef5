/**
 The replay table as the bridge keeps it: fields changed in place by loops over Go maps. A range over
 a map visits its keys in an arbitrary order, so each loop here picks an arbitrary remaining key.
 */
module NonceTable {
  import opened Results
  import opened Nonces
  import opened NonceCheckpoint

  class ReplayTable {
    var used: map<Key, set<Nonce>>
    var highest: map<Key, Nonce>
    var total: int

    function Value(): Table
      reads this
    {
      Table(used, highest, total)
    }

    constructor ()
      ensures Value() == EMPTY
    {
      used, highest, total := map[], map[], 0;
    }

    /** Deletes the covered nonces of one inner map and counts them. */
    method PruneInner(nonces: set<Nonce>, high: Nonce) returns (kept: set<Nonce>, pruned: nat)
      ensures kept == Above(nonces, high)
      ensures pruned == |nonces| - |kept|
    {
      kept, pruned := nonces, 0;
      var todo := nonces;
      while todo != {}
        invariant todo <= kept <= nonces && pruned == |nonces| - |kept|
        invariant forall n | n in nonces :: n in kept <==> n in todo || n > high
      {
        var n :| n in todo;
        if n <= high {
          kept := kept - {n};
          pruned := pruned + 1;
        }
        todo := todo - {n};
      }
    }

    method SweepUsedNoncesFor(k: Key) returns (pruned: nat)
      modifies this
      ensures Value() == SweepKey(old(Value()), k)
    {
      if k !in used {
        return 0;
      }
      var high := if k in highest then highest[k] else 0;
      var kept;
      kept, pruned := PruneInner(used[k], high);
      assert kept == Uncovered(Value(), k);
      if kept == {} {
        used := used - {k};
      } else {
        used := used[k := kept];
      }
      total := total - pruned;
      if total < 0 {
        total := 0;
      }
    }

    method SweepUsedNonces() returns (pruned: nat)
      modifies this
      ensures Value() == SweepAll(old(Value()))
      ensures pruned == |Entries(old(used))| - |Entries(used)|
    {
      hide Entries;
      ghost var before := Value();
      pruned := 0;
      var todo := used.Keys;
      while todo != {}
        invariant todo <= used.Keys <= before.used.Keys && highest == before.highest && total == before.total
        invariant forall k | k in before.used.Keys - todo :: k in used <==> Uncovered(before, k) != {}
        invariant forall k | k in used && k !in todo :: used[k] == Uncovered(before, k)
        invariant forall k | k in todo :: used[k] == before.used[k]
        invariant pruned == |Entries(before.used)| - |Entries(used)|
        decreases |todo|
      {
        var k :| k in todo;
        var high := if k in highest then highest[k] else 0;
        var kept, gone := PruneInner(used[k], high);
        assert kept == Uncovered(before, k);
        EntriesAfterPrune(used, k, kept);
        if kept == {} {
          used := used - {k};
        } else {
          used := used[k := kept];
        }
        pruned := pruned + gone;
        todo := todo - {k};
      }
      assert used == SweepAll(before).used;
      total := total - pruned;
      if total < 0 {
        total := 0;
      }
    }

    /** The first part of SubmitMessage: make the inner map, sweep when a cap is reached. */
    method EnforceCaps(k: Key) returns (full: Option<Reason>)
      modifies this
      ensures Value() == Prepared(old(Value()), k) && full == CapReason(old(Value()), k)
    {
      hide SweepAll, SweepKey, Entries;
      if k !in used {
        used := used[k := {}];
      }
      assert Value() == MakeInner(old(Value()), k);
      if total >= MAX_GLOBAL {
        var _ := SweepUsedNonces();
        if total >= MAX_GLOBAL {
          return Some(GlobalCap);
        }
      }
      if |Tracked(Value(), k)| >= MAX_PER_KEY {
        var _ := SweepUsedNoncesFor(k);
        if |Tracked(Value(), k)| >= MAX_PER_KEY {
          return Some(KeyCap);
        }
      }
      return None;
    }

    method SubmitMessage(k: Key, n: Nonce, valid: bool, submitted: bool) returns (outcome: Outcome)
      modifies this
      ensures (Value(), outcome) == Submit(old(Value()), k, n, valid, submitted)
    {
      hide Prepared, CapReason;
      var full := EnforceCaps(k);
      if full.Some? {
        return Rejected(full.value);
      }
      if n <= High(Value(), k) {
        return Rejected(BelowHighest);
      }
      if n in Tracked(Value(), k) {
        return Rejected(AlreadyUsed);
      }
      if !valid {
        return Rejected(Invalid);
      }
      if k !in used {
        return Panicked;
      }
      used := used[k := used[k] + {n}];
      total := total + 1;
      if !submitted {
        used := used[k := used[k] - {n}];
        total := total - 1;
        return RolledBack;
      }
      return Accepted;
    }

    method ExecuteMessage(k: Key, n: Nonce)
      modifies this
      ensures Value() == Execute(old(Value()), k, n)
    {
      hide SweepKey;
      if n > (if k in highest then highest[k] else 0) {
        highest := highest[k := n];
      }
      var _ := SweepUsedNoncesFor(k);
    }

    /** The inner loop of the load: the parsed nonces that are neither covered nor tracked join the set. */
    method MergeNonces(own: set<Nonce>, high: Nonce, text: set<string>) returns (merged: set<Nonce>, loaded: nat)
      ensures merged == own + Fresh(own, high, text) && loaded == |Fresh(own, high, text)|
    {
      hide *;
      FreshNone(own, high);
      merged, loaded := own, 0;
      var todo, done := text, {};
      while todo != {}
        invariant todo <= text && done == text - todo
        invariant merged == own + Fresh(own, high, done) && loaded == |Fresh(own, high, done)|
        decreases |todo|
      {
        var s :| s in todo;
        FreshOne(own, high, done, s);
        ghost var before := Fresh(own, high, done);
        todo := todo - {s};
        done := done + {s};
        var n := Parse(s);
        assert n.Some? && n.value > high && n.value !in own ==> Fresh(own, high, done) == before + {n.value};
        assert n.None? || n.value <= high || n.value in own ==> Fresh(own, high, done) == before;
        if n.None? {
          continue;
        }
        if n.value <= high {
          continue;
        }
        if n.value !in merged {
          merged := merged + {n.value};
          loaded := loaded + 1;
        }
      }
      assert done == text;
    }

    /** Merges one checkpoint entry. */
    method LoadOne(e: FileEntry)
      modifies this
      ensures Value() == LoadEntry(old(Value()), e)
    {
      hide Fresh;
      var k := e.key;
      if e.highest > High(Value(), k) {
        highest := highest[k := e.highest];
      }
      ghost var raised := Value();
      assert raised == Raise(old(Value()), k, e.highest);
      if e.nonces == {} {
        return;
      }
      if k !in used {
        used := used[k := {}];
      }
      var merged, loaded := MergeNonces(used[k], High(Value(), k), e.nonces);
      used := used[k := merged];
      total := total + loaded;
    }

    method LoadCheckpoint(entries: seq<FileEntry>)
      modifies this
      ensures Value() == Load(old(Value()), entries)
    {
      hide LoadEntry;
      for i := 0 to |entries|
        invariant Value() == Load(old(Value()), entries[..i])
      {
        assert entries[..i + 1][..i] == entries[..i];
        LoadOne(entries[i]);
      }
      assert entries[..|entries|] == entries;
    }

    /** The entries checkpointNoncesLocked writes. */
    method Snapshot() returns (entries: seq<FileEntry>)
      ensures IsSnapshot(Value(), entries)
    {
      hide Format;
      var todo := used.Keys + highest.Keys;
      entries := [];
      while todo != {}
        invariant todo <= Keys(Value())
        invariant forall e | e in entries :: e.key in Keys(Value()) - todo && e == EntryFor(Value(), e.key)
        invariant forall k | k in Keys(Value()) - todo :: EntryFor(Value(), k) in entries
        invariant forall i, j | 0 <= i < j < |entries| :: entries[i].key != entries[j].key
      {
        var k :| k in todo;
        var text := FormatAll(if k in used then used[k] else {});
        var e := FileEntry(k, if k in highest then highest[k] else 0, text);
        assert e == EntryFor(Value(), k);
        entries := entries + [e];
        todo := todo - {k};
      }
      forall k | k in Keys(Value())
        ensures exists e :: e in entries && e.key == k
      {
        assert EntryFor(Value(), k) in entries && EntryFor(Value(), k).key == k;
      }
    }
  }

  method FormatAll(nonces: set<Nonce>) returns (text: set<string>)
    ensures text == set n | n in nonces :: Format(n)
  {
    hide Format;
    text := {};
    var todo := nonces;
    while todo != {}
      invariant todo <= nonces && text == set n | n in nonces - todo :: Format(n)
    {
      var n :| n in todo;
      text := text + {Format(n)};
      assert nonces - (todo - {n}) == (nonces - todo) + {n};
      todo := todo - {n};
    }
    assert nonces - {} == nonces;
  }

  lemma EntriesAfterPrune(used: map<Key, set<Nonce>>, k: Key, kept: set<Nonce>)
    requires k in used
    ensures |Entries(used[k := kept])| == |Entries(used)| - |used[k]| + |kept|
    ensures kept == {} ==> |Entries(used - {k})| == |Entries(used)| - |used[k]|
  {
    hide Entries;
    assert used == used[k := used[k]];
    ReplaceCounts(used, k, used[k]);
    ReplaceCounts(used, k, kept);
  }

  lemma FreshNone(own: set<Nonce>, high: Nonce)
    ensures Fresh(own, high, {}) == {}
  {
  }

  lemma FreshOne(own: set<Nonce>, high: Nonce, done: set<string>, s: string)
    ensures Fresh(own, high, done + {s})
         == Fresh(own, high, done)
            + (if Parse(s).Some? && Parse(s).value > high && Parse(s).value !in own then {Parse(s).value} else {})
  {
    hide Parse;
    assert NamedBy(done + {s}) == NamedBy(done) + (if Parse(s).Some? then {Parse(s).value} else {});
  }
}
