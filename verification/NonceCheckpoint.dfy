/**
 The nonce checkpoint of bridge/nonce_checkpoint.go: what a snapshot of the replay table contains, what
 loading a file merges, and the decimal text the nonces travel as. The JSON around the entries and the
 file are not part of the model.
 */
module NonceCheckpoint {
  import opened Results
  import opened Nonces

  // ---------------------------------------------------------------- decimal text

  predicate IsDigit(c: char) {
    '0' <= c <= '9'
  }

  function Digit(d: nat): char
    requires d < 10
  {
    ('0' as int + d) as char
  }

  /** strconv.FormatUint(n, 10) */
  function Format(n: nat): string {
    if n < 10 then [Digit(n)] else Format(n / 10) + [Digit(n % 10)]
  }

  function DigitsValue(s: string): Option<nat> {
    if s == [] then Some(0)
    else
      var high := DigitsValue(s[..|s| - 1]);
      var c := s[|s| - 1];
      if high.None? || !IsDigit(c) then None else Some(high.value * 10 + (c as int - '0' as int))
  }

  /** strconv.ParseUint(s, 10, 64); None is a syntax or a range error. */
  function Parse(s: string): Option<Nonce> {
    var v := DigitsValue(s);
    if s == [] || v.None? || v.value >= 0x1_0000_0000_0000_0000 then None else Some(v.value)
  }

  lemma {:induction false} FormatDigits(n: nat)
    ensures Format(n) != [] && DigitsValue(Format(n)) == Some(n)
  {
    if n < 10 {
      assert Format(n)[..0] == [];
    } else {
      FormatDigits(n / 10);
      assert Format(n)[..|Format(n)| - 1] == Format(n / 10);
    }
  }

  /** Printed nonces parse back to the same number. */
  lemma FormatParses(n: Nonce)
    ensures Parse(Format(n)) == Some(n)
  {
    FormatDigits(n);
  }

  predicate AllZeros(s: string) {
    forall i | 0 <= i < |s| :: s[i] == '0'
  }

  lemma {:induction false} ZerosValue(s: string)
    requires AllZeros(s)
    ensures DigitsValue(s) == Some(0)
  {
    if s != [] {
      ZerosValue(s[..|s| - 1]);
    }
  }

  /** Leading zeros change nothing. */
  lemma {:induction false} ZerosInFront(zeros: string, s: string)
    requires AllZeros(zeros)
    ensures DigitsValue(zeros + s) == DigitsValue(s)
    decreases |s|
  {
    if s == [] {
      ZerosValue(zeros);
      assert zeros + s == zeros;
    } else {
      ZerosInFront(zeros, s[..|s| - 1]);
      assert (zeros + s)[..|zeros + s| - 1] == zeros + s[..|s| - 1];
    }
  }

  /** A text of digits is some zeros and the plain form of its value; the zero itself has no plain form here. */
  lemma {:induction false} DigitsAreFormat(s: string) returns (zeros: string)
    requires DigitsValue(s).Some?
    ensures AllZeros(zeros) && s == zeros + if DigitsValue(s).value == 0 then "" else Format(DigitsValue(s).value)
    decreases |s|
  {
    if s == [] {
      return [];
    }
    var last := |s| - 1;
    var high := DigitsValue(s[..last]).value;
    var n := DigitsValue(s).value;
    zeros := DigitsAreFormat(s[..last]);
    assert s == s[..last] + [s[last]];
    assert s[last] == Digit(n % 10) && n / 10 == high;
    if n == 0 {
      zeros := zeros + ['0'];
    } else if high == 0 {
      assert Format(n) == [Digit(n)];
    } else {
      assert Format(n) == Format(high) + [s[last]];
    }
  }

  /** Exactly the plain forms of numbers below 2^64, with any zeros in front, parse. */
  lemma ParseIff(s: string, n: Nonce)
    ensures Parse(s) == Some(n) <==> exists zeros :: AllZeros(zeros) && s == zeros + Format(n)
  {
    hide Format, DigitsValue;
    if Parse(s) == Some(n) {
      var zeros := DigitsAreFormat(s);
      if n == 0 {
        assert s == zeros + "";
        ZeroForm();
        assert s == s[..|s| - 1] + Format(0);
      }
    }
    if zeros :| AllZeros(zeros) && s == zeros + Format(n) {
      ZerosInFront(zeros, Format(n));
      FormatDigits(n);
    }
  }

  lemma ZeroForm()
    ensures Format(0) == "0"
  {
  }

  // ---------------------------------------------------------------- loading

  /** One file entry; the unix times of the nonces are left out, like the insertion times. */
  datatype FileEntry = FileEntry(key: Key, highest: Nonce, nonces: set<string>)

  /** The nonces that some text names; corrupt text names none. */
  function NamedBy(text: set<string>): set<Nonce> {
    set s | s in text && Parse(s).Some? :: Parse(s).value
  }

  function Named(e: FileEntry): set<Nonce> {
    NamedBy(e.nonces)
  }

  function Fresh(own: set<Nonce>, high: Nonce, text: set<string>): set<Nonce> {
    Above(NamedBy(text), high) - own
  }

  function Added(t: Table, e: FileEntry): set<Nonce> {
    Fresh(Tracked(t, e.key), High(t, e.key), e.nonces)
  }

  function LoadEntry(t: Table, e: FileEntry): Table {
    var t1 := Raise(t, e.key, e.highest);
    if e.nonces == {} then t1
    else
      var t2 := MakeInner(t1, e.key);
      t2.(used := t2.used[e.key := t2.used[e.key] + Added(t1, e)], total := t2.total + |Added(t1, e)|)
  }

  function Load(t: Table, es: seq<FileEntry>): Table {
    if es == [] then t else LoadEntry(Load(t, es[..|es| - 1]), es[|es| - 1])
  }

  predicate EntryBlocks(e: FileEntry, k: Key, n: Nonce) {
    k == e.key && (n <= e.highest || n in Named(e))
  }

  lemma LoadEntryBlocks(t: Table, e: FileEntry, k: Key, n: Nonce)
    ensures Blocked(LoadEntry(t, e), k, n) <==> Blocked(t, k, n) || EntryBlocks(e, k, n)
  {
    hide NamedBy, Raise, MakeInner;
    var t1 := Raise(t, e.key, e.highest);
    RaiseBlocks(t, e.key, e.highest, k, n);
    if e.nonces == {} {
      NothingNamed(e);
    } else {
      MakeInnerKeeps(t1, e.key);
      var t2 := MakeInner(t1, e.key);
      assert LoadEntry(t, e).highest == t2.highest;
      assert Blocked(t2, k, n) <==> Blocked(t1, k, n);
      assert Tracked(LoadEntry(t, e), k) == Tracked(t2, k) + (if k == e.key then Added(t1, e) else {});
    }
  }

  lemma RaiseBlocks(t: Table, key: Key, high: Nonce, k: Key, n: Nonce)
    ensures Blocked(Raise(t, key, high), k, n) <==> Blocked(t, k, n) || (k == key && n <= high)
  {
  }

  lemma NothingNamed(e: FileEntry)
    requires e.nonces == {}
    ensures Named(e) == {}
  {
  }

  /** Loading blocks exactly what was blocked and what some entry names or covers. */
  lemma {:induction false} LoadBlocks(t: Table, es: seq<FileEntry>, k: Key, n: Nonce)
    ensures Blocked(Load(t, es), k, n) <==> Blocked(t, k, n) || exists e | e in es :: EntryBlocks(e, k, n)
  {
    hide Blocked, LoadEntry, EntryBlocks;
    if es != [] {
      var last := |es| - 1;
      LoadBlocks(t, es[..last], k, n);
      LoadEntryBlocks(Load(t, es[..last]), es[last], k, n);
      assert es == es[..last] + [es[last]];
    }
  }

  lemma LoadEntryCounts(t: Table, e: FileEntry)
    requires Counted(t)
    ensures Counted(LoadEntry(t, e))
  {
    hide Entries, NamedBy;
    var t1 := Raise(t, e.key, e.highest);
    var t2 := MakeInner(t1, e.key);
    MakeInnerKeeps(t1, e.key);
    var own, added := t2.used[e.key], Added(t1, e);
    assert t2.used == t2.used[e.key := own];
    ReplaceCounts(t2.used, e.key, own);
    ReplaceCounts(t2.used, e.key, own + added);
    assert own !! added;
    assert |own + added| == |own| + |added|;
  }

  lemma {:induction false} LoadCounts(t: Table, es: seq<FileEntry>)
    requires Counted(t)
    ensures Counted(Load(t, es))
  {
    hide Counted, LoadEntry;
    if es != [] {
      LoadCounts(t, es[..|es| - 1]);
      LoadEntryCounts(Load(t, es[..|es| - 1]), es[|es| - 1]);
    }
  }

  // ---------------------------------------------------------------- loading twice

  /** Loading the entry would change nothing. */
  ghost predicate Absorbed(t: Table, e: FileEntry) {
    && e.highest <= High(t, e.key)
    && (e.nonces != {} ==> e.key in t.used)
    && forall n | n in Named(e) :: Blocked(t, e.key, n)
  }

  lemma AbsorbedIsIdentity(t: Table, e: FileEntry)
    requires Absorbed(t, e)
    ensures LoadEntry(t, e) == t
  {
    hide NamedBy;
    assert Added(t, e) <= Named(e);
    assert forall n | n in Named(e) :: n !in Added(t, e);
    assert Added(t, e) == {};
    if e.nonces != {} {
      assert t.used[e.key] + {} == t.used[e.key];
      assert t.used[e.key := t.used[e.key]] == t.used;
    }
  }

  lemma LoadAbsorbs(t: Table, e: FileEntry)
    ensures Absorbed(LoadEntry(t, e), e)
  {
    hide LoadEntry, Blocked, NamedBy;
    forall n | n in Named(e)
      ensures Blocked(LoadEntry(t, e), e.key, n)
    {
      LoadEntryBlocks(t, e, e.key, n);
    }
    LoadEntryRaises(t, e);
  }

  lemma LoadEntryRaises(t: Table, e: FileEntry)
    ensures e.highest <= High(LoadEntry(t, e), e.key) && (e.nonces != {} ==> e.key in LoadEntry(t, e).used)
    ensures forall k :: High(t, k) <= High(LoadEntry(t, e), k)
    ensures forall k | k in t.used :: k in LoadEntry(t, e).used
  {
    hide Added;
  }

  lemma AbsorbedStays(t: Table, e: FileEntry, e': FileEntry)
    requires Absorbed(t, e)
    ensures Absorbed(LoadEntry(t, e'), e)
  {
    hide LoadEntry, Blocked, NamedBy;
    LoadEntryRaises(t, e');
    forall n | n in Named(e)
      ensures Blocked(LoadEntry(t, e'), e.key, n)
    {
      LoadEntryBlocks(t, e', e.key, n);
    }
  }

  lemma {:induction false} AllAbsorbed(t: Table, es: seq<FileEntry>)
    ensures forall e | e in es :: Absorbed(Load(t, es), e)
  {
    hide Absorbed, LoadEntry;
    if es != [] {
      var last := |es| - 1;
      AllAbsorbed(t, es[..last]);
      var before := Load(t, es[..last]);
      LoadAbsorbs(before, es[last]);
      forall e | e in es
        ensures Absorbed(Load(t, es), e)
      {
        if e != es[last] {
          assert e in es[..last];
          AbsorbedStays(before, e, es[last]);
        }
      }
    }
  }

  lemma {:induction false} AbsorbedLoad(t: Table, es: seq<FileEntry>)
    requires forall e | e in es :: Absorbed(t, e)
    ensures Load(t, es) == t
  {
    hide Absorbed, LoadEntry;
    if es != [] {
      AbsorbedLoad(t, es[..|es| - 1]);
      AbsorbedIsIdentity(t, es[|es| - 1]);
    }
  }

  /** Loading any file a second time changes nothing. */
  lemma LoadTwice(t: Table, es: seq<FileEntry>)
    ensures Load(Load(t, es), es) == Load(t, es)
  {
    hide Absorbed, Load;
    AllAbsorbed(t, es);
    AbsorbedLoad(Load(t, es), es);
  }

  // ---------------------------------------------------------------- snapshots

  function Keys(t: Table): set<Key> {
    t.used.Keys + t.highest.Keys
  }

  function EntryFor(t: Table, k: Key): FileEntry {
    FileEntry(k, High(t, k), set n | n in Tracked(t, k) :: Format(n))
  }

  /** One entry for each key of either map, in any order. */
  ghost predicate IsSnapshot(t: Table, es: seq<FileEntry>) {
    && (forall e | e in es :: e.key in Keys(t) && e == EntryFor(t, e.key))
    && (forall k | k in Keys(t) :: exists e :: e in es && e.key == k)
    && (forall i, j | 0 <= i < j < |es| :: es[i].key != es[j].key)
  }

  lemma EntryForNames(t: Table, k: Key)
    ensures Named(EntryFor(t, k)) == Tracked(t, k)
  {
    hide Parse, Format;
    forall n | n in Tracked(t, k)
      ensures n in Named(EntryFor(t, k))
    {
      FormatParses(n);
      assert Format(n) in EntryFor(t, k).nonces;
    }
    forall n | n in Named(EntryFor(t, k))
      ensures n in Tracked(t, k)
    {
      var s :| s in EntryFor(t, k).nonces && Parse(s) == Some(n);
      var m :| m in Tracked(t, k) && Format(m) == s;
      FormatParses(m);
    }
  }

  /** A snapshot of s loaded into t blocks exactly what s blocks and what t blocks. */
  lemma SnapshotMerges(s: Table, es: seq<FileEntry>, t: Table, k: Key, n: Nonce)
    requires IsSnapshot(s, es)
    ensures Blocked(Load(t, es), k, n) <==> Blocked(s, k, n) || Blocked(t, k, n)
  {
    hide Load, EntryFor, NamedBy;
    LoadBlocks(t, es, k, n);
    EntryForNames(s, k);
    EntryForHigh(s, k);
    if Blocked(s, k, n) && k in Keys(s) {
      var e :| e in es && e.key == k;
      assert EntryBlocks(e, k, n);
    }
  }

  lemma EntryForHigh(t: Table, k: Key)
    ensures EntryFor(t, k).highest == High(t, k)
  {
  }
}
