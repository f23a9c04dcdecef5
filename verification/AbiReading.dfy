/**
 What decoding arbitrary bytes means: which value stands at a position of a buffer, with heads and
 offsets followed wherever they lead, non-zero padding ignored and nothing asked about who wrote it.
 The decoder returns that value exactly when there is one and its price is within the budget.
 */
module AbiReading {
  import opened Results
  import opened ByteStrings
  import opened AbiType
  import opened AbiCodec
  import opened AbiRoundTrip
  import opened AbiSafety

  // ---------------------------------------------------------------- what stands where

  predicate HasWord(data: seq<byte>, off: nat) {
    off + 32 <= |data|
  }

  function WordAt(data: seq<byte>, off: nat): nat
    requires HasWord(data, off)
  {
    ToNat(data[off..off + 32])
  }

  predicate BytesStand(bytes: seq<byte>, data: seq<byte>, off: nat) {
    && HasWord(data, off) && WordAt(data, off) == |bytes| && |bytes| < 0x8000_0000
    && off + 32 + |bytes| <= |data| && data[off + 32..off + 32 + |bytes|] == bytes
  }

  ghost predicate Stands(t: Type, v: Value, data: seq<byte>, off: nat)
    decreases Depth(t), 0
  {
    match t
    case UintTy(_) => v.Number? && HasWord(data, off) && v.n == WordAt(data, off)
    case IntTy(_) =>
      && v.Number? && HasWord(data, off) && 0 <= 2 * v.n + Pow256(32) < 2 * Pow256(32)
      && (WordAt(data, off) == v.n || WordAt(data, off) == Pow256(32) + v.n)
    case BoolTy => v.Boolean? && HasWord(data, off) && (v.b <==> data[off + 31] != 0)
    case AddressTy => v.Account? && HasWord(data, off) && v.bytes == data[off + 12..off + 32]
    case BytesTy => v.Blob? && BytesStand(v.bytes, data, off)
    case StringTy => v.Text? && BytesStand(v.bytes, data, off)
    case FixedBytesTy(size) => v.Blob? && HasWord(data, off) && size <= 32 && v.bytes == data[off..off + size]
    case SliceTy(e) =>
      && v.List? && HasWord(data, off) && WordAt(data, off) == |v.items| && |v.items| < 0x8000_0000
      && off + 32 + 32 * |v.items| <= |data|
      && PartsStand(Repeat(e, |v.items|), v.items, data, off + 32, off + 32)
    case ArrayTy(e, n) =>
      && v.List? && |v.items| == n && off + 32 * n <= |data|
      && PartsStand(Repeat(e, n), v.items, data, off, off)
    case TupleTy(ts) => v.List? && |v.items| == |ts| && PartsStand(ts, v.items, data, off, off)
    case FunctionTy => false
  }

  /** Components with their heads from pos on; a dynamic one stands at the offset its head gives, counted from base. */
  ghost predicate PartsStand(ts: seq<Type>, vs: seq<Value>, data: seq<byte>, pos: nat, base: nat)
    requires |ts| == |vs|
    decreases MaxDepth(ts), |ts| + 1
  {
    if ts == [] then true
    else if IsDynamic(ts[0]) then
      && HasWord(data, pos) && OffsetAllowed(data, WordAt(data, pos))
      && Stands(ts[0], vs[0], data, base + WordAt(data, pos)) && PartsStand(ts[1..], vs[1..], data, pos + 32, base)
    else
      Stands(ts[0], vs[0], data, pos) && PartsStand(ts[1..], vs[1..], data, pos + GetSize(ts[0]), base)
  }

  predicate OffsetAllowed(data: seq<byte>, o: nat) {
    o <= |data| && o < 0x8000_0000_0000_0000
  }

  // ---------------------------------------------------------------- what is read stands there

  lemma SignedWord(w: seq<byte>)
    requires |w| == 32
    ensures var n := NumberOf(w, true);
            0 <= 2 * n + Pow256(32) < 2 * Pow256(32) && (ToNat(w) == n || ToNat(w) == Pow256(32) + n)
  {
    hide ToNat, Pow256;
    WordRange(w);
  }

  lemma BasicStands(t: Type, data: seq<byte>, off: nat, ds: Charge)
    requires WellFormed(t) && Unpack(t, data, off, ds).Ok? && !t.SliceTy? && !t.ArrayTy? && !t.TupleTy?
    ensures Stands(t, Unpack(t, data, off, ds).value.value, data, off)
  {
    hide ToNat, Pow256, PaddedLength;
    if t.IntTy? {
      SignedWord(data[off..off + 32]);
    }
  }

  lemma WordsFit(n: nat, room: nat)
    ensures n <= room / 32 <==> 32 * n <= room
  {
  }

  lemma SliceStands(e: Type, data: seq<byte>, off: nat, ds: Charge, n: nat)
    requires ds.WithinBudget() && Unpack(SliceTy(e), data, off, ds).Ok? && ReadLength(data, off) == Ok(n)
    ensures var ds2 := ds.Plus(Charge(n * 16, 1)); var r := UnpackSeq(Repeat(e, n), data, off + WORD, ds2, true);
            && ds2.WithinBudget() && r.Ok?
            && (|r.value.items| == n && PartsStand(Repeat(e, n), r.value.items, data, off + WORD, off + WORD)
                ==> Stands(SliceTy(e), Unpack(SliceTy(e), data, off, ds).value.value, data, off))
  {
    hide UnpackSeq, PartsStand, ToNat, Repeat;
    WordsFit(n, |data| - (off + WORD));
  }

  lemma ArrayStands(e: Type, n: nat, data: seq<byte>, off: nat, ds: Charge)
    requires ds.WithinBudget() && Unpack(ArrayTy(e, n), data, off, ds).Ok?
    ensures var ds2 := ds.Plus(Charge(n * 16, 1)); var r := UnpackSeq(Repeat(e, n), data, off, ds2, true);
            && ds2.WithinBudget() && r.Ok?
            && (|r.value.items| == n && PartsStand(Repeat(e, n), r.value.items, data, off, off)
                ==> Stands(ArrayTy(e, n), Unpack(ArrayTy(e, n), data, off, ds).value.value, data, off))
  {
    hide UnpackSeq, PartsStand, Repeat;
    assert off <= |data|;
    WordsFit(n, |data| - off);
  }

  lemma TupleStands(ts: seq<Type>, data: seq<byte>, off: nat, ds: Charge)
    requires ds.WithinBudget() && Unpack(TupleTy(ts), data, off, ds).Ok?
    ensures var ds2 := ds.Plus(Charge(|ts| * 16, 1)); var r := UnpackSeq(ts, data, off, ds2, false);
            && ds2.WithinBudget() && r.Ok?
            && (|r.value.items| == |ts| && PartsStand(ts, r.value.items, data, off, off)
                ==> Stands(TupleTy(ts), Unpack(TupleTy(ts), data, off, ds).value.value, data, off))
  {
    hide UnpackSeq, PartsStand;
  }

  /** A successful decode returns what stands at the offset. */
  lemma {:induction false} ReadStands(t: Type, data: seq<byte>, off: nat, ds: Charge)
    requires WellFormed(t) && ds.WithinBudget() && Unpack(t, data, off, ds).Ok?
    ensures Stands(t, Unpack(t, data, off, ds).value.value, data, off)
    decreases Depth(t), 0
  {
    hide Unpack, Stands, UnpackSeq, PartsStand, AllWellFormed, Repeat;
    match t
    case SliceTy(e) =>
      LengthIsRead(e, data, off, ds);
      var n := ReadLength(data, off).value;
      var ds2 := ds.Plus(Charge(n * 16, 1));
      RepeatFacts(e, n);
      SliceStands(e, data, off, ds, n);
      SeqStands(Repeat(e, n), data, off + WORD, ds2, true);
    case ArrayTy(e, n) =>
      var ds2 := ds.Plus(Charge(n * 16, 1));
      RepeatFacts(e, n);
      ArrayStands(e, n, data, off, ds);
      SeqStands(Repeat(e, n), data, off, ds2, true);
    case TupleTy(ts) =>
      var ds2 := ds.Plus(Charge(|ts| * 16, 1));
      TupleStands(ts, data, off, ds);
      SeqStands(ts, data, off, ds2, false);
    case _ => BasicStands(t, data, off, ds);
  }

  lemma LengthIsRead(e: Type, data: seq<byte>, off: nat, ds: Charge)
    requires Unpack(SliceTy(e), data, off, ds).Ok?
    ensures ReadLength(data, off).Ok?
  {
    hide UnpackElements, ReadLength;
  }

  lemma {:induction false} SeqStands(ts: seq<Type>, data: seq<byte>, base: nat, ds: Charge, counted: bool)
    requires AllWellFormed(ts) && ds.WithinBudget() && UnpackSeq(ts, data, base, ds, counted).Ok?
    ensures var r := UnpackSeq(ts, data, base, ds, counted).value;
            |r.items| == |ts| && PartsStand(ts, r.items, data, base, base)
    decreases MaxDepth(ts), |ts| + 2
  {
    hide HeadsPrice, TailsPrice, UnpackHeads, UnpackTails, HeadSize, AllWellFormed, HasShape, Stands, PartsStand;
    var heads := UnpackHeads(ts, data, base, ds, counted).value;
    var tails := UnpackTails(ts, heads.slots, data, base, heads.ds).value;
    UnpackHeadsSound(ts, data, base, ds, counted, heads);
    TailsStand(ts, heads.slots, data, base, heads.ds);
    HeadsStand(ts, data, base, base, ds, counted, heads, tails.items);
  }

  /** The values complete the slots: static ones as read, pending ones standing at their offsets. */
  ghost predicate Completes(ts: seq<Type>, slots: seq<Slot>, vs: seq<Value>, data: seq<byte>, base: nat)
    requires |ts| == |slots| == |vs|
  {
    forall i | 0 <= i < |ts| ::
      if slots[i].Filled? then vs[i] == slots[i].value else Stands(ts[i], vs[i], data, base + slots[i].offset)
  }

  lemma {:induction false} TailsStand(ts: seq<Type>, slots: seq<Slot>, data: seq<byte>, base: nat, ds: Charge)
    requires AllWellFormed(ts) && ds.WithinBudget() && Shaped(ts, slots)
    requires UnpackTails(ts, slots, data, base, ds).Ok?
    ensures Completes(ts, slots, UnpackTails(ts, slots, data, base, ds).value.items, data, base)
    decreases MaxDepth(ts), |ts| + 1
  {
    hide Unpack, GetSize, WellFormed, HasShape, Price, Stands;
    if ts != [] {
      var r := UnpackTails(ts, slots, data, base, ds).value;
      assert Shaped(ts[1..], slots[1..]);
      if slots[0].Filled? {
        TailsStand(ts[1..], slots[1..], data, base, ds);
        assert r.items[1..] == UnpackTails(ts[1..], slots[1..], data, base, ds).value.items;
      } else {
        var d := Unpack(ts[0], data, base + slots[0].offset, ds).value;
        UnpackSound(ts[0], data, base + slots[0].offset, ds);
        ReadStands(ts[0], data, base + slots[0].offset, ds);
        TailsStand(ts[1..], slots[1..], data, base, d.ds);
        assert r.items[1..] == UnpackTails(ts[1..], slots[1..], data, base, d.ds).value.items;
      }
      CompletesCons(ts, slots, r.items, data, base);
    }
  }

  lemma CompletesCons(ts: seq<Type>, slots: seq<Slot>, vs: seq<Value>, data: seq<byte>, base: nat)
    requires |ts| == |slots| == |vs| && ts != []
    ensures Completes(ts, slots, vs, data, base)
       <==> (if slots[0].Filled? then vs[0] == slots[0].value
             else Stands(ts[0], vs[0], data, base + slots[0].offset))
            && Completes(ts[1..], slots[1..], vs[1..], data, base)
  {
    hide Stands;
    var ts', slots', vs' := ts[1..], slots[1..], vs[1..];
    if Completes(ts', slots', vs', data, base) {
      forall i | 1 <= i < |ts|
        ensures if slots[i].Filled? then vs[i] == slots[i].value
                else Stands(ts[i], vs[i], data, base + slots[i].offset)
      {
        assert ts'[i - 1] == ts[i] && slots'[i - 1] == slots[i] && vs'[i - 1] == vs[i];
      }
    }
  }

  lemma {:induction false} HeadsStand(ts: seq<Type>, data: seq<byte>, pos: nat, base: nat, ds: Charge, counted: bool,
      h: Heads, vs: seq<Value>)
    requires AllWellFormed(ts) && ds.WithinBudget() && UnpackHeads(ts, data, pos, ds, counted) == Ok(h)
    requires |vs| == |ts| && Completes(ts, h.slots, vs, data, base)
    ensures PartsStand(ts, vs, data, pos, base)
    decreases MaxDepth(ts), |ts| + 1
  {
    hide Unpack, GetSize, WellFormed, HasShape, Price, UnpackHeads, IsDynamic, Stands, Completes, ToNat;
    HeadsStep(ts, data, pos, ds, counted, h);
    if ts != [] {
      var rest := Heads(h.slots[1..], h.end, h.ds);
      CompletesCons(ts, h.slots, vs, data, base);
      if IsDynamic(ts[0]) {
        HeadsStand(ts[1..], data, pos + 32, base, ds, counted, rest, vs[1..]);
      } else {
        var ds1 := ds.Plus(Charge(0, if counted then 1 else 0));
        var d := Unpack(ts[0], data, pos, ds1).value;
        UnpackSound(ts[0], data, pos, ds1);
        ReadStands(ts[0], data, pos, ds1);
        HeadsStand(ts[1..], data, pos + d.consumed, base, d.ds, counted, rest, vs[1..]);
      }
    }
  }

  // ---------------------------------------------------------------- what stands there is read

  /** The decode gives v and charges its price. */
  ghost predicate Gives(t: Type, v: Value, data: seq<byte>, off: nat, ds: Charge) {
    var r := Unpack(t, data, off, ds);
    && r.Ok? && r.value.value == v && r.value.ds == ds.Plus(Price(t, v))
    && (!IsDynamic(t) ==> r.value.consumed == GetSize(t))
  }

  lemma BasicIsRead(t: Type, v: Value, data: seq<byte>, off: nat, ds: Charge)
    requires WellFormed(t) && Stands(t, v, data, off) && ds.Plus(Price(t, v)).WithinBudget()
    requires !t.SliceTy? && !t.ArrayTy? && !t.TupleTy?
    ensures Gives(t, v, data, off, ds)
  {
    hide ToNat, Pow256, PaddedLength;
    if t.IntTy? {
      SignedWord(data[off..off + 32]);
      ToNatBound(data[off..off + 32]);
    } else if t.FixedBytesTy? {
      assert data[off..off + 32][..t.size] == data[off..off + t.size];
    } else if t.AddressTy? {
      assert data[off..off + 32][12..] == data[off + 12..off + 32];
    }
  }

  lemma ElementsAreRead(e: Type, vs: seq<Value>, data: seq<byte>, base: nat, ds: Charge)
    requires var ts := Repeat(e, |vs|); var ds2 := ds.Plus(Charge(|vs| * 16, 1));
             UnpackSeq(ts, data, base, ds2, true)
             == Ok(Items(vs, base + HeadSize(ts), ds2.Plus(HeadsPrice(ts, vs, true)).Plus(TailsPrice(ts, vs))))
    requires ds.Plus(ElementsPrice(e, vs)).WithinBudget()
    ensures UnpackElements(e, |vs|, data, base, ds)
         == Ok(Items(vs, base + HeadSize(Repeat(e, |vs|)), ds.Plus(ElementsPrice(e, vs))))
  {
    hide UnpackSeq, HeadsPrice, TailsPrice, HeadSize, Repeat;
  }

  lemma SliceIsRead(e: Type, v: Value, data: seq<byte>, off: nat, ds: Charge)
    requires Stands(SliceTy(e), v, data, off)
    requires UnpackElements(e, |v.items|, data, off + WORD, ds)
          == Ok(Items(v.items, off + WORD + HeadSize(Repeat(e, |v.items|)), ds.Plus(ElementsPrice(e, v.items))))
    ensures Gives(SliceTy(e), v, data, off, ds)
  {
    hide UnpackElements, PartsStand, ElementsPrice, HeadSize, ToNat, Repeat;
    WordsFit(|v.items|, |data| - (off + WORD));
  }

  lemma ArrayIsRead(e: Type, n: nat, v: Value, data: seq<byte>, off: nat, ds: Charge)
    requires Stands(ArrayTy(e, n), v, data, off)
    requires UnpackElements(e, n, data, off, ds)
          == Ok(Items(v.items, off + HeadSize(Repeat(e, n)), ds.Plus(ElementsPrice(e, v.items))))
    ensures Gives(ArrayTy(e, n), v, data, off, ds)
  {
    hide UnpackElements, PartsStand, ElementsPrice, HeadSize, Repeat;
    WordsFit(n, |data| - off);
    RepeatFacts(e, n);
  }

  lemma TupleIsRead(ts: seq<Type>, v: Value, data: seq<byte>, off: nat, ds: Charge)
    requires Stands(TupleTy(ts), v, data, off) && ds.Plus(Price(TupleTy(ts), v)).WithinBudget()
    requires var ds2 := ds.Plus(Charge(|ts| * 16, 1)); var vs := v.items;
             UnpackSeq(ts, data, off, ds2, false)
             == Ok(Items(vs, off + HeadSize(ts), ds2.Plus(HeadsPrice(ts, vs, false)).Plus(TailsPrice(ts, vs))))
    ensures Gives(TupleTy(ts), v, data, off, ds)
  {
    hide UnpackSeq, PartsStand, HeadsPrice, TailsPrice, HeadSize;
  }

  /** Whatever stands at the offset is returned, if its price is within the budget. */
  lemma {:induction false} StandingIsRead(t: Type, v: Value, data: seq<byte>, off: nat, ds: Charge)
    requires WellFormed(t) && Stands(t, v, data, off) && ds.Plus(Price(t, v)).WithinBudget()
    ensures Gives(t, v, data, off, ds)
    decreases Depth(t), 0
  {
    hide ToNat, Pow256, Unpack, UnpackElements, UnpackSeq, PartsStand, AllWellFormed, HeadsPrice, TailsPrice, HeadSize,
      Gives, Repeat;
    match t
    case SliceTy(e) =>
      var n := |v.items|;
      RepeatFacts(e, n);
      SeqIsRead(Repeat(e, n), v.items, data, off + WORD, ds.Plus(Charge(n * 16, 1)), true);
      ElementsAreRead(e, v.items, data, off + WORD, ds);
      SliceIsRead(e, v, data, off, ds);
    case ArrayTy(e, n) =>
      RepeatFacts(e, n);
      SeqIsRead(Repeat(e, n), v.items, data, off, ds.Plus(Charge(n * 16, 1)), true);
      ElementsAreRead(e, v.items, data, off, ds);
      ArrayIsRead(e, n, v, data, off, ds);
    case TupleTy(ts) =>
      SeqIsRead(ts, v.items, data, off, ds.Plus(Charge(|ts| * 16, 1)), false);
      TupleIsRead(ts, v, data, off, ds);
    case _ => BasicIsRead(t, v, data, off, ds);
  }

  lemma {:induction false} SeqIsRead(ts: seq<Type>, vs: seq<Value>, data: seq<byte>, base: nat, ds: Charge,
      counted: bool)
    requires |ts| == |vs| && AllWellFormed(ts) && PartsStand(ts, vs, data, base, base)
    requires ds.Plus(HeadsPrice(ts, vs, counted)).Plus(TailsPrice(ts, vs)).WithinBudget()
    ensures UnpackSeq(ts, data, base, ds, counted)
         == Ok(Items(vs, base + HeadSize(ts), ds.Plus(HeadsPrice(ts, vs, counted)).Plus(TailsPrice(ts, vs))))
    decreases MaxDepth(ts), |ts| + 2
  {
    hide HeadsPrice, TailsPrice, UnpackHeads, UnpackTails, HeadSize, AllWellFormed, PartsStand, SlotsAt;
    var slots := SlotsAt(ts, vs, data, base);
    HeadsAreRead(ts, vs, data, base, base, ds, counted);
    TailsAreRead(ts, vs, data, base, base, ds.Plus(HeadsPrice(ts, vs, counted)));
  }

  /** What the first pass leaves. */
  ghost function SlotsAt(ts: seq<Type>, vs: seq<Value>, data: seq<byte>, pos: nat): (r: seq<Slot>)
    requires |ts| == |vs|
    ensures |r| == |ts|
  {
    if ts == [] then []
    else if IsDynamic(ts[0]) then
      [Pending(if HasWord(data, pos) then WordAt(data, pos) else 0)] + SlotsAt(ts[1..], vs[1..], data, pos + 32)
    else [Filled(vs[0])] + SlotsAt(ts[1..], vs[1..], data, pos + GetSize(ts[0]))
  }

  /** The first pass of these components gives their slots and charges their static ones. */
  ghost predicate HeadsGive(ts: seq<Type>, vs: seq<Value>, data: seq<byte>, pos: nat, ds: Charge, counted: bool)
    requires |ts| == |vs|
  {
    UnpackHeads(ts, data, pos, ds, counted)
    == Ok(Heads(SlotsAt(ts, vs, data, pos), pos + HeadSize(ts), ds.Plus(HeadsPrice(ts, vs, counted))))
  }

  lemma DynamicHeadGives(ts: seq<Type>, vs: seq<Value>, data: seq<byte>, pos: nat, ds: Charge, counted: bool)
    requires |ts| == |vs| && ts != [] && IsDynamic(ts[0])
    requires HasWord(data, pos) && OffsetAllowed(data, WordAt(data, pos))
    requires HeadsGive(ts[1..], vs[1..], data, pos + 32, ds, counted)
    ensures HeadsGive(ts, vs, data, pos, ds, counted)
  {
    hide Unpack, GetSize, Price, IsDynamic, ToNat, MaxDepth, Depth;
  }

  lemma StaticHeadGives(ts: seq<Type>, vs: seq<Value>, data: seq<byte>, pos: nat, ds: Charge, ds1: Charge,
      counted: bool)
    requires |ts| == |vs| && ts != [] && !IsDynamic(ts[0])
    requires ds1 == ds.Plus(Charge(0, if counted then 1 else 0)) && ds1.WithinBudget()
    requires Gives(ts[0], vs[0], data, pos, ds1)
    requires HeadsGive(ts[1..], vs[1..], data, pos + GetSize(ts[0]), ds1.Plus(Price(ts[0], vs[0])), counted)
    ensures HeadsGive(ts, vs, data, pos, ds, counted)
  {
    hide Unpack, GetSize, Price, IsDynamic, ToNat, MaxDepth, Depth;
  }

  lemma {:induction false} HeadsAreRead(ts: seq<Type>, vs: seq<Value>, data: seq<byte>, pos: nat, base: nat, ds: Charge,
      counted: bool)
    requires |ts| == |vs| && AllWellFormed(ts) && PartsStand(ts, vs, data, pos, base)
    requires ds.Plus(HeadsPrice(ts, vs, counted)).WithinBudget()
    ensures HeadsGive(ts, vs, data, pos, ds, counted)
    decreases MaxDepth(ts), |ts| + 1
  {
    hide Unpack, GetSize, WellFormed, Price, IsDynamic, Stands, ToNat, Gives, HeadsGive;
    if ts == [] {
      NoHeadsGive(ts, vs, data, pos, ds, counted);
    } else if IsDynamic(ts[0]) {
      HeadsAreRead(ts[1..], vs[1..], data, pos + 32, base, ds, counted);
      DynamicHeadGives(ts, vs, data, pos, ds, counted);
    } else {
      var ds1 := ds.Plus(Charge(0, if counted then 1 else 0));
      StandingIsRead(ts[0], vs[0], data, pos, ds1);
      HeadsAreRead(ts[1..], vs[1..], data, pos + GetSize(ts[0]), base, ds1.Plus(Price(ts[0], vs[0])), counted);
      StaticHeadGives(ts, vs, data, pos, ds, ds1, counted);
    }
  }

  lemma NoHeadsGive(ts: seq<Type>, vs: seq<Value>, data: seq<byte>, pos: nat, ds: Charge, counted: bool)
    requires ts == [] && vs == []
    ensures HeadsGive(ts, vs, data, pos, ds, counted)
  {
  }

  lemma {:induction false} TailsAreRead(ts: seq<Type>, vs: seq<Value>, data: seq<byte>, pos: nat, base: nat, ds: Charge)
    requires |ts| == |vs| && AllWellFormed(ts) && PartsStand(ts, vs, data, pos, base)
    requires ds.Plus(TailsPrice(ts, vs)).WithinBudget()
    ensures UnpackTails(ts, SlotsAt(ts, vs, data, pos), data, base, ds) == Ok(Tails(vs, ds.Plus(TailsPrice(ts, vs))))
    decreases MaxDepth(ts), |ts| + 1
  {
    hide Unpack, GetSize, WellFormed, Price, IsDynamic, Stands, ToNat;
    if ts != [] {
      var slots := SlotsAt(ts, vs, data, pos);
      if IsDynamic(ts[0]) {
        assert slots[1..] == SlotsAt(ts[1..], vs[1..], data, pos + 32);
        StandingIsRead(ts[0], vs[0], data, base + WordAt(data, pos), ds);
        TailsAreRead(ts[1..], vs[1..], data, pos + 32, base, ds.Plus(Price(ts[0], vs[0])));
      } else {
        assert slots[1..] == SlotsAt(ts[1..], vs[1..], data, pos + GetSize(ts[0]));
        TailsAreRead(ts[1..], vs[1..], data, pos + GetSize(ts[0]), base, ds);
      }
      assert vs == [vs[0]] + vs[1..];
    }
  }

  // ---------------------------------------------------------------- theorems

  /** Decoding any bytes gives v exactly when v stands there and its price is within what is left of the budget. */
  lemma ReadsIff(t: Type, v: Value, data: seq<byte>, off: nat, ds: Charge)
    requires WellFormed(t) && ds.WithinBudget()
    ensures var r := Unpack(t, data, off, ds);
            r.Ok? && r.value.value == v <==> Stands(t, v, data, off) && ds.Plus(Price(t, v)).WithinBudget()
  {
    hide Unpack, Stands, Price, WellFormed;
    if Unpack(t, data, off, ds).Ok? {
      UnpackSound(t, data, off, ds);
      ReadStands(t, data, off, ds);
    }
    if Stands(t, v, data, off) && ds.Plus(Price(t, v)).WithinBudget() {
      StandingIsRead(t, v, data, off, ds);
    }
  }

  /** The same for a whole call; empty data holds no arguments. */
  lemma ArgumentsReadIff(ts: seq<Type>, vs: seq<Value>, data: seq<byte>)
    requires AllWellFormed(ts)
    ensures var r := UnpackArguments(ts, data);
            r.Ok? && r.value.items == vs
            <==> |vs| == |ts| && (data == [] ==> ts == []) && PartsStand(ts, vs, data, 0, 0)
                 && ArgumentsPrice(ts, vs).WithinBudget()
  {
    hide UnpackSeq, PartsStand, HeadsPrice, TailsPrice, HeadSize, AllWellFormed;
    var none := Charge(0, 0);
    if data == [] {
      if ts == [] && vs == [] {
        NoArguments(ts, vs);
        NothingStands(vs, data);
      }
    } else {
      if UnpackArguments(ts, data).Ok? {
        UnpackSeqSound(ts, data, 0, none, false);
        SeqStands(ts, data, 0, none, false);
      }
      if |vs| == |ts| && PartsStand(ts, vs, data, 0, 0) && ArgumentsPrice(ts, vs).WithinBudget() {
        SeqIsRead(ts, vs, data, 0, none, false);
      }
    }
  }

  lemma NothingStands(vs: seq<Value>, data: seq<byte>)
    requires vs == []
    ensures PartsStand([], vs, data, 0, 0)
  {
  }
}
