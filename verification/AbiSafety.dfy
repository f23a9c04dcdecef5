/**
 The decoder on arbitrary bytes: hostile or overlapping offsets, truncated data, any type.
 Termination and in-range reads are Dafny's own obligations on Unpack; what is proved here is that a
 successful decode returns a value of the right shape and was charged exactly that value's price.
 */
module AbiSafety {
  import opened Results
  import opened ByteStrings
  import opened AbiType
  import opened AbiCodec
  import opened AbiRoundTrip

  /** v is what a decoder for t may hand back. */
  ghost predicate HasShape(t: Type, v: Value)
    decreases Depth(t), 0
  {
    match t
    case UintTy(_) => v.Number? && 0 <= v.n < Pow256(WORD)
    case IntTy(_) => v.Number? && 0 <= 2 * v.n + Pow256(WORD) < 2 * Pow256(WORD)
    case BoolTy => v.Boolean?
    case AddressTy => v.Account? && |v.bytes| == 20
    case BytesTy => v.Blob?
    case StringTy => v.Text?
    case FixedBytesTy(size) => v.Blob? && |v.bytes| == size
    case SliceTy(e) => v.List? && AllHaveShape(Repeat(e, |v.items|), v.items)
    case ArrayTy(e, n) => v.List? && |v.items| == n && AllHaveShape(Repeat(e, n), v.items)
    case TupleTy(ts) => v.List? && |v.items| == |ts| && AllHaveShape(ts, v.items)
    case FunctionTy => false
  }

  ghost predicate AllHaveShape(ts: seq<Type>, vs: seq<Value>)
    requires |ts| == |vs|
    decreases MaxDepth(ts), |ts| + 1
  {
    ts != [] ==> HasShape(ts[0], vs[0]) && AllHaveShape(ts[1..], vs[1..])
  }

  /** A successful decode of t from charge ds to d. */
  ghost predicate Sound(t: Type, ds: Charge, d: Decoded) {
    && HasShape(t, d.value)
    && d.ds == ds.Plus(Price(t, d.value)) && d.ds.WithinBudget()
    && (!IsDynamic(t) ==> d.consumed == GetSize(t))
  }

  ghost predicate SeqSound(ts: seq<Type>, base: nat, ds: Charge, counted: bool, r: Items) {
    && |r.items| == |ts| && AllHaveShape(ts, r.items)
    && r.ds == ds.Plus(HeadsPrice(ts, r.items, counted)).Plus(TailsPrice(ts, r.items)) && r.ds.WithinBudget()
    && r.end == base + HeadSize(ts)
  }

  /** The first pass fills exactly the static components. */
  predicate Shaped(ts: seq<Type>, slots: seq<Slot>) {
    |slots| == |ts| && forall i | 0 <= i < |ts| :: slots[i].Filled? <==> !IsDynamic(ts[i])
  }

  predicate Agree(slots: seq<Slot>, vs: seq<Value>) {
    |slots| == |vs| && forall i | 0 <= i < |vs| :: slots[i].Filled? ==> vs[i] == slots[i].value
  }

  ghost predicate StaticsHaveShape(ts: seq<Type>, slots: seq<Slot>)
    requires |ts| == |slots|
  {
    forall i | 0 <= i < |ts| :: slots[i].Filled? ==> HasShape(ts[i], slots[i].value)
  }

  lemma {:induction false} AllHaveShapeIntro(ts: seq<Type>, vs: seq<Value>)
    requires |ts| == |vs| && forall i | 0 <= i < |ts| :: HasShape(ts[i], vs[i])
    ensures AllHaveShape(ts, vs)
  {
    if ts != [] {
      AllHaveShapeIntro(ts[1..], vs[1..]);
    }
  }

  lemma WordRange(w: seq<byte>)
    requires |w| == 32
    ensures HasShape(UintTy(256), Number(NumberOf(w, false)))
    ensures HasShape(IntTy(256), Number(NumberOf(w, true)))
  {
    hide ToNat, Pow256;
    ToNatBound(w);
    TopByte(w, 128);
    assert Pow256(WORD) == 256 * Pow256(WORD - 1) by { PowStep(WORD); }
  }

  lemma PowStep(k: nat)
    requires k >= 1
    ensures Pow256(k) == 256 * Pow256(k - 1)
  {
  }

  lemma {:induction false} BasicSound(t: Type, data: seq<byte>, off: nat, ds: Charge)
    requires WellFormed(t) && ds.WithinBudget() && Unpack(t, data, off, ds).Ok?
    requires !t.SliceTy? && !t.ArrayTy? && !t.TupleTy?
    ensures Sound(t, ds, Unpack(t, data, off, ds).value)
  {
    hide Pow256, ToNat;
    if t.UintTy? || t.IntTy? {
      WordRange(data[off..off + 32]);
    }
  }

  /** Whatever the bytes, a decode that succeeds was charged the price of what it returned. */
  lemma {:induction false} UnpackSound(t: Type, data: seq<byte>, off: nat, ds: Charge)
    requires WellFormed(t) && ds.WithinBudget() && Unpack(t, data, off, ds).Ok?
    ensures Sound(t, ds, Unpack(t, data, off, ds).value)
    decreases Depth(t), 0
  {
    hide Pow256, ToNat, HeadsPrice, TailsPrice, UnpackSeq, UnpackElements, ElementsPrice;
    match t
    case SliceTy(e) =>
      var n := ReadLength(data, off).value;
      ElementsSound(e, n, data, off + WORD, ds);
    case ArrayTy(e, n) =>
      ElementsSound(e, n, data, off, ds);
      RepeatFacts(e, n);
    case TupleTy(ts) =>
      UnpackSeqSound(ts, data, off, ds.Plus(Charge(|ts| * 16, 1)), false);
    case _ => BasicSound(t, data, off, ds);
  }

  lemma {:induction false} ElementsSound(e: Type, n: nat, data: seq<byte>, base: nat, ds: Charge)
    requires WellFormed(e) && ds.WithinBudget() && UnpackElements(e, n, data, base, ds).Ok?
    ensures var r := UnpackElements(e, n, data, base, ds).value;
            && |r.items| == n && AllHaveShape(Repeat(e, n), r.items)
            && r.ds == ds.Plus(ElementsPrice(e, r.items)) && r.ds.WithinBudget()
            && r.end == base + HeadSize(Repeat(e, n))
    decreases Depth(e), n + 3
  {
    hide HeadsPrice, TailsPrice, UnpackSeq, HeadSize, HasShape, AllHaveShape, WellFormed, AllWellFormed, AnyDynamic;
    RepeatFacts(e, n);
    UnpackSeqSound(Repeat(e, n), data, base, ds.Plus(Charge(n * 16, 1)), true);
  }

  lemma {:induction false} UnpackSeqSound(ts: seq<Type>, data: seq<byte>, base: nat, ds: Charge, counted: bool)
    requires AllWellFormed(ts) && ds.WithinBudget() && UnpackSeq(ts, data, base, ds, counted).Ok?
    ensures SeqSound(ts, base, ds, counted, UnpackSeq(ts, data, base, ds, counted).value)
    decreases MaxDepth(ts), |ts| + 2
  {
    hide HeadsPrice, TailsPrice, UnpackHeads, UnpackTails, HeadSize, AllWellFormed, HasShape;
    var heads := UnpackHeads(ts, data, base, ds, counted).value;
    var tails := UnpackTails(ts, heads.slots, data, base, heads.ds).value;
    UnpackHeadsSound(ts, data, base, ds, counted, heads);
    UnpackTailsSound(ts, heads.slots, data, base, heads.ds);
    HeadsCharged(ts, data, base, ds, counted, heads, tails.items);
    AllHaveShapeIntro(ts, tails.items);
  }

  /** One step of a successful first pass. */
  lemma {:induction false} HeadsStep(ts: seq<Type>, data: seq<byte>, pos: nat, ds: Charge, counted: bool, h: Heads)
    requires ds.WithinBudget() && UnpackHeads(ts, data, pos, ds, counted) == Ok(h)
    ensures |h.slots| == |ts|
    ensures ts == [] ==> h == Heads([], pos, ds)
    ensures ts != [] && IsDynamic(ts[0]) ==>
              && SafeOffset(data, pos).Ok? && h.slots[0] == Pending(SafeOffset(data, pos).value)
              && UnpackHeads(ts[1..], data, pos + 32, ds, counted) == Ok(Heads(h.slots[1..], h.end, h.ds))
    ensures ts != [] && !IsDynamic(ts[0]) ==>
              var ds1 := ds.Plus(Charge(0, if counted then 1 else 0));
              var d := Unpack(ts[0], data, pos, ds1);
              && ds1.WithinBudget() && d.Ok? && h.slots[0] == Filled(d.value.value)
              && UnpackHeads(ts[1..], data, pos + d.value.consumed, d.value.ds, counted)
                == Ok(Heads(h.slots[1..], h.end, h.ds))
  {
    hide Unpack, MaxDepth, Depth, IsDynamic, SafeOffset;
  }

  lemma {:induction false} UnpackHeadsSound(ts: seq<Type>, data: seq<byte>, pos: nat, ds: Charge, counted: bool,
      h: Heads)
    requires AllWellFormed(ts) && ds.WithinBudget() && UnpackHeads(ts, data, pos, ds, counted) == Ok(h)
    ensures Shaped(ts, h.slots) && StaticsHaveShape(ts, h.slots) && h.end == pos + HeadSize(ts) && h.ds.WithinBudget()
    decreases MaxDepth(ts), |ts| + 1
  {
    hide Unpack, GetSize, WellFormed, HasShape, Price, UnpackHeads, IsDynamic;
    HeadsStep(ts, data, pos, ds, counted, h);
    if ts != [] {
      var rest := Heads(h.slots[1..], h.end, h.ds);
      if IsDynamic(ts[0]) {
        UnpackHeadsSound(ts[1..], data, pos + 32, ds, counted, rest);
      } else {
        var ds1 := ds.Plus(Charge(0, if counted then 1 else 0));
        var d := Unpack(ts[0], data, pos, ds1).value;
        UnpackSound(ts[0], data, pos, ds1);
        UnpackHeadsSound(ts[1..], data, pos + d.consumed, d.ds, counted, rest);
      }
    }
  }

  /** The heads' charge, told in terms of any list of values that completes the slots. */
  lemma {:induction false} HeadsCharged(ts: seq<Type>, data: seq<byte>, pos: nat, ds: Charge, counted: bool, h: Heads,
      vs: seq<Value>)
    requires AllWellFormed(ts) && ds.WithinBudget() && UnpackHeads(ts, data, pos, ds, counted) == Ok(h)
    requires |vs| == |ts| && Agree(h.slots, vs)
    ensures h.ds == ds.Plus(HeadsPrice(ts, vs, counted))
    decreases MaxDepth(ts), |ts| + 1
  {
    hide Unpack, GetSize, WellFormed, HasShape, Price, UnpackHeads, IsDynamic;
    HeadsStep(ts, data, pos, ds, counted, h);
    if ts != [] {
      var rest := Heads(h.slots[1..], h.end, h.ds);
      if IsDynamic(ts[0]) {
        HeadsCharged(ts[1..], data, pos + 32, ds, counted, rest, vs[1..]);
      } else {
        var ds1 := ds.Plus(Charge(0, if counted then 1 else 0));
        var d := Unpack(ts[0], data, pos, ds1).value;
        UnpackSound(ts[0], data, pos, ds1);
        HeadsCharged(ts[1..], data, pos + d.consumed, d.ds, counted, rest, vs[1..]);
      }
    }
  }

  lemma {:induction false} UnpackTailsSound(ts: seq<Type>, slots: seq<Slot>, data: seq<byte>, base: nat, ds: Charge)
    requires AllWellFormed(ts) && ds.WithinBudget() && Shaped(ts, slots) && StaticsHaveShape(ts, slots)
    requires UnpackTails(ts, slots, data, base, ds).Ok?
    ensures var r := UnpackTails(ts, slots, data, base, ds).value;
            && Agree(slots, r.items) && r.ds == ds.Plus(TailsPrice(ts, r.items)) && r.ds.WithinBudget()
            && forall i | 0 <= i < |ts| :: HasShape(ts[i], r.items[i])
    decreases MaxDepth(ts), |ts| + 1
  {
    hide Unpack, GetSize, WellFormed, HasShape, Price;
    if ts != [] {
      var r := UnpackTails(ts, slots, data, base, ds).value;
      assert Shaped(ts[1..], slots[1..]) && StaticsHaveShape(ts[1..], slots[1..]);
      if slots[0].Filled? {
        UnpackTailsSound(ts[1..], slots[1..], data, base, ds);
        assert r.items[1..] == UnpackTails(ts[1..], slots[1..], data, base, ds).value.items;
      } else {
        var d := Unpack(ts[0], data, base + slots[0].offset, ds).value;
        UnpackSound(ts[0], data, base + slots[0].offset, ds);
        UnpackTailsSound(ts[1..], slots[1..], data, base, d.ds);
        assert r.items[1..] == UnpackTails(ts[1..], slots[1..], data, base, d.ds).value.items;
      }
    }
  }

  /** The whole call: at most 32 MiB and 2^20 elements, and exactly the price of the arguments returned. */
  lemma UnpackArgumentsSound(ts: seq<Type>, data: seq<byte>)
    requires AllWellFormed(ts) && UnpackArguments(ts, data).Ok?
    ensures var r := UnpackArguments(ts, data).value;
            && |r.items| == |ts| && AllHaveShape(ts, r.items)
            && r.ds == ArgumentsPrice(ts, r.items)
            && r.ds.memory <= 32 * 1024 * 1024 && r.ds.elements <= 0x10_0000
  {
    hide HeadsPrice, TailsPrice, HeadSize;
    if data == [] {
      NoArguments(ts, []);
    } else {
      UnpackSeqSound(ts, data, 0, Charge(0, 0), false);
    }
  }
}
