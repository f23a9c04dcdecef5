/**
 Decoding undoes encoding.

 For every value the encoder accepts, DecodeAt says what the decoder does with the encoding placed
 anywhere in a larger buffer: it succeeds exactly when the value's price fits the remaining decode
 budget and every list passes the "32 bytes per element" check (HasRoom), and then yields Canon(v).
 Canon(v) is v itself exactly when v is canonical.
 */
module AbiRoundTrip {
  import opened Results
  import opened ByteStrings
  import opened Hex
  import opened AbiType
  import opened AbiCodec
  import opened AbiNumbers

  // ---------------------------------------------------------------- what decoding yields

  /** The decoder's rendering of an accepted value. */
  function Canon(t: Type, v: Value): Value
    decreases Depth(t), 0
  {
    match t
    case UintTy(size) => if v.Number? then Number(Reread(v.n, size, false)) else v
    case IntTy(size) => if v.Number? then Number(Reread(v.n, size, true)) else v
    case AddressTy =>
      if v.Blob? then Account(v.bytes)
      else if v.Text? && HexDecode(TrimHex(v.bytes)).Some? then Account(HexDecode(TrimHex(v.bytes)).value)
      else v
    case BytesTy => if v.Text? then Blob(v.bytes) else v
    case FixedBytesTy(size) =>
      if v.Blob? && |v.bytes| <= size then Blob(v.bytes + Fill(0, size - |v.bytes|))
      else if v.Array32? && size <= |v.bytes| then Blob(v.bytes[..size])
      else v
    case SliceTy(e) => if v.List? then List(CanonSeq(Repeat(e, |v.items|), v.items)) else v
    case ArrayTy(e, n) => if v.List? && |v.items| == n then List(CanonSeq(Repeat(e, n), v.items)) else v
    case TupleTy(ts) => if v.List? && |v.items| == |ts| then List(CanonSeq(ts, v.items)) else v
    case _ => v
  }

  function CanonSeq(ts: seq<Type>, vs: seq<Value>): (r: seq<Value>)
    requires |ts| == |vs|
    ensures |r| == |vs|
    decreases MaxDepth(ts), |ts| + 1
  {
    if ts == [] then [] else [Canon(ts[0], vs[0])] + CanonSeq(ts[1..], vs[1..])
  }

  /** Values the decoder reproduces: numbers that survive, full-width fixed bytes, no cross-type packing. */
  ghost predicate Canonical(t: Type, v: Value)
    decreases Depth(t), 0
  {
    match t
    case UintTy(size) => v.Number? ==> Survives(v.n, size, false)
    case IntTy(size) => v.Number? ==> Survives(v.n, size, true)
    case AddressTy => !v.Blob? && !v.Text?
    case BytesTy => !v.Text?
    case FixedBytesTy(size) => !v.Array32? && (v.Blob? ==> |v.bytes| >= size)
    case SliceTy(e) => v.List? ==> AllCanonical(Repeat(e, |v.items|), v.items)
    case ArrayTy(e, n) => v.List? && |v.items| == n ==> AllCanonical(Repeat(e, n), v.items)
    case TupleTy(ts) => v.List? && |v.items| == |ts| ==> AllCanonical(ts, v.items)
    case _ => true
  }

  ghost predicate AllCanonical(ts: seq<Type>, vs: seq<Value>)
    requires |ts| == |vs|
    decreases MaxDepth(ts), |ts| + 1
  {
    ts != [] ==> Canonical(ts[0], vs[0]) && AllCanonical(ts[1..], vs[1..])
  }

  lemma {:induction false} CanonIsIdentityIff(t: Type, v: Value)
    requires WellFormed(t) && Pack(t, v).Ok?
    ensures Canon(t, v) == v <==> Canonical(t, v)
    decreases Depth(t), 0
  {
    match t
    case UintTy(size) => RereadIsIdentityIff(v.n, size, false);
    case IntTy(size) => RereadIsIdentityIff(v.n, size, true);
    case FixedBytesTy(size) => assert |v.bytes| == size ==> v.bytes + Fill(0, 0) == v.bytes;
    case SliceTy(e) =>
      RepeatFacts(e, |v.items|);
      CanonSeqIsIdentityIff(Repeat(e, |v.items|), v.items, 32 * |v.items|, 0);
    case ArrayTy(e, n) =>
      RepeatFacts(e, n);
      CanonSeqIsIdentityIff(Repeat(e, n), v.items, 32 * n, 0);
    case TupleTy(ts) => CanonSeqIsIdentityIff(ts, v.items, HeadSize(ts), 0);
    case _ =>
  }

  lemma {:induction false} CanonSeqIsIdentityIff(ts: seq<Type>, vs: seq<Value>, hs: nat, tl: nat)
    requires |ts| == |vs| && AllWellFormed(ts) && PackSeq(ts, vs, hs, tl).Ok?
    ensures CanonSeq(ts, vs) == vs <==> AllCanonical(ts, vs)
    decreases MaxDepth(ts), |ts| + 1
  {
    if ts != [] {
      CanonIsIdentityIff(ts[0], vs[0]);
      var tl' := if IsDynamic(ts[0]) then tl + |Pack(ts[0], vs[0]).value| else tl;
      CanonSeqIsIdentityIff(ts[1..], vs[1..], hs, tl');
      assert vs == [vs[0]] + vs[1..];
    }
  }

  // ---------------------------------------------------------------- what decoding costs

  /** The charge for decoding a value: 16 bytes per list slot, byte contents, one element per list,
      and one more per static element of a slice or array. */
  function Price(t: Type, v: Value): Charge
    decreases Depth(t), 0
  {
    match t
    case BytesTy => if v.Blob? || v.Text? then Charge(|v.bytes|, 0) else Charge(0, 0)
    case StringTy => if v.Text? then Charge(|v.bytes|, 0) else Charge(0, 0)
    case FixedBytesTy(size) => Charge(size, 0)
    case SliceTy(e) => if v.List? then ElementsPrice(e, v.items) else Charge(0, 0)
    case ArrayTy(e, _) => if v.List? then ElementsPrice(e, v.items) else Charge(0, 0)
    case TupleTy(ts) =>
      if v.List? && |v.items| == |ts| then
        Charge(|ts| * 16, 1).Plus(HeadsPrice(ts, v.items, false)).Plus(TailsPrice(ts, v.items))
      else Charge(0, 0)
    case _ => Charge(0, 0)
  }

  function ElementsPrice(e: Type, vs: seq<Value>): Charge
    decreases Depth(e), |vs| + 2
  {
    var ts := Repeat(e, |vs|);
    Charge(|vs| * 16, 1).Plus(HeadsPrice(ts, vs, true)).Plus(TailsPrice(ts, vs))
  }

  function HeadsPrice(ts: seq<Type>, vs: seq<Value>, counted: bool): Charge
    requires |ts| == |vs|
    decreases MaxDepth(ts), |ts| + 1
  {
    if ts == [] then Charge(0, 0)
    else if IsDynamic(ts[0]) then HeadsPrice(ts[1..], vs[1..], counted)
    else Charge(0, if counted then 1 else 0).Plus(Price(ts[0], vs[0])).Plus(HeadsPrice(ts[1..], vs[1..], counted))
  }

  function TailsPrice(ts: seq<Type>, vs: seq<Value>): Charge
    requires |ts| == |vs|
    decreases MaxDepth(ts), |ts| + 1
  {
    if ts == [] then Charge(0, 0)
    else if IsDynamic(ts[0]) then Price(ts[0], vs[0]).Plus(TailsPrice(ts[1..], vs[1..]))
    else TailsPrice(ts[1..], vs[1..])
  }

  // ---------------------------------------------------------------- how long the encoding is

  function EncodedSize(t: Type, v: Value): nat
    decreases Depth(t), 0
  {
    match t
    case BytesTy => if v.Blob? || v.Text? then WORD + PaddedLength(|v.bytes|) else 0
    case StringTy => if v.Text? then WORD + PaddedLength(|v.bytes|) else 0
    case SliceTy(e) => if v.List? then WORD + SeqSize(Repeat(e, |v.items|), v.items) else 0
    case ArrayTy(e, n) => if v.List? && |v.items| == n then SeqSize(Repeat(e, n), v.items) else 0
    case TupleTy(ts) => if v.List? && |v.items| == |ts| then SeqSize(ts, v.items) else 0
    case _ => WORD
  }

  function SeqSize(ts: seq<Type>, vs: seq<Value>): nat
    requires |ts| == |vs|
    decreases MaxDepth(ts), |ts| + 2
  {
    HeadSize(ts) + TailSize(ts, vs)
  }

  function TailSize(ts: seq<Type>, vs: seq<Value>): nat
    requires |ts| == |vs|
    decreases MaxDepth(ts), |ts| + 1
  {
    if ts == [] then 0
    else (if IsDynamic(ts[0]) then EncodedSize(ts[0], vs[0]) else 0) + TailSize(ts[1..], vs[1..])
  }

  lemma {:induction false} NoTail(ts: seq<Type>, vs: seq<Value>)
    requires |ts| == |vs| && !AnyDynamic(ts)
    ensures TailSize(ts, vs) == 0
  {
    if ts != [] {
      NoTail(ts[1..], vs[1..]);
    }
  }

  lemma BasicSize(t: Type, v: Value)
    requires WellFormed(t) && Pack(t, v).Ok? && !t.SliceTy? && !t.ArrayTy? && !t.TupleTy?
    ensures |Pack(t, v).value| == EncodedSize(t, v)
    ensures !IsDynamic(t) ==> EncodedSize(t, v) == GetSize(t)
  {
    hide HexDecode, Minimal, Pow2;
    if t.AddressTy? && v.Text? {
      HexDecodeLength(TrimHex(v.bytes));
    }
  }

  lemma {:induction false} PackSize(t: Type, v: Value)
    requires WellFormed(t) && Pack(t, v).Ok?
    ensures |Pack(t, v).value| == EncodedSize(t, v)
    ensures !IsDynamic(t) ==> EncodedSize(t, v) == GetSize(t)
    decreases Depth(t), 0
  {
    hide PackSeq, HeadSize, TailSize, HexDecode, Minimal, PackNum, PackBytes;
    match t
    case SliceTy(e) =>
      RepeatFacts(e, |v.items|);
      PackSeqSize(Repeat(e, |v.items|), v.items, 32 * |v.items|, 0);
    case ArrayTy(e, n) =>
      RepeatFacts(e, n);
      PackSeqSize(Repeat(e, n), v.items, 32 * n, 0);
      if !IsDynamic(t) { NoTail(Repeat(e, n), v.items); }
    case TupleTy(ts) =>
      PackSeqSize(ts, v.items, HeadSize(ts), 0);
      if !IsDynamic(t) { NoTail(ts, v.items); }
    case _ => BasicSize(t, v);
  }

  lemma {:induction false} PackSeqSize(ts: seq<Type>, vs: seq<Value>, hs: nat, tl: nat)
    requires |ts| == |vs| && AllWellFormed(ts) && PackSeq(ts, vs, hs, tl).Ok?
    ensures |PackSeq(ts, vs, hs, tl).value.head| == HeadSize(ts)
    ensures |PackSeq(ts, vs, hs, tl).value.tail| == TailSize(ts, vs)
    decreases MaxDepth(ts), |ts| + 1
  {
    if ts != [] {
      PackSize(ts[0], vs[0]);
      var tl' := if IsDynamic(ts[0]) then tl + EncodedSize(ts[0], vs[0]) else tl;
      PackSeqSize(ts[1..], vs[1..], hs, tl');
    }
  }

  // ---------------------------------------------------------------- the length check

  /**
   unpackSlice and unpackArray refuse a list with fewer than 32 remaining bytes per element. HasRoom
   says every list in v passes, for an encoding at offset p of a buffer of `total` bytes.
   */
  predicate HasRoom(t: Type, v: Value, p: nat, total: nat)
    decreases Depth(t), 0
  {
    match t
    case SliceTy(e) => v.List? ==>
      && p + WORD <= total && |v.items| <= (total - (p + WORD)) / 32
      && SeqHasRoom(Repeat(e, |v.items|), v.items, p + WORD, total)
    case ArrayTy(e, n) => v.List? && |v.items| == n ==>
      && p <= total && n <= (total - p) / 32
      && SeqHasRoom(Repeat(e, n), v.items, p, total)
    case TupleTy(ts) => v.List? && |v.items| == |ts| ==> SeqHasRoom(ts, v.items, p, total)
    case _ => true
  }

  predicate SeqHasRoom(ts: seq<Type>, vs: seq<Value>, base: nat, total: nat)
    requires |ts| == |vs|
    decreases MaxDepth(ts), |ts| + 2
  {
    HeadsHaveRoom(ts, vs, base, total) && TailsHaveRoom(ts, vs, base + HeadSize(ts), total)
  }

  predicate HeadsHaveRoom(ts: seq<Type>, vs: seq<Value>, pos: nat, total: nat)
    requires |ts| == |vs|
    decreases MaxDepth(ts), |ts| + 1
  {
    ts != [] ==>
      if IsDynamic(ts[0]) then HeadsHaveRoom(ts[1..], vs[1..], pos + 32, total)
      else HasRoom(ts[0], vs[0], pos, total) && HeadsHaveRoom(ts[1..], vs[1..], pos + GetSize(ts[0]), total)
  }

  predicate TailsHaveRoom(ts: seq<Type>, vs: seq<Value>, pos: nat, total: nat)
    requires |ts| == |vs|
    decreases MaxDepth(ts), |ts| + 1
  {
    ts != [] ==>
      if IsDynamic(ts[0]) then
        HasRoom(ts[0], vs[0], pos, total) && TailsHaveRoom(ts[1..], vs[1..], pos + EncodedSize(ts[0], vs[0]), total)
      else TailsHaveRoom(ts[1..], vs[1..], pos, total)
  }

  // ---------------------------------------------------------------- decoding an encoding in place

  /** s occupies data from position p on. */
  predicate At(data: seq<byte>, p: nat, s: seq<byte>) {
    p + |s| <= |data| && data[p..p + |s|] == s
  }

  lemma {:induction false} AtSplit(data: seq<byte>, p: nat, a: seq<byte>, b: seq<byte>)
    requires At(data, p, a + b)
    ensures At(data, p, a) && At(data, p + |a|, b)
  {
    assert data[p..p + |a|] == data[p..p + |a + b|][..|a|] == (a + b)[..|a|] == a;
    assert data[p + |a|..p + |a| + |b|] == data[p..p + |a + b|][|a|..] == (a + b)[|a|..] == b;
  }

  /** The slots the first pass leaves, when the next tail starts `at` bytes after the base. */
  function Slots(ts: seq<Type>, vs: seq<Value>, at: nat): (r: seq<Slot>)
    requires |ts| == |vs|
    ensures |r| == |ts|
  {
    if ts == [] then []
    else if IsDynamic(ts[0]) then [Pending(at)] + Slots(ts[1..], vs[1..], at + EncodedSize(ts[0], vs[0]))
    else [Filled(Canon(ts[0], vs[0]))] + Slots(ts[1..], vs[1..], at)
  }

  lemma {:induction false} WordAt(data: seq<byte>, p: nat, n: nat)
    requires n <= MAX_INT64 && Padded(0, Minimal(n)).Ok? && At(data, p, Padded(0, Minimal(n)).value)
    ensures ReadWord(data, p).Ok? && ToNat(ReadWord(data, p).value) == n
  {
    IntReadsBack(n);
  }

  lemma {:induction false} BytesAt(bytes: seq<byte>, data: seq<byte>, p: nat, ds: Charge)
    requires PackBytes(bytes).Ok? && At(data, p, PackBytes(bytes).value)
    requires ds.WithinBudget()
    ensures var r := UnpackBytes(data, p, ds);
            if ds.Plus(Charge(|bytes|, 0)).WithinBudget() then r == Ok((bytes, ds.Plus(Charge(|bytes|, 0)))) else r.Err?
  {
    var word := LengthWord(|bytes|).value;
    var pad := Fill(0, PaddedLength(|bytes|) - |bytes|);
    AtSplit(data, p, word + bytes, pad);
    AtSplit(data, p, word, bytes);
    IntReadsBack(|bytes|);
    WordAt(data, p, |bytes|);
  }

  lemma {:induction false} FixedBytesAt(size: nat, v: Value, data: seq<byte>, p: nat)
    requires 1 <= size <= 32 && Pack(FixedBytesTy(size), v).Ok? && At(data, p, Pack(FixedBytesTy(size), v).value)
    ensures p + 32 <= |data| && Blob(data[p..p + 32][..size]) == Canon(FixedBytesTy(size), v)
  {
    if v.Array32? {
      assert data[p..p + 32] == v.bytes[..size] + Fill(0, WORD - size);
    } else {
      assert data[p..p + 32] == v.bytes + Fill(0, WORD - |v.bytes|);
      assert data[p..p + 32][..size] == v.bytes + Fill(0, size - |v.bytes|);
    }
  }

  lemma {:induction false} AddressAt(v: Value, data: seq<byte>, p: nat)
    requires Pack(AddressTy, v).Ok? && At(data, p, Pack(AddressTy, v).value)
    ensures p + 32 <= |data| && Account(data[p..p + 32][12..]) == Canon(AddressTy, v)
  {
    hide HexDecode;
    var account := Pack(AddressTy, v).value[12..];
    if v.Text? {
      HexDecodeLength(TrimHex(v.bytes));
      assert account == HexDecode(TrimHex(v.bytes)).value;
    } else {
      assert account == v.bytes;
    }
    assert data[p..p + 32][12..] == account;
  }

  lemma {:induction false} NumberAt(t: Type, v: Value, data: seq<byte>, p: nat, ds: Charge)
    requires WellFormed(t) && Pack(t, v).Ok? && At(data, p, Pack(t, v).value) && ds.WithinBudget()
    requires t.UintTy? || t.IntTy?
    ensures DecodesTo(t, v, data, p, ds)
  {
    hide PackNum, ToNat, Pow256, Reread;
    NumberReadsBack(v.n, t.size, t.IntTy?);
  }

  lemma {:induction false} BasicAt(t: Type, v: Value, data: seq<byte>, p: nat, ds: Charge)
    requires WellFormed(t) && Pack(t, v).Ok? && At(data, p, Pack(t, v).value)
    requires ds.WithinBudget()
    requires !t.SliceTy? && !t.ArrayTy? && !t.TupleTy?
    ensures DecodesTo(t, v, data, p, ds)
  {
    hide PackNum, PackBytes, UnpackBytes, HexDecode, NumberOf, Reread, ToNat, Pow256;
    match t
    case UintTy(_) => NumberAt(t, v, data, p, ds);
    case IntTy(_) => NumberAt(t, v, data, p, ds);
    case BoolTy => assert data[p..p + 32][31] == Pack(t, v).value[31];
    case AddressTy => AddressAt(v, data, p);
    case BytesTy => BytesAt(v.bytes, data, p, ds);
    case StringTy => BytesAt(v.bytes, data, p, ds);
    case FixedBytesTy(size) => FixedBytesAt(size, v, data, p);
    case _ =>
  }

  /** The decoder's behaviour on an encoding of v found at p. */
  ghost predicate DecodesTo(t: Type, v: Value, data: seq<byte>, p: nat, ds: Charge) {
    var r := Unpack(t, data, p, ds);
    if HasRoom(t, v, p, |data|) && ds.Plus(Price(t, v)).WithinBudget() then
      r.Ok? && r.value.value == Canon(t, v) && r.value.ds == ds.Plus(Price(t, v))
      && (!IsDynamic(t) ==> r.value.consumed == GetSize(t))
    else r.Err?
  }

  /** The same for a list of components whose head starts at base. */
  ghost predicate SeqDecodes(ts: seq<Type>, vs: seq<Value>, data: seq<byte>, base: nat, ds: Charge, counted: bool)
    requires |ts| == |vs|
  {
    var r := UnpackSeq(ts, data, base, ds, counted);
    var price := HeadsPrice(ts, vs, counted).Plus(TailsPrice(ts, vs));
    if SeqHasRoom(ts, vs, base, |data|) && ds.Plus(price).WithinBudget() then
      r == Ok(Items(CanonSeq(ts, vs), base + HeadSize(ts), ds.Plus(price)))
    else r.Err?
  }

  ghost predicate ElementsDecode(e: Type, vs: seq<Value>, data: seq<byte>, base: nat, ds: Charge) {
    var r := UnpackElements(e, |vs|, data, base, ds);
    var ts := Repeat(e, |vs|);
    if SeqHasRoom(ts, vs, base, |data|) && ds.Plus(ElementsPrice(e, vs)).WithinBudget() then
      r == Ok(Items(CanonSeq(ts, vs), base + HeadSize(ts), ds.Plus(ElementsPrice(e, vs))))
    else r.Err?
  }

  lemma {:induction false} SliceStep(e: Type, vs: seq<Value>, data: seq<byte>, p: nat, ds: Charge)
    requires ds.WithinBudget()
    requires ReadWord(data, p).Ok? && ToNat(ReadWord(data, p).value) == |vs|
    requires |vs| <= MAX_INT32 && |vs| <= (|data| - (p + WORD)) / 32 ==> ElementsDecode(e, vs, data, p + WORD, ds)
    ensures DecodesTo(SliceTy(e), List(vs), data, p, ds)
  {
    if |vs| <= MAX_INT32 {
      assert ReadLength(data, p) == Ok(|vs|);
    } else {
      assert ElementsPrice(e, vs).memory >= |vs| * 16;
    }
  }

  lemma {:induction false} ArrayStep(e: Type, vs: seq<Value>, data: seq<byte>, p: nat, ds: Charge)
    requires ds.WithinBudget() && p <= |data|
    requires |vs| <= (|data| - p) / 32 ==> ElementsDecode(e, vs, data, p, ds)
    ensures DecodesTo(ArrayTy(e, |vs|), List(vs), data, p, ds)
  {
    RepeatFacts(e, |vs|);
  }

  lemma {:induction false} TupleStep(ts: seq<Type>, vs: seq<Value>, data: seq<byte>, p: nat, ds: Charge)
    requires |ts| == |vs| && ds.WithinBudget()
    requires var ds1 := ds.Plus(Charge(|ts| * 16, 1)); ds1.WithinBudget() ==> SeqDecodes(ts, vs, data, p, ds1, false)
    ensures DecodesTo(TupleTy(ts), List(vs), data, p, ds)
  {
  }

  /** Key lemma: an encoding at any offset of any buffer. */
  lemma {:induction false} DecodeAt(t: Type, v: Value, data: seq<byte>, p: nat, ds: Charge)
    requires WellFormed(t) && Pack(t, v).Ok? && At(data, p, Pack(t, v).value)
    requires ds.WithinBudget()
    ensures DecodesTo(t, v, data, p, ds)
    decreases Depth(t), 0
  {
    match t
    case SliceTy(e) =>
      var n := |v.items|;
      var parts := PackSeq(Repeat(e, n), v.items, 32 * n, 0).value;
      AtSplit(data, p, LengthWord(n).value, parts.head + parts.tail);
      IntReadsBack(n);
      WordAt(data, p, n);
      ElementsAt(e, v.items, data, p + WORD, ds);
      SliceStep(e, v.items, data, p, ds);
    case ArrayTy(e, n) =>
      ElementsAt(e, v.items, data, p, ds);
      ArrayStep(e, v.items, data, p, ds);
    case TupleTy(ts) =>
      var ds1 := ds.Plus(Charge(|ts| * 16, 1));
      if ds1.WithinBudget() {
        SeqAt(ts, v.items, data, p, ds1, false);
      }
      TupleStep(ts, v.items, data, p, ds);
    case _ => BasicAt(t, v, data, p, ds);
  }

  lemma {:induction false} ElementsAt(e: Type, vs: seq<Value>, data: seq<byte>, base: nat, ds: Charge)
    requires WellFormed(e) && ds.WithinBudget()
    requires PackSeq(Repeat(e, |vs|), vs, 32 * |vs|, 0).Ok?
    requires var parts := PackSeq(Repeat(e, |vs|), vs, 32 * |vs|, 0).value; At(data, base, parts.head + parts.tail)
    ensures ElementsDecode(e, vs, data, base, ds)
    decreases Depth(e), |vs| + 3
  {
    var ts := Repeat(e, |vs|);
    var ds1 := ds.Plus(Charge(|vs| * 16, 1));
    RepeatFacts(e, |vs|);
    StaticOffsetsUnused(ts, vs, 32 * |vs|, HeadSize(ts), 0);
    if ds1.WithinBudget() {
      SeqAt(ts, vs, data, base, ds1, true);
    }
    ElementsStep(e, vs, data, base, ds);
  }

  lemma {:induction false} ElementsStep(e: Type, vs: seq<Value>, data: seq<byte>, base: nat, ds: Charge)
    requires ds.WithinBudget()
    requires var ds1 := ds.Plus(Charge(|vs| * 16, 1));
             ds1.WithinBudget() ==> SeqDecodes(Repeat(e, |vs|), vs, data, base, ds1, true)
    ensures ElementsDecode(e, vs, data, base, ds)
  {
  }

  /** Without dynamic components the head size is never written. */
  lemma {:induction false} StaticOffsetsUnused(ts: seq<Type>, vs: seq<Value>, hs: nat, hs': nat, tl: nat)
    requires |ts| == |vs| && (hs == hs' || !AnyDynamic(ts))
    ensures PackSeq(ts, vs, hs, tl) == PackSeq(ts, vs, hs', tl)
  {
    if ts != [] && hs != hs' {
      StaticOffsetsUnused(ts[1..], vs[1..], hs, hs', tl);
    }
  }

  lemma {:induction false} SeqAt(ts: seq<Type>, vs: seq<Value>, data: seq<byte>, base: nat, ds: Charge, counted: bool)
    requires |ts| == |vs| && AllWellFormed(ts) && ds.WithinBudget()
    requires PackSeq(ts, vs, HeadSize(ts), 0).Ok?
    requires var parts := PackSeq(ts, vs, HeadSize(ts), 0).value; At(data, base, parts.head + parts.tail)
    ensures SeqDecodes(ts, vs, data, base, ds, counted)
    decreases MaxDepth(ts), |ts| + 2
  {
    hide UnpackSeq, UnpackHeads, UnpackTails, HeadsPrice, TailsPrice, SeqHasRoom, CanonSeq, MaxDepth, Depth, HeadSize,
      TailSize, Slots, PackSeq;
    var parts := PackSeq(ts, vs, HeadSize(ts), 0).value;
    PackSeqSize(ts, vs, HeadSize(ts), 0);
    AtSplit(data, base, parts.head, parts.tail);
    HeadsAt(ts, vs, HeadSize(ts), 0, data, base, base, ds, counted);
    var ds1 := ds.Plus(HeadsPrice(ts, vs, counted));
    if ds1.WithinBudget() {
      TailsAt(ts, vs, HeadSize(ts), 0, data, base, base, ds1);
    }
    SeqStep(ts, vs, data, base, ds, counted);
  }

  /** The components ts/vs are packed in data: heads from pos on, tails from base + hs + tl on. */
  predicate Laid(ts: seq<Type>, vs: seq<Value>, hs: nat, tl: nat, data: seq<byte>, base: nat, pos: nat) {
    |ts| == |vs| &&
    var r := PackSeq(ts, vs, hs, tl);
    r.Ok? && At(data, pos, r.value.head) && At(data, base + hs + tl, r.value.tail)
  }

  ghost predicate HeadsDecode(ts: seq<Type>, vs: seq<Value>, at: nat, data: seq<byte>, pos: nat, ds: Charge,
      counted: bool)
    requires |ts| == |vs|
  {
    var r := UnpackHeads(ts, data, pos, ds, counted);
    if HeadsHaveRoom(ts, vs, pos, |data|) && ds.Plus(HeadsPrice(ts, vs, counted)).WithinBudget() then
      r == Ok(Heads(Slots(ts, vs, at), pos + HeadSize(ts), ds.Plus(HeadsPrice(ts, vs, counted))))
    else r.Err?
  }

  ghost predicate TailsDecode(ts: seq<Type>, vs: seq<Value>, at: nat, data: seq<byte>, base: nat, ds: Charge)
    requires |ts| == |vs|
  {
    var r := UnpackTails(ts, Slots(ts, vs, at), data, base, ds);
    if TailsHaveRoom(ts, vs, base + at, |data|) && ds.Plus(TailsPrice(ts, vs)).WithinBudget() then
      r == Ok(Tails(CanonSeq(ts, vs), ds.Plus(TailsPrice(ts, vs))))
    else r.Err?
  }

  lemma {:induction false} SeqStep(ts: seq<Type>, vs: seq<Value>, data: seq<byte>, base: nat, ds: Charge, counted: bool)
    requires |ts| == |vs|
    requires HeadsDecode(ts, vs, HeadSize(ts), data, base, ds, counted)
    requires var ds1 := ds.Plus(HeadsPrice(ts, vs, counted));
             ds1.WithinBudget() ==> TailsDecode(ts, vs, HeadSize(ts), data, base, ds1)
    ensures SeqDecodes(ts, vs, data, base, ds, counted)
  {
    hide HeadsPrice, TailsPrice, UnpackHeads, UnpackTails, HeadsHaveRoom, TailsHaveRoom, CanonSeq, Slots, HeadSize,
      MaxDepth, Depth;
  }

  lemma {:induction false} NoHeadsStep(ts: seq<Type>, vs: seq<Value>, at: nat, data: seq<byte>, pos: nat, ds: Charge,
      counted: bool)
    requires ts == [] && vs == [] && ds.WithinBudget()
    ensures HeadsDecode(ts, vs, at, data, pos, ds, counted)
  {
  }

  lemma {:induction false} DynamicHeadStep(ts: seq<Type>, vs: seq<Value>, at: nat, data: seq<byte>, pos: nat,
      ds: Charge, counted: bool)
    requires |ts| == |vs| && ts != [] && IsDynamic(ts[0])
    requires SafeOffset(data, pos) == Ok(at)
    requires HeadsDecode(ts[1..], vs[1..], at + EncodedSize(ts[0], vs[0]), data, pos + 32, ds, counted)
    ensures HeadsDecode(ts, vs, at, data, pos, ds, counted)
  {
    hide Unpack, Canon, Price, HasRoom, GetSize, MaxDepth, Depth, EncodedSize, SafeOffset;
  }

  lemma {:induction false} StaticHeadStep(ts: seq<Type>, vs: seq<Value>, at: nat, data: seq<byte>, pos: nat,
      ds: Charge, counted: bool)
    requires |ts| == |vs| && ts != [] && !IsDynamic(ts[0]) && ds.WithinBudget()
    requires var ds1 := ds.Plus(Charge(0, if counted then 1 else 0));
             var ds2 := ds1.Plus(Price(ts[0], vs[0]));
             && (ds1.WithinBudget() ==> DecodesTo(ts[0], vs[0], data, pos, ds1))
             && (ds2.WithinBudget() ==> HeadsDecode(ts[1..], vs[1..], at, data, pos + GetSize(ts[0]), ds2, counted))
    ensures HeadsDecode(ts, vs, at, data, pos, ds, counted)
  {
    hide Unpack, Canon, Price, HasRoom, GetSize, MaxDepth, Depth, EncodedSize, IsDynamic, SafeOffset;
    assert ds.Plus(HeadsPrice(ts, vs, counted))
        == ds.Plus(Charge(0, if counted then 1 else 0)).Plus(Price(ts[0], vs[0]))
             .Plus(HeadsPrice(ts[1..], vs[1..], counted));
  }

  /** Where the first component of a packed list lies, and where that leaves the others: a dynamic one ... */
  lemma {:induction false} DynamicLayout(ts: seq<Type>, vs: seq<Value>, hs: nat, tl: nat, data: seq<byte>, base: nat,
      pos: nat)
    requires ts != [] && IsDynamic(ts[0]) && Laid(ts, vs, hs, tl, data, base, pos)
    ensures Pack(ts[0], vs[0]).Ok? && SafeOffset(data, pos) == Ok(hs + tl)
            && At(data, base + hs + tl, Pack(ts[0], vs[0]).value)
    ensures Laid(ts[1..], vs[1..], hs, tl + |Pack(ts[0], vs[0]).value|, data, base, pos + 32)
  {
    hide Pack, Minimal, ToNat, Pow256;
    var enc := Pack(ts[0], vs[0]).value;
    var rest := PackSeq(ts[1..], vs[1..], hs, tl + |enc|).value;
    AtSplit(data, pos, Padded(0, Minimal(hs + tl)).value, rest.head);
    AtSplit(data, base + hs + tl, enc, rest.tail);
    WordAt(data, pos, hs + tl);
    IntReadsBack(hs + tl);
  }

  /** ... and a static one. */
  lemma {:induction false} StaticLayout(ts: seq<Type>, vs: seq<Value>, hs: nat, tl: nat, data: seq<byte>, base: nat,
      pos: nat)
    requires ts != [] && !IsDynamic(ts[0]) && Laid(ts, vs, hs, tl, data, base, pos)
    ensures Pack(ts[0], vs[0]).Ok? && At(data, pos, Pack(ts[0], vs[0]).value)
    ensures Laid(ts[1..], vs[1..], hs, tl, data, base, pos + |Pack(ts[0], vs[0]).value|)
  {
    hide Pack;
    AtSplit(data, pos, Pack(ts[0], vs[0]).value, PackSeq(ts[1..], vs[1..], hs, tl).value.head);
  }

  lemma {:induction false} LayoutStep(ts: seq<Type>, vs: seq<Value>, hs: nat, tl: nat, data: seq<byte>, base: nat,
      pos: nat)
    requires ts != [] && Laid(ts, vs, hs, tl, data, base, pos) && AllWellFormed(ts)
    ensures Pack(ts[0], vs[0]).Ok? && |Pack(ts[0], vs[0]).value| == EncodedSize(ts[0], vs[0])
    ensures var enc := Pack(ts[0], vs[0]).value;
            if IsDynamic(ts[0]) then
              && SafeOffset(data, pos) == Ok(hs + tl) && At(data, base + hs + tl, enc)
              && Laid(ts[1..], vs[1..], hs, tl + |enc|, data, base, pos + 32)
            else
              && |enc| == GetSize(ts[0]) && At(data, pos, enc)
              && Laid(ts[1..], vs[1..], hs, tl, data, base, pos + |enc|)
  {
    hide Pack, GetSize, EncodedSize, WellFormed, SafeOffset, PackSeq, At, IsDynamic;
    if IsDynamic(ts[0]) {
      DynamicLayout(ts, vs, hs, tl, data, base, pos);
    } else {
      StaticLayout(ts, vs, hs, tl, data, base, pos);
    }
    PackSize(ts[0], vs[0]);
  }

  lemma {:induction false} HeadsAt(ts: seq<Type>, vs: seq<Value>, hs: nat, tl: nat,
                                   data: seq<byte>, base: nat, pos: nat, ds: Charge, counted: bool)
    requires Laid(ts, vs, hs, tl, data, base, pos) && AllWellFormed(ts) && ds.WithinBudget()
    ensures HeadsDecode(ts, vs, hs + tl, data, pos, ds, counted)
    decreases MaxDepth(ts), |ts| + 1
  {
    hide HeadsDecode, DecodesTo, Pack, PackSeq, SafeOffset, GetSize, EncodedSize, Price, WellFormed;
    if ts == [] {
      NoHeadsStep(ts, vs, hs + tl, data, pos, ds, counted);
      return;
    }
    LayoutStep(ts, vs, hs, tl, data, base, pos);
    if IsDynamic(ts[0]) {
      HeadsAt(ts[1..], vs[1..], hs, tl + EncodedSize(ts[0], vs[0]), data, base, pos + 32, ds, counted);
      DynamicHeadStep(ts, vs, hs + tl, data, pos, ds, counted);
    } else {
      var ds1 := ds.Plus(Charge(0, if counted then 1 else 0));
      var ds2 := ds1.Plus(Price(ts[0], vs[0]));
      if ds1.WithinBudget() {
        DecodeAt(ts[0], vs[0], data, pos, ds1);
      }
      if ds2.WithinBudget() {
        HeadsAt(ts[1..], vs[1..], hs, tl, data, base, pos + GetSize(ts[0]), ds2, counted);
      }
      StaticHeadStep(ts, vs, hs + tl, data, pos, ds, counted);
    }
  }

  lemma {:induction false} NoTailsStep(ts: seq<Type>, vs: seq<Value>, at: nat, data: seq<byte>, base: nat, ds: Charge)
    requires ts == [] && vs == [] && ds.WithinBudget()
    ensures TailsDecode(ts, vs, at, data, base, ds)
  {
  }

  lemma {:induction false} DynamicTailStep(ts: seq<Type>, vs: seq<Value>, at: nat, data: seq<byte>, base: nat,
      ds: Charge)
    requires |ts| == |vs| && ts != [] && IsDynamic(ts[0])
    requires DecodesTo(ts[0], vs[0], data, base + at, ds)
    requires var ds1 := ds.Plus(Price(ts[0], vs[0]));
             ds1.WithinBudget() ==> TailsDecode(ts[1..], vs[1..], at + EncodedSize(ts[0], vs[0]), data, base, ds1)
    ensures TailsDecode(ts, vs, at, data, base, ds)
  {
    hide Unpack, Canon, Price, HasRoom, GetSize, MaxDepth, Depth, EncodedSize;
    assert Slots(ts, vs, at)[1..] == Slots(ts[1..], vs[1..], at + EncodedSize(ts[0], vs[0]));
  }

  lemma {:induction false} StaticTailStep(ts: seq<Type>, vs: seq<Value>, at: nat, data: seq<byte>, base: nat,
      ds: Charge)
    requires |ts| == |vs| && ts != [] && !IsDynamic(ts[0])
    requires TailsDecode(ts[1..], vs[1..], at, data, base, ds)
    ensures TailsDecode(ts, vs, at, data, base, ds)
  {
    hide Unpack, Canon, Price, HasRoom, GetSize, MaxDepth, Depth, EncodedSize;
    assert Slots(ts, vs, at)[1..] == Slots(ts[1..], vs[1..], at);
  }

  lemma {:induction false} TailsAt(ts: seq<Type>, vs: seq<Value>, hs: nat, tl: nat,
                                   data: seq<byte>, base: nat, pos: nat, ds: Charge)
    requires Laid(ts, vs, hs, tl, data, base, pos) && AllWellFormed(ts) && ds.WithinBudget()
    ensures TailsDecode(ts, vs, hs + tl, data, base, ds)
    decreases MaxDepth(ts), |ts| + 1
  {
    hide TailsDecode, DecodesTo, Pack, PackSeq, SafeOffset, GetSize, EncodedSize, Price, WellFormed;
    if ts == [] {
      NoTailsStep(ts, vs, hs + tl, data, base, ds);
      return;
    }
    LayoutStep(ts, vs, hs, tl, data, base, pos);
    if IsDynamic(ts[0]) {
      var size := EncodedSize(ts[0], vs[0]);
      DecodeAt(ts[0], vs[0], data, base + hs + tl, ds);
      var ds1 := ds.Plus(Price(ts[0], vs[0]));
      if ds1.WithinBudget() {
        TailsAt(ts[1..], vs[1..], hs, tl + size, data, base, pos + 32, ds1);
      }
      DynamicTailStep(ts, vs, hs + tl, data, base, ds);
    } else {
      TailsAt(ts[1..], vs[1..], hs, tl, data, base, pos + GetSize(ts[0]), ds);
      StaticTailStep(ts, vs, hs + tl, data, base, ds);
    }
  }

  // ---------------------------------------------------------------- main results

  function ArgumentsPrice(ts: seq<Type>, vs: seq<Value>): Charge
    requires |ts| == |vs|
  {
    HeadsPrice(ts, vs, false).Plus(TailsPrice(ts, vs))
  }

  lemma {:induction false} NoArguments(ts: seq<Type>, vs: seq<Value>)
    requires ts == [] && vs == []
    ensures PackArguments(ts, vs) == Ok([])
    ensures CanonSeq(ts, vs) == []
    ensures SeqHasRoom(ts, vs, 0, 0)
    ensures ArgumentsPrice(ts, vs) == Charge(0, 0)
  {
    hide Pack, Price, HasRoom, Canon, EncodedSize;
    var parts := PackSeq(ts, vs, HeadSize(ts), 0).value;
    assert parts.head + parts.tail == [];
  }

  /** Whether Unpack can take the arguments' encoding, told from the arguments alone. */
  predicate Decodable(ts: seq<Type>, vs: seq<Value>)
    requires |ts| == |vs|
  {
    && ArgumentsPrice(ts, vs).WithinBudget()
    && SeqHasRoom(ts, vs, 0, SeqSize(ts, vs))
    && (SeqSize(ts, vs) == 0 ==> ts == [])
  }

  /**
   For every list of types NewType can build and every argument list Pack accepts: Unpack of the
   result succeeds exactly when the price fits the decode budget, every list has room, and arguments
   do not encode to nothing; and it then returns the canonical arguments.
   */
  lemma {:induction false} UnpackAfterPack(ts: seq<Type>, vs: seq<Value>)
    requires AllWellFormed(ts) && PackArguments(ts, vs).Ok?
    ensures |vs| == |ts| && |PackArguments(ts, vs).value| == SeqSize(ts, vs)
    ensures var r := UnpackArguments(ts, PackArguments(ts, vs).value);
            if Decodable(ts, vs) then r.Ok? && r.value.items == CanonSeq(ts, vs) && r.value.ds == ArgumentsPrice(ts, vs)
            else r.Err?
  {
    hide UnpackHeads, UnpackTails, HeadsPrice, TailsPrice, HeadsHaveRoom, TailsHaveRoom, CanonSeq, HeadSize, TailSize,
      PackSeq;
    var data := PackArguments(ts, vs).value;
    PackSeqSize(ts, vs, HeadSize(ts), 0);
    if ts == [] {
      NoArguments(ts, vs);
    } else if data != [] {
      assert At(data, 0, data);
      SeqAt(ts, vs, data, 0, Charge(0, 0), false);
    }
  }

  /** The round trip, with the exact set of arguments it holds for. */
  lemma {:induction false} RoundTripIff(ts: seq<Type>, vs: seq<Value>)
    requires AllWellFormed(ts) && PackArguments(ts, vs).Ok?
    ensures |vs| == |ts|
    ensures var r := UnpackArguments(ts, PackArguments(ts, vs).value);
            (r.Ok? && r.value.items == vs) <==> AllCanonical(ts, vs) && Decodable(ts, vs)
  {
    hide UnpackHeads, UnpackTails, HeadsPrice, TailsPrice, SeqHasRoom, CanonSeq, HeadSize, SeqSize, PackSeq;
    UnpackAfterPack(ts, vs);
    CanonSeqIsIdentityIff(ts, vs, HeadSize(ts), 0);
  }
}
