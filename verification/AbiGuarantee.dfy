/**
 The round trip a caller relies on: in-range values of types without empty tuples. Two concrete
 arguments show why an empty tuple has to be excluded: its encoding is empty, while unpackSlice and
 unpackArray count on 32 bytes per element and Unpack refuses empty data.
 */
module AbiGuarantee {
  import opened Results
  import opened ByteStrings
  import opened Hex
  import opened AbiType
  import opened AbiCodec
  import opened AbiNumbers
  import opened AbiRoundTrip

  predicate NoEmptyTuple(t: Type) {
    match t
    case SliceTy(e) => NoEmptyTuple(e)
    case ArrayTy(e, _) => NoEmptyTuple(e)
    case TupleTy(ts) => ts != [] && NoEmptyTuples(ts)
    case _ => true
  }

  predicate NoEmptyTuples(ts: seq<Type>) {
    ts != [] ==> NoEmptyTuple(ts[0]) && NoEmptyTuples(ts[1..])
  }

  /** A value of the Go type the decoder uses for t, with every number in its declared range. */
  predicate InRange(t: Type, v: Value)
    decreases Depth(t), 0
  {
    match t
    case UintTy(size) => v.Number? && 0 <= v.n < Pow2(size)
    case IntTy(size) => v.Number? && 0 <= 2 * v.n + Pow2(size) < 2 * Pow2(size)
    case BoolTy => v.Boolean?
    case AddressTy => v.Account? && |v.bytes| == 20
    case BytesTy => v.Blob?
    case StringTy => v.Text?
    case FixedBytesTy(size) => v.Blob? && |v.bytes| == size
    case SliceTy(e) => v.List? && AllInRange(Repeat(e, |v.items|), v.items)
    case ArrayTy(e, n) => v.List? && |v.items| == n && AllInRange(Repeat(e, n), v.items)
    case TupleTy(ts) => v.List? && |v.items| == |ts| && AllInRange(ts, v.items)
    case FunctionTy => false
  }

  predicate AllInRange(ts: seq<Type>, vs: seq<Value>)
    requires |ts| == |vs|
    decreases MaxDepth(ts), |ts| + 1
  {
    ts != [] ==> InRange(ts[0], vs[0]) && AllInRange(ts[1..], vs[1..])
  }

  lemma {:induction false} InRangeIsCanonical(t: Type, v: Value)
    requires WellFormed(t) && InRange(t, v)
    ensures Canonical(t, v)
    decreases Depth(t), 0
  {
    hide Survives, Pow2;
    match t
    case UintTy(size) => DeclaredRangeSurvives(v.n, size, false);
    case IntTy(size) => DeclaredRangeSurvives(v.n, size, true);
    case SliceTy(e) =>
      RepeatFacts(e, |v.items|);
      AllInRangeIsCanonical(Repeat(e, |v.items|), v.items);
    case ArrayTy(e, n) =>
      RepeatFacts(e, n);
      AllInRangeIsCanonical(Repeat(e, n), v.items);
    case TupleTy(ts) => AllInRangeIsCanonical(ts, v.items);
    case _ =>
  }

  lemma {:induction false} AllInRangeIsCanonical(ts: seq<Type>, vs: seq<Value>)
    requires |ts| == |vs| && AllWellFormed(ts) && AllInRange(ts, vs)
    ensures AllCanonical(ts, vs)
    decreases MaxDepth(ts), |ts| + 1
  {
    hide WellFormed, InRange, Canonical;
    if ts != [] {
      InRangeIsCanonical(ts[0], vs[0]);
      AllInRangeIsCanonical(ts[1..], vs[1..]);
    }
  }

  lemma {:induction false} NoEmptyTupleRepeated(t: Type, n: nat)
    requires NoEmptyTuple(t)
    ensures NoEmptyTuples(Repeat(t, n))
  {
    if n > 0 {
      NoEmptyTupleRepeated(t, n - 1);
      assert Repeat(t, n)[1..] == Repeat(t, n - 1);
    }
  }

  lemma {:induction false} SizeIsPositive(t: Type)
    requires WellFormed(t) && NoEmptyTuple(t)
    ensures GetSize(t) >= 32
    decreases Depth(t), 0
  {
    match t
    case ArrayTy(e, n) =>
      SizeIsPositive(e);
      assert n * GetSize(e) >= 1 * GetSize(e) by { MulMonotone(1, n, GetSize(e)); }
    case TupleTy(ts) => HeadSizeIsPositive(ts);
    case _ =>
  }

  lemma {:induction false} HeadSizeIsPositive(ts: seq<Type>)
    requires AllWellFormed(ts) && NoEmptyTuples(ts)
    ensures HeadSize(ts) >= 32 * |ts|
    decreases MaxDepth(ts), |ts| + 1
  {
    hide WellFormed, NoEmptyTuple, GetSize, IsDynamic;
    if ts != [] {
      SizeIsPositive(ts[0]);
      HeadSizeIsPositive(ts[1..]);
    }
  }

  /** Without empty tuples an encoding that fits the buffer passes every length check. */
  lemma {:induction false} RoomForEncoding(t: Type, v: Value, p: nat, total: nat)
    requires WellFormed(t) && NoEmptyTuple(t) && Pack(t, v).Ok? && p + EncodedSize(t, v) <= total
    ensures HasRoom(t, v, p, total)
    decreases Depth(t), 0
  {
    match t
    case SliceTy(e) => RoomForElements(e, v.items, p + WORD, total);
    case ArrayTy(e, n) => RoomForElements(e, v.items, p, total);
    case TupleTy(ts) => RoomForSeq(ts, v.items, HeadSize(ts), p, total);
    case _ =>
  }

  lemma {:induction false} RoomForElements(e: Type, vs: seq<Value>, base: nat, total: nat)
    requires WellFormed(e) && NoEmptyTuple(e)
    requires PackSeq(Repeat(e, |vs|), vs, 32 * |vs|, 0).Ok? && base + SeqSize(Repeat(e, |vs|), vs) <= total
    ensures |vs| <= (total - base) / 32 && SeqHasRoom(Repeat(e, |vs|), vs, base, total)
    decreases Depth(e), |vs| + 3
  {
    hide WellFormed, NoEmptyTuple, PackSeq, HeadSize, TailSize, HeadsHaveRoom, TailsHaveRoom;
    var ts := Repeat(e, |vs|);
    RepeatFacts(e, |vs|);
    NoEmptyTupleRepeated(e, |vs|);
    HeadSizeIsPositive(ts);
    RoomForSeq(ts, vs, 32 * |vs|, base, total);
  }

  lemma {:induction false} RoomForSeq(ts: seq<Type>, vs: seq<Value>, hs: nat, base: nat, total: nat)
    requires |ts| == |vs| && AllWellFormed(ts) && NoEmptyTuples(ts)
    requires PackSeq(ts, vs, hs, 0).Ok? && base + SeqSize(ts, vs) <= total
    ensures SeqHasRoom(ts, vs, base, total)
    decreases MaxDepth(ts), |ts| + 2
  {
    hide PackSeq, HeadSize, TailSize, HeadsHaveRoom, TailsHaveRoom;
    RoomForHeads(ts, vs, hs, 0, base, total);
    RoomForTails(ts, vs, hs, 0, base + HeadSize(ts), total);
  }

  /** The first component of a packed list, and the rest. */
  lemma {:induction false} PackedStep(ts: seq<Type>, vs: seq<Value>, hs: nat, tl: nat)
    requires |ts| == |vs| && ts != [] && AllWellFormed(ts) && PackSeq(ts, vs, hs, tl).Ok?
    ensures Pack(ts[0], vs[0]).Ok?
    ensures !IsDynamic(ts[0]) ==> EncodedSize(ts[0], vs[0]) == GetSize(ts[0])
    ensures PackSeq(ts[1..], vs[1..], hs, if IsDynamic(ts[0]) then tl + EncodedSize(ts[0], vs[0]) else tl).Ok?
  {
    hide EncodedSize, GetSize, Pack, WellFormed;
    PackSize(ts[0], vs[0]);
  }

  lemma {:induction false} RoomForHeads(ts: seq<Type>, vs: seq<Value>, hs: nat, tl: nat, pos: nat, total: nat)
    requires |ts| == |vs| && AllWellFormed(ts) && NoEmptyTuples(ts)
    requires PackSeq(ts, vs, hs, tl).Ok? && pos + HeadSize(ts) <= total
    ensures HeadsHaveRoom(ts, vs, pos, total)
    decreases MaxDepth(ts), |ts| + 1
  {
    hide EncodedSize, GetSize, Pack, PackSeq, WellFormed, NoEmptyTuple, HasRoom, IsDynamic;
    if ts != [] {
      PackedStep(ts, vs, hs, tl);
      if IsDynamic(ts[0]) {
        RoomForHeads(ts[1..], vs[1..], hs, tl + EncodedSize(ts[0], vs[0]), pos + 32, total);
      } else {
        RoomForEncoding(ts[0], vs[0], pos, total);
        RoomForHeads(ts[1..], vs[1..], hs, tl, pos + GetSize(ts[0]), total);
      }
    }
  }

  lemma {:induction false} RoomForTails(ts: seq<Type>, vs: seq<Value>, hs: nat, tl: nat, pos: nat, total: nat)
    requires |ts| == |vs| && AllWellFormed(ts) && NoEmptyTuples(ts)
    requires PackSeq(ts, vs, hs, tl).Ok? && pos + TailSize(ts, vs) <= total
    ensures TailsHaveRoom(ts, vs, pos, total)
    decreases MaxDepth(ts), |ts| + 1
  {
    hide EncodedSize, GetSize, Pack, PackSeq, WellFormed, NoEmptyTuple, HasRoom, IsDynamic;
    if ts != [] {
      PackedStep(ts, vs, hs, tl);
      if IsDynamic(ts[0]) {
        RoomForEncoding(ts[0], vs[0], pos, total);
        RoomForTails(ts[1..], vs[1..], hs, tl + EncodedSize(ts[0], vs[0]), pos + EncodedSize(ts[0], vs[0]), total);
      } else {
        RoomForTails(ts[1..], vs[1..], hs, tl, pos, total);
      }
    }
  }

  // ---------------------------------------------------------------- when packing succeeds

  /** Every offset the encoder writes stays within 2^32 and every length within an int64. */
  predicate OffsetsFit(t: Type, v: Value)
    decreases Depth(t), 0
  {
    match t
    case BytesTy => v.Blob? || v.Text? ==> |v.bytes| <= MAX_INT64
    case StringTy => v.Text? ==> |v.bytes| <= MAX_INT64
    case SliceTy(e) => v.List? ==>
      |v.items| <= MAX_INT64 && SeqOffsetsFit(Repeat(e, |v.items|), v.items, 32 * |v.items|)
    case ArrayTy(e, n) => v.List? && |v.items| == n ==> SeqOffsetsFit(Repeat(e, n), v.items, 32 * n)
    case TupleTy(ts) => v.List? && |v.items| == |ts| ==> SeqOffsetsFit(ts, v.items, HeadSize(ts))
    case _ => true
  }

  /** at is the offset the next dynamic component gets. */
  predicate SeqOffsetsFit(ts: seq<Type>, vs: seq<Value>, at: nat)
    requires |ts| == |vs|
    decreases MaxDepth(ts), |ts| + 1
  {
    ts != [] ==>
      && OffsetsFit(ts[0], vs[0])
      && (IsDynamic(ts[0]) ==> at <= MAX_ABI_OFFSET)
      && SeqOffsetsFit(ts[1..], vs[1..], if IsDynamic(ts[0]) then at + EncodedSize(ts[0], vs[0]) else at)
  }

  /** Hex text of twenty bytes, in either case, with or without 0x. */
  ghost predicate AddressText(text: seq<byte>) {
    exists address | |address| == 20 ::
      Lower(text) == HexEncode(address) || Lower(text) == [48, 120] + HexEncode(address)
  }

  /** The numbers that fit a word as packNum writes them; in range or not. */
  predicate WordSized(n: int, size: nat, signed: bool) {
    (if signed && n < 0 then Abs(n + Pow2(size)) else Abs(n)) < Pow256(WORD)
  }

  /** The values the encoder takes for a type, conversions included. */
  ghost predicate Accepted(t: Type, v: Value)
    decreases Depth(t), 0
  {
    match t
    case UintTy(size) => v.Number? && WordSized(v.n, size, false)
    case IntTy(size) => v.Number? && WordSized(v.n, size, true)
    case BoolTy => v.Boolean?
    case AddressTy => ((v.Account? || v.Blob?) && |v.bytes| == 20) || (v.Text? && AddressText(v.bytes))
    case BytesTy => v.Blob? || v.Text?
    case StringTy => v.Text?
    case FixedBytesTy(size) => (v.Blob? && |v.bytes| <= size) || (v.Array32? && |v.bytes| == 32)
    case SliceTy(e) => v.List? && AllAccepted(Repeat(e, |v.items|), v.items)
    case ArrayTy(e, n) => v.List? && |v.items| == n && AllAccepted(Repeat(e, n), v.items)
    case TupleTy(ts) => v.List? && |v.items| == |ts| && AllAccepted(ts, v.items)
    case FunctionTy => false
  }

  ghost predicate AllAccepted(ts: seq<Type>, vs: seq<Value>)
    requires |ts| == |vs|
    decreases MaxDepth(ts), |ts| + 1
  {
    ts != [] ==> Accepted(ts[0], vs[0]) && AllAccepted(ts[1..], vs[1..])
  }

  lemma NumberSucceedsIff(n: int, size: nat, signed: bool)
    ensures PackNum(n, size, signed).Ok? <==> WordSized(n, size, signed)
  {
    hide Pow2, Pow256, Minimal;
    MinimalLength(Abs(n), WORD);
    MinimalLength(Abs(n + Pow2(size)), WORD);
  }

  lemma AddressSucceedsIff(text: seq<byte>)
    ensures Pack(AddressTy, Text(text)).Ok? <==> AddressText(text)
  {
    hide HexDecode, HexEncode, Lower;
    var trimmed := TrimHex(text);
    HexDecodeLength(trimmed);
    if Pack(AddressTy, Text(text)).Ok? {
      DecodeIsExact(trimmed, HexDecode(trimmed).value);
      TrimmedText(text);
    }
    if address :| |address| == 20
                  && (Lower(text) == HexEncode(address) || Lower(text) == [48, 120] + HexEncode(address)) {
      TrimmedIs(text, address);
      DecodeIsExact(trimmed, address);
    }
  }

  lemma TrimmedText(s: seq<byte>)
    ensures TrimHex(s) != s ==> Lower(s) == [48, 120] + Lower(TrimHex(s))
  {
  }

  lemma TrimmedIs(text: seq<byte>, address: seq<byte>)
    requires |address| == 20
    requires Lower(text) == HexEncode(address) || Lower(text) == [48, 120] + HexEncode(address)
    ensures Lower(TrimHex(text)) == HexEncode(address) && |TrimHex(text)| == 40
  {
    hide HexDecode;
    HexDecodesBack(address);
    var hex := HexEncode(address);
    assert hex[1] == HexDigit(address[0] % 16);
    if Lower(text) == [48, 120] + hex {
      assert Lower(text)[0] == 48 && Lower(text)[1] == 120;
      assert Lower(text[2..]) == Lower(text)[2..] == hex;
    } else {
      assert Lower(text)[1] == hex[1];
    }
  }

  lemma BasicSucceedsIff(t: Type, v: Value)
    requires WellFormed(t) && !t.SliceTy? && !t.ArrayTy? && !t.TupleTy?
    ensures Pack(t, v).Ok? <==> Accepted(t, v) && OffsetsFit(t, v)
  {
    hide Pow2, Pow256, Minimal, WordSized, AddressText, HexDecode, TrimHex;
    match t
    case UintTy(size) => if v.Number? { NumberSucceedsIff(v.n, size, false); }
    case IntTy(size) => if v.Number? { NumberSucceedsIff(v.n, size, true); }
    case AddressTy => if v.Text? { AddressSucceedsIff(v.bytes); }
    case BytesTy => if (v.Blob? || v.Text?) && |v.bytes| <= MAX_INT64 { IntReadsBack(|v.bytes|); }
    case StringTy => if v.Text? && |v.bytes| <= MAX_INT64 { IntReadsBack(|v.bytes|); }
    case _ =>
  }

  /** A value packs exactly when the encoder takes it and its offsets fit. */
  lemma {:induction false} PackSucceedsIff(t: Type, v: Value)
    requires WellFormed(t)
    ensures Pack(t, v).Ok? <==> Accepted(t, v) && OffsetsFit(t, v)
    decreases Depth(t), 0
  {
    hide Pow2, Pow256, Minimal, PackNum, PackBytes, SeqOffsetsFit, AllAccepted, PackSeq, HeadSize, HexDecode,
      AddressText;
    match t
    case SliceTy(e) =>
      if v.List? {
        var n := |v.items|;
        RepeatFacts(e, n);
        PackSeqSucceedsIff(Repeat(e, n), v.items, 32 * n, 0);
        if n <= MAX_INT64 { IntReadsBack(n); }
      }
    case ArrayTy(e, n) =>
      if v.List? && |v.items| == n {
        RepeatFacts(e, n);
        PackSeqSucceedsIff(Repeat(e, n), v.items, 32 * n, 0);
      }
    case TupleTy(ts) =>
      if v.List? && |v.items| == |ts| {
        PackSeqSucceedsIff(ts, v.items, HeadSize(ts), 0);
      }
    case _ => BasicSucceedsIff(t, v);
  }

  lemma {:induction false} PackSeqSucceedsIff(ts: seq<Type>, vs: seq<Value>, hs: nat, tl: nat)
    requires |ts| == |vs| && AllWellFormed(ts)
    ensures PackSeq(ts, vs, hs, tl).Ok? <==> AllAccepted(ts, vs) && SeqOffsetsFit(ts, vs, hs + tl)
    decreases MaxDepth(ts), |ts| + 1
  {
    hide Pack, OffsetsFit, WellFormed, Accepted, EncodedSize, Minimal, IsDynamic;
    if ts != [] {
      PackSucceedsIff(ts[0], vs[0]);
      if Pack(ts[0], vs[0]).Ok? {
        PackSize(ts[0], vs[0]);
        PackSeqSucceedsIff(ts[1..], vs[1..], hs, if IsDynamic(ts[0]) then tl + EncodedSize(ts[0], vs[0]) else tl);
      }
      if hs + tl <= MAX_ABI_OFFSET {
        IntReadsBack(hs + tl);
      }
    }
  }

  /** Pack succeeds exactly on as many values as types, taken each, with offsets that fit. */
  lemma PackArgumentsSucceedsIff(ts: seq<Type>, vs: seq<Value>)
    requires AllWellFormed(ts)
    ensures PackArguments(ts, vs).Ok?
       <==> |ts| == |vs| && AllAccepted(ts, vs) && SeqOffsetsFit(ts, vs, HeadSize(ts))
  {
    hide PackSeq, HeadSize, SeqOffsetsFit, AllAccepted;
    if |ts| == |vs| {
      PackSeqSucceedsIff(ts, vs, HeadSize(ts), 0);
    }
  }

  lemma {:induction false} InRangeIsAccepted(t: Type, v: Value)
    requires WellFormed(t) && InRange(t, v)
    ensures Accepted(t, v)
    decreases Depth(t), 0
  {
    hide Pow2, Pow256, Survives, WordSized;
    match t
    case UintTy(size) =>
      DeclaredRangeSurvives(v.n, size, false);
      NumberSucceedsIff(v.n, size, false);
    case IntTy(size) =>
      DeclaredRangeSurvives(v.n, size, true);
      NumberSucceedsIff(v.n, size, true);
    case SliceTy(e) =>
      RepeatFacts(e, |v.items|);
      AllInRangeIsAccepted(Repeat(e, |v.items|), v.items);
    case ArrayTy(e, n) =>
      RepeatFacts(e, n);
      AllInRangeIsAccepted(Repeat(e, n), v.items);
    case TupleTy(ts) => AllInRangeIsAccepted(ts, v.items);
    case _ =>
  }

  lemma {:induction false} AllInRangeIsAccepted(ts: seq<Type>, vs: seq<Value>)
    requires |ts| == |vs| && AllWellFormed(ts) && AllInRange(ts, vs)
    ensures AllAccepted(ts, vs)
    decreases MaxDepth(ts), |ts| + 1
  {
    hide WellFormed, InRange, Accepted;
    if ts != [] {
      InRangeIsAccepted(ts[0], vs[0]);
      AllInRangeIsAccepted(ts[1..], vs[1..]);
    }
  }

  /** The text form of an address packs to the same word as the address, with or without the 0x. */
  lemma HexAddressPacks(address: seq<byte>)
    requires |address| == 20
    ensures Pack(AddressTy, Text([48, 120] + HexEncode(address))) == Pack(AddressTy, Account(address))
    ensures Pack(AddressTy, Text(HexEncode(address))) == Pack(AddressTy, Account(address))
  {
    hide HexDecode;
    var hex := HexEncode(address);
    HexDecodesBack(address);
    assert ([48, 120] + hex)[2..] == hex;
    assert hex[1] == HexDigit(address[0] % 16);
  }

  /** Arguments whose offsets fit and whose price fits the decode budget pack, and unpack to themselves. */
  lemma {:induction false} RoundTrip(ts: seq<Type>, vs: seq<Value>)
    requires |ts| == |vs| && AllWellFormed(ts) && NoEmptyTuples(ts) && AllInRange(ts, vs)
    requires SeqOffsetsFit(ts, vs, HeadSize(ts)) && ArgumentsPrice(ts, vs).WithinBudget()
    ensures PackArguments(ts, vs).Ok?
    ensures var r := UnpackArguments(ts, PackArguments(ts, vs).value); r.Ok? && r.value.items == vs
  {
    hide PackSeq, HeadSize, TailSize, SeqHasRoom, UnpackArguments, HeadsPrice, TailsPrice, AllCanonical, SeqOffsetsFit,
      AllAccepted;
    PackArgumentsSucceedsIff(ts, vs);
    AllInRangeIsAccepted(ts, vs);
    PackSeqSize(ts, vs, HeadSize(ts), 0);
    HeadSizeIsPositive(ts);
    RoomForSeq(ts, vs, HeadSize(ts), 0, SeqSize(ts, vs));
    AllInRangeIsCanonical(ts, vs);
    RoundTripIff(ts, vs);
  }

  lemma EmptyTupleSlicePacks(ts: seq<Type>, vs: seq<Value>)
    requires ts == [SliceTy(TupleTy([]))] && vs == [List([List([])])]
    ensures PackArguments(ts, vs).Ok?
  {
    var e := TupleTy([]);
    assert Repeat(e, 1) == [e];
    assert Pack(e, List([])).Ok?;
    assert PackSeq([e], [List([])], 32, 0).Ok?;
    IntReadsBack(1);
    IntReadsBack(32);
    assert Pack(ts[0], vs[0]).Ok?;
    assert PackSeq(ts, vs, HeadSize(ts), 0).Ok?;
  }

  lemma EmptyTupleSliceHasNoRoom(ts: seq<Type>, vs: seq<Value>)
    requires ts == [SliceTy(TupleTy([]))] && vs == [List([List([])])]
    ensures SeqSize(ts, vs) == 64 && !SeqHasRoom(ts, vs, 0, 64)
  {
    var e := TupleTy([]);
    RepeatFacts(e, 1);
    NoTail([e], vs[0].items);
    assert Repeat(e, 1) == [e];
    assert HeadSize([e]) == GetSize(e) == 0;
    assert EncodedSize(ts[0], vs[0]) == 32;
    assert ts[1..] == [] && vs[1..] == [];
    assert HeadSize(ts) == 32 && TailSize(ts, vs) == 32;
    assert !HasRoom(ts[0], vs[0], 32, 64);
  }

  /** A one-element slice of empty tuples packs into 64 bytes, and those do not unpack. */
  lemma EmptyTupleSliceIsRefused(ts: seq<Type>, vs: seq<Value>)
    requires ts == [SliceTy(TupleTy([]))] && vs == [List([List([])])]
    ensures PackArguments(ts, vs).Ok? && UnpackArguments(ts, PackArguments(ts, vs).value).Err?
  {
    EmptyTupleSlicePacks(ts, vs);
    EmptyTupleSliceHasNoRoom(ts, vs);
    hide PackSeq, HeadSize, TailSize, SeqHasRoom, UnpackArguments, HeadsPrice, TailsPrice, CanonSeq;
    PackSeqSize(ts, vs, HeadSize(ts), 0);
    UnpackAfterPack(ts, vs);
  }

  /** A lone empty tuple packs into no bytes at all, which Unpack refuses. */
  lemma EmptyTupleArgumentIsRefused()
    ensures PackArguments([TupleTy([])], [List([])]) == Ok([])
    ensures UnpackArguments([TupleTy([])], []).Err?
  {
    var e := TupleTy([]);
    var none: seq<byte> := [];
    assert none + none == none;
    assert Pack(e, List([])) == Ok([]);
    assert PackSeq([e], [List([])], 0, 0) == Ok(Parts([], []));
  }
}
