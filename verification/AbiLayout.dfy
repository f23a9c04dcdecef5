/**
 What an encoding looks like, byte by byte, as "Formal Specification of the Encoding" in the Solidity
 Contract ABI Specification lays it down: where lengths, contents, zeros, heads, offsets and tails
 stand. Nothing here refers to the decoder or to the encoder's size arithmetic; the theorems say that
 the encoder writes this layout and that an in-range value has no other.
 */
module AbiLayout {
  import opened Results
  import opened ByteStrings
  import opened Hex
  import opened AbiType
  import opened AbiCodec
  import opened AbiNumbers
  import opened AbiRoundTrip
  import opened AbiGuarantee

  // ---------------------------------------------------------------- dynamic types

  /** The type and everything laid out in place inside it. */
  function Parts(t: Type): set<Type> {
    match t
    case ArrayTy(e, _) => {t} + Parts(e)
    case TupleTy(ts) => {t} + AllParts(ts)
    case _ => {t}
  }

  function AllParts(ts: seq<Type>): set<Type> {
    if ts == [] then {} else Parts(ts[0]) + AllParts(ts[1..])
  }

  predicate HasLength(t: Type) {
    t.BytesTy? || t.StringTy? || t.SliceTy?
  }

  ghost predicate AnyLength(ts: set<Type>) {
    exists t | t in ts :: HasLength(t)
  }

  lemma AnyLengthJoins(t: Type, a: set<Type>, b: set<Type>)
    ensures AnyLength({t}) <==> HasLength(t)
    ensures AnyLength(a + b) <==> AnyLength(a) || AnyLength(b)
    ensures !AnyLength({})
  {
    assert t in {t};
    if u :| u in a && HasLength(u) {
      assert u in a + b;
    }
    if u :| u in b && HasLength(u) {
      assert u in a + b;
    }
  }

  /** A type is dynamic exactly when a bytes, string or slice type is laid out inside it. */
  lemma {:induction false} DynamicIff(t: Type)
    ensures IsDynamic(t) <==> AnyLength(Parts(t))
    decreases Depth(t), 0
  {
    hide AnyLength;
    match t
    case ArrayTy(e, _) =>
      DynamicIff(e);
      AnyLengthJoins(t, {t}, Parts(e));
    case TupleTy(ts) =>
      AnyDynamicIff(ts);
      AnyLengthJoins(t, {t}, AllParts(ts));
    case _ => AnyLengthJoins(t, {}, {});
  }

  lemma {:induction false} AnyDynamicIff(ts: seq<Type>)
    ensures AnyDynamic(ts) <==> AnyLength(AllParts(ts))
    decreases MaxDepth(ts), |ts| + 1
  {
    hide AnyLength;
    if ts == [] {
      AnyLengthJoins(BoolTy, {}, {});
    } else {
      DynamicIff(ts[0]);
      AnyDynamicIff(ts[1..]);
      AnyLengthJoins(ts[0], Parts(ts[0]), AllParts(ts[1..]));
    }
  }

  // ---------------------------------------------------------------- the layout

  predicate Zeros(s: seq<byte>) {
    forall i | 0 <= i < |s| :: s[i] == 0
  }

  /** A word with this number in it. */
  predicate Word(enc: seq<byte>, n: int) {
    |enc| == 32 && ToNat(enc) == n
  }

  /** Two's complement over 256 bits for numbers in the declared range, the magnitude for other positive ones. */
  predicate NumberLaid(n: int, size: nat, signed: bool, enc: seq<byte>) {
    && |enc| == 32
    && (!signed ==> ToNat(enc) == Abs(n))
    && (signed && n >= 0 ==> ToNat(enc) == n)
    && (signed && n < 0 <= 2 * n + Pow2(size) ==> ToNat(enc) == Pow256(32) + n)
  }

  /** The length, the content, and fewer than 32 zero bytes up to a word boundary. */
  predicate BytesLaid(bytes: seq<byte>, enc: seq<byte>) {
    && |enc| >= 32 + |bytes| && |enc| % 32 == 0
    && Word(enc[..32], |bytes|)
    && enc[32..32 + |bytes|] == bytes
    && |enc[32 + |bytes|..]| < 32 && Zeros(enc[32 + |bytes|..])
  }

  /** Twelve zero bytes and the address, given as bytes or as hex text in either case with or without 0x. */
  predicate AddressLaid(v: Value, enc: seq<byte>) {
    && |enc| == 32 && Zeros(enc[..12])
    && (v.Account? || v.Blob? ==> enc[12..] == v.bytes)
    && (v.Text? ==> Lower(v.bytes) == HexEncode(enc[12..]) || Lower(v.bytes) == [48, 120] + HexEncode(enc[12..]))
    && (v.Account? || v.Blob? || v.Text?)
  }

  predicate FixedBytesLaid(size: nat, v: Value, enc: seq<byte>) {
    && |enc| == 32 && size <= 32 && (v.Array32? || v.Blob?)
    && (v.Array32? ==> |v.bytes| == 32 && enc[..size] == v.bytes[..size] && Zeros(enc[size..]))
    && (v.Blob? ==> |v.bytes| <= size && enc[..|v.bytes|] == v.bytes && Zeros(enc[|v.bytes|..]))
  }

  ghost predicate Laid(t: Type, v: Value, enc: seq<byte>)
    decreases Depth(t), 0
  {
    match t
    case UintTy(size) => v.Number? && NumberLaid(v.n, size, false, enc)
    case IntTy(size) => v.Number? && NumberLaid(v.n, size, true, enc)
    case BoolTy => v.Boolean? && Word(enc, if v.b then 1 else 0)
    case AddressTy => AddressLaid(v, enc)
    case BytesTy => (v.Blob? || v.Text?) && BytesLaid(v.bytes, enc)
    case StringTy => v.Text? && BytesLaid(v.bytes, enc)
    case FixedBytesTy(size) => FixedBytesLaid(size, v, enc)
    case SliceTy(e) =>
      v.List? && |enc| >= 32 && Word(enc[..32], |v.items|) && ListLaid(Repeat(e, |v.items|), v.items, enc[32..])
    case ArrayTy(e, n) => v.List? && |v.items| == n && ListLaid(Repeat(e, n), v.items, enc)
    case TupleTy(ts) => v.List? && |v.items| == |ts| && ListLaid(ts, v.items, enc)
    case FunctionTy => false
  }

  /** All heads, then all tails; offsets count from the first head. */
  ghost predicate ListLaid(ts: seq<Type>, vs: seq<Value>, enc: seq<byte>)
    requires |ts| == |vs|
    decreases MaxDepth(ts), |ts| + 2
  {
    HeadSize(ts) <= |enc| && PartsLaid(ts, vs, enc[..HeadSize(ts)], enc[HeadSize(ts)..], HeadSize(ts))
  }

  /**
   A static component stands in the head. A dynamic one has there a word with the offset of its tail,
   and the tails follow each other without gaps; `at` is the offset of the next tail.
   */
  ghost predicate PartsLaid(ts: seq<Type>, vs: seq<Value>, head: seq<byte>, tail: seq<byte>, at: nat)
    requires |ts| == |vs|
    decreases MaxDepth(ts), |ts| + 1
  {
    if ts == [] then head == [] && tail == []
    else if IsDynamic(ts[0]) then
      && |head| >= 32 && Word(head[..32], at)
      && exists n | 0 <= n <= |tail| ::
           Laid(ts[0], vs[0], tail[..n]) && PartsLaid(ts[1..], vs[1..], head[32..], tail[n..], at + n)
    else
      var n := GetSize(ts[0]);
      n <= |head| && Laid(ts[0], vs[0], head[..n]) && PartsLaid(ts[1..], vs[1..], head[n..], tail, at)
  }

  // ---------------------------------------------------------------- the encoder writes it

  lemma NumberIsLaid(n: int, size: nat, signed: bool)
    requires 8 <= size <= 256 && size % 8 == 0 && PackNum(n, size, signed).Ok?
    ensures NumberLaid(n, size, signed, PackNum(n, size, signed).value)
  {
    hide Pow2, Pow256, Minimal, ToNat, Survives;
    NumberReadsBack(n, size, signed);
    if signed && n < 0 <= 2 * n + Pow2(size) {
      DeclaredRangeSurvives(n, size, true);
      RereadIsIdentityIff(n, size, true);
    } else if signed && n >= 0 {
      WordReadsBack(n);
    }
  }

  lemma BytesAreLaid(bytes: seq<byte>)
    requires PackBytes(bytes).Ok?
    ensures BytesLaid(bytes, PackBytes(bytes).value)
  {
    hide Minimal, ToNat, Pow256;
    var enc := PackBytes(bytes).value;
    var word := LengthWord(|bytes|).value;
    IntReadsBack(|bytes|);
    var pad := Fill(0, PaddedLength(|bytes|) - |bytes|);
    assert enc == word + bytes + pad;
    assert enc[..32] == word && enc[32..32 + |bytes|] == bytes && enc[32 + |bytes|..] == pad;
  }

  lemma AddressIsLaid(v: Value)
    requires Pack(AddressTy, v).Ok?
    ensures AddressLaid(v, Pack(AddressTy, v).value)
  {
    hide HexDecode, HexEncode, Lower;
    var enc := Pack(AddressTy, v).value;
    if v.Text? {
      var text := TrimHex(v.bytes);
      var address := HexDecode(text).value;
      HexDecodeLength(text);
      DecodeIsExact(text, address);
      assert enc[12..] == address;
      if text != v.bytes {
        TrimmedText(v.bytes);
      }
    } else {
      assert enc[12..] == v.bytes;
    }
  }

  lemma BasicIsLaid(t: Type, v: Value)
    requires WellFormed(t) && Pack(t, v).Ok? && !t.SliceTy? && !t.ArrayTy? && !t.TupleTy?
    ensures Laid(t, v, Pack(t, v).value)
  {
    hide PackNum, PackBytes, NumberLaid, BytesLaid, AddressLaid, Minimal, HexDecode, Pow256, Pow2;
    match t
    case UintTy(size) => NumberIsLaid(v.n, size, false);
    case IntTy(size) => NumberIsLaid(v.n, size, true);
    case BoolTy => FlagReads(if v.b then 1 else 0);
    case AddressTy => AddressIsLaid(v);
    case BytesTy => BytesAreLaid(v.bytes);
    case StringTy => BytesAreLaid(v.bytes);
    case FixedBytesTy(size) => FixedBytesAreLaid(size, v);
  }

  lemma FlagReads(b: byte)
    ensures ToNat(Fill(0, 31) + [b]) == b
  {
    hide Pow256;
    ToNatConcat(Fill(0, 31), [b]);
    ToNatOfFill(31);
    assert [b][..0] == [];
  }

  lemma FixedBytesAreLaid(size: nat, v: Value)
    requires Pack(FixedBytesTy(size), v).Ok? && size <= 32
    ensures FixedBytesLaid(size, v, Pack(FixedBytesTy(size), v).value)
  {
    var enc := Pack(FixedBytesTy(size), v).value;
    var n := if v.Array32? then size else |v.bytes|;
    assert enc[n..] == Fill(0, 32 - n);
  }

  /** Every successful encoding has the layout. */
  lemma {:induction false} PackIsLaid(t: Type, v: Value)
    requires WellFormed(t) && Pack(t, v).Ok?
    ensures Laid(t, v, Pack(t, v).value)
    decreases Depth(t), 0
  {
    hide PackSeq, ListLaid, HeadSize, Minimal, ToNat, Pow256, PackNum, PackBytes, HexDecode;
    match t
    case SliceTy(e) =>
      var n := |v.items|;
      RepeatFacts(e, n);
      var parts := PackSeq(Repeat(e, n), v.items, 32 * n, 0).value;
      IntReadsBack(n);
      var word := LengthWord(n).value;
      assert Pack(t, v).value == word + (parts.head + parts.tail);
      assert Pack(t, v).value[..32] == word && Pack(t, v).value[32..] == parts.head + parts.tail;
      ListIsLaid(Repeat(e, n), v.items, 32 * n, n > 0 && IsDynamic(e));
    case ArrayTy(e, n) =>
      RepeatFacts(e, n);
      ListIsLaid(Repeat(e, n), v.items, 32 * n, n > 0 && IsDynamic(e));
    case TupleTy(ts) => ListIsLaid(ts, v.items, HeadSize(ts), true);
    case _ => BasicIsLaid(t, v);
  }

  /** The head size handed to PackSeq matters only when there is an offset to write. */
  lemma {:induction false} ListIsLaid(ts: seq<Type>, vs: seq<Value>, hs: nat, matters: bool)
    requires |ts| == |vs| && AllWellFormed(ts) && PackSeq(ts, vs, hs, 0).Ok?
    requires matters ==> hs == HeadSize(ts)
    requires !matters ==> !AnyDynamic(ts)
    ensures var parts := PackSeq(ts, vs, hs, 0).value; ListLaid(ts, vs, parts.head + parts.tail)
    decreases MaxDepth(ts), |ts| + 2
  {
    hide PackSeq, PartsLaid, HeadSize, WellFormed;
    var parts := PackSeq(ts, vs, hs, 0).value;
    PartsAreLaid(ts, vs, hs, 0, HeadSize(ts));
    var enc := parts.head + parts.tail;
    assert enc[..HeadSize(ts)] == parts.head && enc[HeadSize(ts)..] == parts.tail;
  }

  lemma {:induction false} PartsAreLaid(ts: seq<Type>, vs: seq<Value>, hs: nat, tl: nat, at: nat)
    requires |ts| == |vs| && AllWellFormed(ts) && PackSeq(ts, vs, hs, tl).Ok?
    requires AnyDynamic(ts) ==> at == hs + tl
    ensures var parts := PackSeq(ts, vs, hs, tl).value;
            |parts.head| == HeadSize(ts) && PartsLaid(ts, vs, parts.head, parts.tail, at)
    decreases MaxDepth(ts), |ts| + 1
  {
    hide Pack, Laid, Minimal, ToNat, Pow256, WellFormed, GetSize, IsDynamic, EncodedSize;
    if ts != [] {
      var enc := Pack(ts[0], vs[0]).value;
      PackIsLaid(ts[0], vs[0]);
      PackSize(ts[0], vs[0]);
      var parts := PackSeq(ts, vs, hs, tl).value;
      if IsDynamic(ts[0]) {
        var rest := PackSeq(ts[1..], vs[1..], hs, tl + |enc|).value;
        PartsAreLaid(ts[1..], vs[1..], hs, tl + |enc|, at + |enc|);
        IntReadsBack(at);
        assert parts.head[..32] == Padded(0, Minimal(at)).value && parts.head[32..] == rest.head;
        assert parts.tail[..|enc|] == enc && parts.tail[|enc|..] == rest.tail;
      } else {
        var rest := PackSeq(ts[1..], vs[1..], hs, tl).value;
        PartsAreLaid(ts[1..], vs[1..], hs, tl, at);
        assert parts.head[..|enc|] == enc && parts.head[|enc|..] == rest.head;
      }
    }
  }

  // ---------------------------------------------------------------- and nothing else has it

  lemma {:induction false} SameNumberSameWord(a: seq<byte>, b: seq<byte>)
    requires |a| == |b| && ToNat(a) == ToNat(b)
    ensures a == b
    decreases |a|
  {
    if a != [] {
      var n := |a| - 1;
      SameNumberSameWord(a[..n], b[..n]);
      assert a == a[..n] + [a[n]] && b == b[..n] + [b[n]];
    }
  }

  lemma SameZeros(a: seq<byte>, b: seq<byte>, n: nat)
    requires |a| == |b| && n <= |a| && a[..n] == b[..n] && Zeros(a[n..]) && Zeros(b[n..])
    ensures a == b
  {
    assert a == a[..n] + a[n..] && b == b[..n] + b[n..];
    assert a[n..] == b[n..];
  }

  lemma SameBytes(bytes: seq<byte>, a: seq<byte>, b: seq<byte>)
    requires BytesLaid(bytes, a) && BytesLaid(bytes, b)
    ensures a == b
  {
    hide ToNat;
    var n := 32 + |bytes|;
    SameNumberSameWord(a[..32], b[..32]);
    assert a[..n] == a[..32] + a[32..n] && b[..n] == b[..32] + b[32..n];
    assert |a| == |b|;
    SameZeros(a, b, n);
  }

  lemma BasicIsUnique(t: Type, v: Value, a: seq<byte>, b: seq<byte>)
    requires InRange(t, v) && !t.SliceTy? && !t.ArrayTy? && !t.TupleTy?
    requires Laid(t, v, a) && Laid(t, v, b)
    ensures a == b
  {
    hide ToNat, Pow2, Pow256, BytesLaid;
    match t
    case UintTy(_) => SameNumberSameWord(a, b);
    case IntTy(_) => SameNumberSameWord(a, b);
    case BoolTy => SameNumberSameWord(a, b);
    case AddressTy =>
      assert a == a[..12] + a[12..] && b == b[..12] + b[12..];
      assert a[..12] == b[..12];
    case BytesTy => SameBytes(v.bytes, a, b);
    case StringTy => SameBytes(v.bytes, a, b);
    case FixedBytesTy(size) => SameZeros(a, b, size);
  }

  /** An in-range value has one layout. */
  lemma {:induction false} LayoutIsUnique(t: Type, v: Value, a: seq<byte>, b: seq<byte>)
    requires InRange(t, v) && Laid(t, v, a) && Laid(t, v, b)
    ensures a == b
    decreases Depth(t), 0
  {
    hide ToNat, HeadSize, PartsLaid, Pow256, Pow2;
    match t
    case SliceTy(e) =>
      SameNumberSameWord(a[..32], b[..32]);
      ListIsUnique(Repeat(e, |v.items|), v.items, a[32..], b[32..]);
      assert a == a[..32] + a[32..] && b == b[..32] + b[32..];
    case ArrayTy(e, n) => ListIsUnique(Repeat(e, n), v.items, a, b);
    case TupleTy(ts) => ListIsUnique(ts, v.items, a, b);
    case _ => BasicIsUnique(t, v, a, b);
  }

  lemma {:induction false} ListIsUnique(ts: seq<Type>, vs: seq<Value>, a: seq<byte>, b: seq<byte>)
    requires |ts| == |vs| && AllInRange(ts, vs) && ListLaid(ts, vs, a) && ListLaid(ts, vs, b)
    ensures a == b
    decreases MaxDepth(ts), |ts| + 2
  {
    hide HeadSize, PartsLaid, AllInRange;
    var n := HeadSize(ts);
    PartsAreUnique(ts, vs, a[..n], a[n..], b[..n], b[n..], n);
    assert a == a[..n] + a[n..] && b == b[..n] + b[n..];
  }

  /** The first component of a laid out list, and the rest. */
  lemma PartsSplit(ts: seq<Type>, vs: seq<Value>, head: seq<byte>, tail: seq<byte>, at: nat) returns (n: nat)
    requires |ts| == |vs| && ts != [] && PartsLaid(ts, vs, head, tail, at)
    ensures if IsDynamic(ts[0]) then
              && |head| >= 32 && n <= |tail| && Word(head[..32], at) && Laid(ts[0], vs[0], tail[..n])
              && PartsLaid(ts[1..], vs[1..], head[32..], tail[n..], at + n)
            else
              && n == GetSize(ts[0]) <= |head| && Laid(ts[0], vs[0], head[..n])
              && PartsLaid(ts[1..], vs[1..], head[n..], tail, at)
  {
    hide Laid, Word, GetSize, IsDynamic;
    if IsDynamic(ts[0]) {
      n :| 0 <= n <= |tail| && Laid(ts[0], vs[0], tail[..n])
           && PartsLaid(ts[1..], vs[1..], head[32..], tail[n..], at + n);
    } else {
      n := GetSize(ts[0]);
    }
  }

  lemma NoParts(ts: seq<Type>, vs: seq<Value>, head: seq<byte>, tail: seq<byte>, at: nat)
    requires ts == [] && vs == [] && PartsLaid(ts, vs, head, tail, at)
    ensures head == [] && tail == []
  {
  }

  lemma {:induction false} PartsAreUnique(ts: seq<Type>, vs: seq<Value>, head: seq<byte>, tail: seq<byte>,
      head': seq<byte>, tail': seq<byte>, at: nat)
    requires |ts| == |vs| && AllInRange(ts, vs)
    requires PartsLaid(ts, vs, head, tail, at) && PartsLaid(ts, vs, head', tail', at)
    ensures head == head' && tail == tail'
    decreases MaxDepth(ts), |ts| + 1
  {
    hide Laid, PartsLaid, ToNat, InRange, GetSize, IsDynamic;
    if ts == [] {
      NoParts(ts, vs, head, tail, at);
      NoParts(ts, vs, head', tail', at);
    } else {
      var n := PartsSplit(ts, vs, head, tail, at);
      var n' := PartsSplit(ts, vs, head', tail', at);
      if IsDynamic(ts[0]) {
        LayoutIsUnique(ts[0], vs[0], tail[..n], tail'[..n']);
        assert n == |tail[..n]| == |tail'[..n']| == n';
        PartsAreUnique(ts[1..], vs[1..], head[32..], tail[n..], head'[32..], tail'[n..], at + n);
        SameNumberSameWord(head[..32], head'[..32]);
        assert head == head[..32] + head[32..] && head' == head'[..32] + head'[32..];
        assert tail == tail[..n] + tail[n..] && tail' == tail'[..n] + tail'[n..];
      } else {
        LayoutIsUnique(ts[0], vs[0], head[..n], head'[..n]);
        PartsAreUnique(ts[1..], vs[1..], head[n..], tail, head'[n..], tail', at);
        assert head == head[..n] + head[n..] && head' == head'[..n] + head'[n..];
      }
    }
  }

  // ---------------------------------------------------------------- theorems

  /** For in-range values whose offsets fit, the encoding is the layout and the layout is the encoding. */
  lemma EncodingIsTheLayout(t: Type, v: Value, enc: seq<byte>)
    requires WellFormed(t) && InRange(t, v) && OffsetsFit(t, v)
    ensures Pack(t, v) == Ok(enc) <==> Laid(t, v, enc)
  {
    hide Pack, Laid, InRange, OffsetsFit;
    PackSucceedsIff(t, v);
    InRangeIsAccepted(t, v);
    PackIsLaid(t, v);
    if Laid(t, v, enc) {
      LayoutIsUnique(t, v, enc, Pack(t, v).value);
    }
  }

  /** The same for argument lists. */
  lemma ArgumentsAreTheLayout(ts: seq<Type>, vs: seq<Value>, enc: seq<byte>)
    requires |ts| == |vs| && AllWellFormed(ts) && AllInRange(ts, vs) && SeqOffsetsFit(ts, vs, HeadSize(ts))
    ensures PackArguments(ts, vs) == Ok(enc) <==> ListLaid(ts, vs, enc)
  {
    hide PackSeq, ListLaid, AllInRange, SeqOffsetsFit, HeadSize;
    PackArgumentsSucceedsIff(ts, vs);
    AllInRangeIsAccepted(ts, vs);
    ListIsLaid(ts, vs, HeadSize(ts), true);
    if ListLaid(ts, vs, enc) {
      ListIsUnique(ts, vs, enc, PackArguments(ts, vs).value);
    }
  }

  predicate Aligned(n: nat) {
    n % 32 == 0
  }

  lemma AlignedSum(a: nat, b: nat)
    requires Aligned(a) && Aligned(b)
    ensures Aligned(a + b)
  {
  }

  lemma NothingIsAligned()
    ensures Aligned(0) && Aligned(32)
  {
  }

  lemma BasicIsAligned(t: Type, v: Value, enc: seq<byte>)
    requires Laid(t, v, enc) && !t.SliceTy? && !t.ArrayTy? && !t.TupleTy?
    ensures Aligned(|enc|)
  {
    hide ToNat, Pow256, Pow2, Lower, HexEncode;
  }

  /** Every layout, so every encoding, is a whole number of words. */
  lemma {:induction false} LayoutIsAligned(t: Type, v: Value, enc: seq<byte>)
    requires WellFormed(t) && Laid(t, v, enc)
    ensures Aligned(|enc|)
    decreases Depth(t), 0
  {
    hide ToNat, ListLaid, Pow256, Pow2, Aligned;
    match t
    case SliceTy(e) =>
      RepeatFacts(e, |v.items|);
      ListIsAligned(Repeat(e, |v.items|), v.items, enc[32..]);
      NothingIsAligned();
      AlignedSum(32, |enc| - 32);
    case ArrayTy(e, n) =>
      RepeatFacts(e, n);
      ListIsAligned(Repeat(e, n), v.items, enc);
    case TupleTy(ts) => ListIsAligned(ts, v.items, enc);
    case _ => BasicIsAligned(t, v, enc);
  }

  lemma {:induction false} ListIsAligned(ts: seq<Type>, vs: seq<Value>, enc: seq<byte>)
    requires |ts| == |vs| && AllWellFormed(ts) && ListLaid(ts, vs, enc)
    ensures Aligned(|enc|)
    decreases MaxDepth(ts), |ts| + 2
  {
    hide HeadSize, PartsLaid, WellFormed, Aligned;
    PartsAreAligned(ts, vs, enc[..HeadSize(ts)], enc[HeadSize(ts)..], HeadSize(ts));
    AlignedSum(HeadSize(ts), |enc| - HeadSize(ts));
  }

  lemma {:induction false} PartsAreAligned(ts: seq<Type>, vs: seq<Value>, head: seq<byte>, tail: seq<byte>, at: nat)
    requires |ts| == |vs| && AllWellFormed(ts) && PartsLaid(ts, vs, head, tail, at)
    ensures Aligned(|head|) && Aligned(|tail|)
    decreases MaxDepth(ts), |ts| + 1
  {
    hide Laid, PartsLaid, Word, WellFormed, GetSize, IsDynamic, Aligned;
    NothingIsAligned();
    if ts == [] {
      NoParts(ts, vs, head, tail, at);
    } else {
      var n := PartsSplit(ts, vs, head, tail, at);
      if IsDynamic(ts[0]) {
        LayoutIsAligned(ts[0], vs[0], tail[..n]);
        PartsAreAligned(ts[1..], vs[1..], head[32..], tail[n..], at + n);
        AlignedSum(32, |head| - 32);
        AlignedSum(n, |tail| - n);
      } else {
        LayoutIsAligned(ts[0], vs[0], head[..n]);
        PartsAreAligned(ts[1..], vs[1..], head[n..], tail, at);
        AlignedSum(n, |head| - n);
      }
    }
  }

  lemma PackIsAligned(t: Type, v: Value)
    requires WellFormed(t) && Pack(t, v).Ok?
    ensures |Pack(t, v).value| % 32 == 0
  {
    hide Pack, Laid;
    PackIsLaid(t, v);
    LayoutIsAligned(t, v, Pack(t, v).value);
  }
}
