/**
 The ABI encoder and decoder as functions (abi/type.go, abi/argument.go).

 A tuple, an array, a slice body and a top-level argument list share one layout: a head with one
 entry per component (its encoding, or an offset word when it is dynamic) followed by the tails of
 the dynamic components. PackSeq and UnpackHeads/UnpackTails describe that layout once, over a list
 of component types; module AbiLoops holds the source's separate loops and ties each to them.
 */
module AbiCodec {
  import opened Results
  import opened ByteStrings
  import opened Hex
  import opened AbiType

  const WORD: nat := 32
  const MAX_ABI_OFFSET: nat := 0x1_0000_0000
  const MAX_INT32: nat := 0x7FFF_FFFF
  const MAX_INT64: nat := 0x7FFF_FFFF_FFFF_FFFF
  const MAX_DECODE_MEMORY: nat := 33554432
  const MAX_DECODE_ELEMENTS: nat := 1048576

  /** Panics stands for a Go run-time panic: a number of more than 32 bytes. */
  datatype PackError = TypeMismatch | SizeMismatch | BadHex | OffsetOverflow | Unsupported | Panics

  datatype UnpackError = ShortData | LengthOverflow | BadOffset | MemoryExceeded | ElementsExceeded | NoDecoder

  function Abs(n: int): nat {
    if n < 0 then -n else n
  }

  // ---------------------------------------------------------------- encoding

  /** bytes right-aligned in a word filled with `fill`. */
  function Padded(fill: byte, bytes: seq<byte>): Result<seq<byte>, PackError> {
    if |bytes| > WORD then Err(Panics) else Ok(Fill(fill, WORD - |bytes|) + bytes)
  }

  function PackNum(n: int, size: nat, signed: bool): Result<seq<byte>, PackError> {
    if signed && n < 0 then Padded(255, Minimal(Abs(n + Pow2(size))))
    else Padded(0, Minimal(Abs(n)))
  }

  function PaddedLength(length: nat): nat {
    (length + 31) / 32 * 32
  }

  /** A length word; no Go slice or string is longer than an int64. */
  function LengthWord(length: nat): Result<seq<byte>, PackError> {
    if length > MAX_INT64 then Err(Panics) else Padded(0, Minimal(length))
  }

  /** strings.TrimPrefix(s, "0x") */
  function TrimHex(s: seq<byte>): seq<byte> {
    if |s| >= 2 && s[0] == 48 && s[1] == 120 then s[2..] else s
  }

  function PackBytes(bytes: seq<byte>): Result<seq<byte>, PackError> {
    var word :- LengthWord(|bytes|);
    Ok(word + bytes + Fill(0, PaddedLength(|bytes|) - |bytes|))
  }

  function Pack(t: Type, v: Value): Result<seq<byte>, PackError>
    decreases Depth(t), 0
  {
    match t
    case UintTy(size) => if v.Number? then PackNum(v.n, size, false) else Err(TypeMismatch)
    case IntTy(size) => if v.Number? then PackNum(v.n, size, true) else Err(TypeMismatch)
    case BoolTy => if v.Boolean? then Ok(Fill(0, 31) + [if v.b then 1 else 0]) else Err(TypeMismatch)
    case AddressTy =>
      if v.Account? || v.Blob? then
        if |v.bytes| != 20 then Err(SizeMismatch) else Ok(Fill(0, 12) + v.bytes)
      else if v.Text? then
        if |TrimHex(v.bytes)| != 40 then Err(SizeMismatch) else
        var decoded := HexDecode(TrimHex(v.bytes));
        if decoded.None? then Err(BadHex) else Ok(Fill(0, 12) + decoded.value)
      else Err(TypeMismatch)
    case BytesTy => if v.Blob? || v.Text? then PackBytes(v.bytes) else Err(TypeMismatch)
    case StringTy => if v.Text? then PackBytes(v.bytes) else Err(TypeMismatch)
    case FixedBytesTy(size) =>
      if v.Array32? && |v.bytes| == WORD && size <= WORD then Ok(v.bytes[..size] + Fill(0, WORD - size))
      else if !v.Blob? then Err(TypeMismatch)
      else if |v.bytes| > size || |v.bytes| > WORD then Err(SizeMismatch)
      else Ok(v.bytes + Fill(0, WORD - |v.bytes|))
    case SliceTy(e) =>
      if !v.List? then Err(TypeMismatch) else
      var word :- LengthWord(|v.items|);
      var parts :- PackSeq(Repeat(e, |v.items|), v.items, 32 * |v.items|, 0);
      Ok(word + (parts.head + parts.tail))
    case ArrayTy(e, n) =>
      if !v.List? then Err(TypeMismatch)
      else if |v.items| != n then Err(SizeMismatch) else
      var parts :- PackSeq(Repeat(e, n), v.items, 32 * n, 0);
      Ok(parts.head + parts.tail)
    case TupleTy(ts) =>
      if !v.List? then Err(TypeMismatch)
      else if |v.items| != |ts| then Err(SizeMismatch) else
      var parts :- PackSeq(ts, v.items, HeadSize(ts), 0);
      Ok(parts.head + parts.tail)
    case FunctionTy => Err(Unsupported)
  }

  datatype Parts = Parts(head: seq<byte>, tail: seq<byte>)

  /** Head and tail of components ts/vs when tailLen tail bytes are already written. */
  function PackSeq(ts: seq<Type>, vs: seq<Value>, headSize: nat, tailLen: nat): Result<Parts, PackError>
    requires |ts| == |vs|
    decreases MaxDepth(ts), |ts| + 1
  {
    if ts == [] then Ok(Parts([], []))
    else if IsDynamic(ts[0]) then
      if headSize + tailLen > MAX_ABI_OFFSET then Err(OffsetOverflow) else
      var word :- Padded(0, Minimal(headSize + tailLen));
      var enc :- Pack(ts[0], vs[0]);
      var rest :- PackSeq(ts[1..], vs[1..], headSize, tailLen + |enc|);
      Ok(Parts(word + rest.head, enc + rest.tail))
    else
      var enc :- Pack(ts[0], vs[0]);
      var rest :- PackSeq(ts[1..], vs[1..], headSize, tailLen);
      Ok(Parts(enc + rest.head, rest.tail))
  }

  /** Arguments.Pack */
  function PackArguments(ts: seq<Type>, vs: seq<Value>): Result<seq<byte>, PackError> {
    if |vs| != |ts| then Err(SizeMismatch) else
    var parts :- PackSeq(ts, vs, HeadSize(ts), 0);
    Ok(parts.head + parts.tail)
  }

  // ---------------------------------------------------------------- decoding

  /** decodeState: what one Unpack call has been charged. Also used for the price of a value. */
  datatype Charge = Charge(memory: nat, elements: nat) {
    function Plus(c: Charge): Charge {
      Charge(memory + c.memory, elements + c.elements)
    }

    predicate WithinBudget() {
      memory <= MAX_DECODE_MEMORY && elements <= MAX_DECODE_ELEMENTS
    }
  }

  function Alloc(ds: Charge, n: nat): Result<Charge, UnpackError> {
    if ds.memory + n > MAX_DECODE_MEMORY then Err(MemoryExceeded) else Ok(ds.(memory := ds.memory + n))
  }

  function CountElement(ds: Charge): Result<Charge, UnpackError> {
    if ds.elements + 1 > MAX_DECODE_ELEMENTS then Err(ElementsExceeded) else Ok(ds.(elements := ds.elements + 1))
  }

  function ReadWord(data: seq<byte>, pos: nat): Result<seq<byte>, UnpackError> {
    if pos + WORD > |data| then Err(ShortData) else Ok(data[pos..pos + WORD])
  }

  /** Two's complement over the whole 256-bit word, whatever the declared size. */
  function NumberOf(word: seq<byte>, signed: bool): int
    requires word != []
  {
    if signed && word[0] >= 128 then ToNat(word) - Pow256(|word|) else ToNat(word)
  }

  function ReadLength(data: seq<byte>, pos: nat): Result<nat, UnpackError> {
    var word :- ReadWord(data, pos);
    if ToNat(word) > MAX_INT32 then Err(LengthOverflow) else Ok(ToNat(word))
  }

  function SafeOffset(data: seq<byte>, pos: nat): Result<nat, UnpackError> {
    var word :- ReadWord(data, pos);
    if ToNat(word) > MAX_INT64 || ToNat(word) > |data| then Err(BadOffset) else Ok(ToNat(word))
  }

  datatype Decoded = Decoded(value: Value, consumed: nat, ds: Charge)

  function UnpackBytes(data: seq<byte>, off: nat, ds: Charge): Result<(seq<byte>, Charge), UnpackError> {
    var length :- ReadLength(data, off);
    if off + WORD + length > |data| then Err(ShortData) else
    var ds1 :- Alloc(ds, length);
    Ok((data[off + WORD..off + WORD + length], ds1))
  }

  function Unpack(t: Type, data: seq<byte>, off: nat, ds: Charge): Result<Decoded, UnpackError>
    decreases Depth(t), 0
  {
    match t
    case UintTy(_) => var w :- ReadWord(data, off); Ok(Decoded(Number(NumberOf(w, false)), WORD, ds))
    case IntTy(_) => var w :- ReadWord(data, off); Ok(Decoded(Number(NumberOf(w, true)), WORD, ds))
    case BoolTy => var w :- ReadWord(data, off); Ok(Decoded(Boolean(w[31] != 0), WORD, ds))
    case AddressTy => var w :- ReadWord(data, off); Ok(Decoded(Account(w[12..]), WORD, ds))
    case BytesTy =>
      var r :- UnpackBytes(data, off, ds);
      Ok(Decoded(Blob(r.0), WORD + PaddedLength(|r.0|), r.1))
    case StringTy =>
      var r :- UnpackBytes(data, off, ds);
      Ok(Decoded(Text(r.0), WORD + PaddedLength(|r.0|), r.1))
    case FixedBytesTy(size) =>
      var w :- ReadWord(data, off);
      var ds1 :- Alloc(ds, size);
      Ok(Decoded(Blob(if size <= WORD then w[..size] else w), WORD, ds1))
    case SliceTy(e) =>
      var length :- ReadLength(data, off);
      if length > (|data| - (off + WORD)) / 32 then Err(ShortData) else
      var r :- UnpackElements(e, length, data, off + WORD, ds);
      Ok(Decoded(List(r.items), r.end - off, r.ds))
    case ArrayTy(e, n) =>
      if off > |data| then Err(ShortData)
      else if n > (|data| - off) / 32 then Err(ShortData) else
      var r :- UnpackElements(e, n, data, off, ds);
      Ok(Decoded(List(r.items), r.end - off, r.ds))
    case TupleTy(ts) =>
      var ds1 :- Alloc(ds, |ts| * 16);
      var ds2 :- CountElement(ds1);
      var r :- UnpackSeq(ts, data, off, ds2, false);
      Ok(Decoded(List(r.items), r.end - off, r.ds))
    case FunctionTy => Err(NoDecoder)
  }

  datatype Items = Items(items: seq<Value>, end: nat, ds: Charge)

  function UnpackElements(e: Type, n: nat, data: seq<byte>, base: nat, ds: Charge): (r: Result<Items, UnpackError>)
    ensures r.Ok? ==> r.value.end >= base
    decreases Depth(e), n + 3
  {
    var ds1 :- Alloc(ds, n * 16);
    var ds2 :- CountElement(ds1);
    UnpackSeq(Repeat(e, n), data, base, ds2, true)
  }

  /** Both passes over a list of components whose head starts at base. */
  function UnpackSeq(ts: seq<Type>, data: seq<byte>, base: nat, ds: Charge, counted: bool)
    : (r: Result<Items, UnpackError>)
    ensures r.Ok? ==> r.value.end >= base
    decreases MaxDepth(ts), |ts| + 2
  {
    var heads :- UnpackHeads(ts, data, base, ds, counted);
    var tails :- UnpackTails(ts, heads.slots, data, base, heads.ds);
    Ok(Items(tails.items, heads.end, tails.ds))
  }

  /** What the first pass leaves for a component: its value, or where its tail starts. */
  datatype Slot = Filled(value: Value) | Pending(offset: nat)

  datatype Heads = Heads(slots: seq<Slot>, end: nat, ds: Charge)

  /** First pass. `counted` charges one element per static component (slices and arrays only). */
  function UnpackHeads(ts: seq<Type>, data: seq<byte>, pos: nat, ds: Charge, counted: bool)
    : (r: Result<Heads, UnpackError>)
    ensures r.Ok? ==> |r.value.slots| == |ts| && r.value.end >= pos
    decreases MaxDepth(ts), |ts| + 1
  {
    if ts == [] then Ok(Heads([], pos, ds))
    else if IsDynamic(ts[0]) then
      var o :- SafeOffset(data, pos);
      var rest :- UnpackHeads(ts[1..], data, pos + 32, ds, counted);
      Ok(Heads([Pending(o)] + rest.slots, rest.end, rest.ds))
    else
      var ds1 :- if counted then CountElement(ds) else Ok(ds);
      var d :- Unpack(ts[0], data, pos, ds1);
      var rest :- UnpackHeads(ts[1..], data, pos + d.consumed, d.ds, counted);
      Ok(Heads([Filled(d.value)] + rest.slots, rest.end, rest.ds))
  }

  datatype Tails = Tails(items: seq<Value>, ds: Charge)

  /** Second pass: decode what is still pending, at offsets relative to base. */
  function UnpackTails(ts: seq<Type>, slots: seq<Slot>, data: seq<byte>, base: nat, ds: Charge)
    : (r: Result<Tails, UnpackError>)
    requires |slots| == |ts|
    ensures r.Ok? ==> |r.value.items| == |ts|
    decreases MaxDepth(ts), |ts| + 1
  {
    if ts == [] then Ok(Tails([], ds))
    else match slots[0]
      case Filled(v) =>
        var rest :- UnpackTails(ts[1..], slots[1..], data, base, ds);
        Ok(Tails([v] + rest.items, rest.ds))
      case Pending(o) =>
        var d :- Unpack(ts[0], data, base + o, ds);
        var rest :- UnpackTails(ts[1..], slots[1..], data, base, d.ds);
        Ok(Tails([d.value] + rest.items, rest.ds))
  }

  /** Arguments.Unpack */
  function UnpackArguments(ts: seq<Type>, data: seq<byte>): Result<Items, UnpackError> {
    if data == [] then
      if ts == [] then Ok(Items([], 0, Charge(0, 0))) else Err(ShortData)
    else UnpackSeq(ts, data, 0, Charge(0, 0), false)
  }
}
