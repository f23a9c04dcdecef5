/**
 The encoder and decoder as the source writes them: loops growing head and tail buffers, two passes
 over a tuple, and a decodeState charged along the way. Each is proved to compute the function of
 module AbiCodec it stands for, so what is proved of those functions holds of these loops.
 */
module AbiLoops {
  import opened Results
  import opened ByteStrings
  import opened Hex
  import opened AbiType
  import opened AbiCodec

  // ---------------------------------------------------------------- encoding

  /** Parts already written, then the parts of the remaining components. */
  function Join(head: seq<byte>, tail: seq<byte>, rest: Result<Parts, PackError>): Result<Parts, PackError> {
    if rest.Err? then rest else Ok(Parts(head + rest.value.head, tail + rest.value.tail))
  }

  function Flat(r: Result<Parts, PackError>): Result<seq<byte>, PackError> {
    if r.Err? then Err(r.error) else Ok(r.value.head + r.value.tail)
  }

  lemma JoinTwice(h: seq<byte>, t: seq<byte>, h': seq<byte>, t': seq<byte>, rest: Result<Parts, PackError>)
    ensures Join(h, t, Join(h', t', rest)) == Join(h + h', t + t', rest)
  {
    if rest.Ok? {
      assert h + (h' + rest.value.head) == h + h' + rest.value.head;
      assert t + (t' + rest.value.tail) == t + t' + rest.value.tail;
    }
  }

  lemma JoinNothing(rest: Result<Parts, PackError>)
    ensures Join([], [], rest) == rest
  {
    if rest.Ok? {
      assert [] + rest.value.head == rest.value.head && [] + rest.value.tail == rest.value.tail;
    }
  }

  /** One component of PackSeq. */
  lemma PackStep(ts: seq<Type>, vs: seq<Value>, hs: nat, tl: nat)
    requires |ts| == |vs| && ts != []
    ensures var enc := Pack(ts[0], vs[0]); var word := Padded(0, Minimal(hs + tl));
            PackSeq(ts, vs, hs, tl) ==
            if IsDynamic(ts[0]) then
              if hs + tl > MAX_ABI_OFFSET then Err(OffsetOverflow)
              else if word.Err? then Err(word.error)
              else if enc.Err? then Err(enc.error)
              else Join(word.value, enc.value, PackSeq(ts[1..], vs[1..], hs, tl + |enc.value|))
            else if enc.Err? then Err(enc.error)
            else Join(enc.value, [], PackSeq(ts[1..], vs[1..], hs, tl))
  {
    hide Pack, IsDynamic, MaxDepth, Minimal;
    if !IsDynamic(ts[0]) && Pack(ts[0], vs[0]).Ok? {
      var rest := PackSeq(ts[1..], vs[1..], hs, tl);
      if rest.Ok? {
        assert [] + rest.value.tail == rest.value.tail;
      }
    }
  }

  lemma {:induction false} DepthAt(ts: seq<Type>, i: nat)
    requires i < |ts|
    ensures Depth(ts[i]) <= MaxDepth(ts)
  {
    if i > 0 {
      DepthAt(ts[1..], i - 1);
    }
  }

  lemma {:induction false} RepeatAt(t: Type, n: nat, i: nat)
    requires i < n
    ensures Repeat(t, n)[i] == t
  {
    if i > 0 {
      RepeatAt(t, n - 1, i - 1);
    }
  }

  lemma {:induction false} HeadSizeSplit(ts: seq<Type>, i: nat)
    requires i < |ts|
    ensures HeadSize(ts[..i + 1]) == HeadSize(ts[..i]) + (if IsDynamic(ts[i]) then 32 else GetSize(ts[i]))
  {
    if i == 0 {
      assert ts[..1][1..] == [];
    } else {
      HeadSizeSplit(ts[1..], i - 1);
      assert ts[..i + 1][1..] == ts[1..][..i];
      assert ts[..i][1..] == ts[1..][..i - 1];
      assert ts[1..][i - 1] == ts[i];
    }
  }

  /** packNum: a zeroed or 0xFF-filled word, the number's bytes copied over its end. */
  method PackNumber(n: int, size: nat, signed: bool) returns (r: Result<seq<byte>, PackError>)
    ensures r == PackNum(n, size, signed)
  {
    var word := new byte[WORD](_ => 0);
    var bytes := Minimal(Abs(n));
    ghost var fill: byte := 0;
    if signed && n < 0 {
      fill := 255;
      for i := 0 to WORD
        invariant forall k | 0 <= k < i :: word[k] == 255
      {
        word[i] := 255;
      }
      bytes := Minimal(Abs(n + Pow2(size)));
    }
    if |bytes| > WORD {
      return Err(Panics);
    }
    var start := WORD - |bytes|;
    for i := 0 to |bytes|
      invariant forall k | 0 <= k < start :: word[k] == fill
      invariant forall k | 0 <= k < i :: word[start + k] == bytes[k]
    {
      word[start + i] := bytes[i];
    }
    assert word[..] == Fill(fill, start) + bytes;
    r := Ok(word[..]);
  }

  /** Type.pack */
  method PackValue(t: Type, v: Value) returns (r: Result<seq<byte>, PackError>)
    ensures r == Pack(t, v)
    decreases Depth(t), 0
  {
    match t {
      case UintTy(size) =>
        if v.Number? { r := PackNumber(v.n, size, false); } else { r := Err(TypeMismatch); }
      case IntTy(size) =>
        if v.Number? { r := PackNumber(v.n, size, true); } else { r := Err(TypeMismatch); }
      case SliceTy(e) =>
        if !v.List? { return Err(TypeMismatch); }
        var word :- LengthWord(|v.items|);
        var body :- PackElements(v.items, e);
        r := Ok(word + body);
      case ArrayTy(e, n) =>
        if !v.List? { return Err(TypeMismatch); }
        if |v.items| != n { return Err(SizeMismatch); }
        r := PackElements(v.items, e);
      case TupleTy(ts) =>
        if !v.List? { return Err(TypeMismatch); }
        r := PackTuple(v.items, ts);
      case AddressTy => r := PackAddress(v);
      case _ => r := Pack(t, v);
    }
  }

  /** packAddress: 20 bytes, or their hex text with or without 0x. */
  method PackAddress(v: Value) returns (r: Result<seq<byte>, PackError>)
    ensures r == Pack(AddressTy, v)
  {
    hide HexDecode;
    if v.Account? || v.Blob? {
      if |v.bytes| != 20 {
        return Err(SizeMismatch);
      }
      return Ok(Fill(0, 12) + v.bytes);
    }
    if !v.Text? {
      return Err(TypeMismatch);
    }
    var addr := TrimHex(v.bytes);
    if |addr| != 40 {
      return Err(SizeMismatch);
    }
    var bytes := DecodeHex(addr);
    if bytes.None? {
      return Err(BadHex);
    }
    return Ok(Fill(0, 12) + bytes.value);
  }

  /** hexDecode: two characters at a time into a buffer of half the length. */
  method DecodeHex(s: seq<byte>) returns (r: Option<seq<byte>>)
    ensures r == HexDecode(s)
  {
    hide HexDecode, PairValue;
    HexDecodeLength(s);
    if |s| % 2 != 0 {
      return None;
    }
    var result := new byte[|s| / 2](_ => 0);
    var i := 0;
    assert s[0..] == s && result[..0] == [];
    PrependNothing(HexDecode(s));
    while i < |s|
      invariant 0 <= i <= |s| && i % 2 == 0
      invariant HexDecode(s) == Prepend(result[..i / 2], HexDecode(s[i..]))
    {
      var b := PairValue(s[i], s[i + 1]);
      DecodeStep(s, i);
      if b.None? {
        return None;
      }
      ghost var done := result[..i / 2];
      result[i / 2] := b.value;
      assert result[..i / 2 + 1] == done + [b.value];
      PrependTwice(done, b.value, HexDecode(s[i + 2..]));
      i := i + 2;
    }
    DecodeNothing(s, i, result[..i / 2]);
    assert result[..|s| / 2] == result[..];
    return Some(result[..]);
  }

  ghost function Prepend(done: seq<byte>, rest: Option<seq<byte>>): Option<seq<byte>> {
    if rest.None? then None else Some(done + rest.value)
  }

  lemma PrependNothing(rest: Option<seq<byte>>)
    ensures Prepend([], rest) == rest
  {
    if rest.Some? {
      assert [] + rest.value == rest.value;
    }
  }

  lemma PrependTwice(done: seq<byte>, b: byte, rest: Option<seq<byte>>)
    ensures Prepend(done, Prepend([b], rest)) == Prepend(done + [b], rest)
  {
    if rest.Some? {
      assert done + ([b] + rest.value) == done + [b] + rest.value;
    }
  }

  lemma DecodeStep(s: seq<byte>, i: nat)
    requires i + 1 < |s|
    ensures HexDecode(s[i..])
         == if PairValue(s[i], s[i + 1]).None? then None
           else Prepend([PairValue(s[i], s[i + 1]).value], HexDecode(s[i + 2..]))
  {
    assert s[i..][2..] == s[i + 2..];
  }

  lemma DecodeNothing(s: seq<byte>, i: nat, done: seq<byte>)
    requires i == |s|
    ensures Prepend(done, HexDecode(s[i..])) == Some(done)
  {
    assert s[i..] == [] && done + [] == done;
  }

  method PackElements(vs: seq<Value>, e: Type) returns (r: Result<seq<byte>, PackError>)
    ensures r == Flat(PackSeq(Repeat(e, |vs|), vs, 32 * |vs|, 0))
    decreases Depth(e), 1
  {
    hide PackSeq, Pack, IsDynamic;
    var n := |vs|;
    ghost var ts := Repeat(e, n);
    ghost var whole := PackSeq(ts, vs, 32 * n, 0);
    JoinNothing(whole);
    assert ts[0..] == ts && vs[0..] == vs;
    if IsDynamic(e) {
      var offsets: seq<byte>, data: seq<byte> := [], [];
      var baseOffset := n * 32;
      for i := 0 to n
        invariant whole == Join(offsets, data, PackSeq(ts[i..], vs[i..], 32 * n, |data|))
      {
        RepeatAt(e, n, i);
        PackStep(ts[i..], vs[i..], 32 * n, |data|);
        if baseOffset + |data| > MAX_ABI_OFFSET {
          return Err(OffsetOverflow);
        }
        var offsetBytes :- Padded(0, Minimal(baseOffset + |data|));
        var elemData :- PackValue(e, vs[i]);
        assert ts[i..][1..] == ts[i + 1..] && vs[i..][1..] == vs[i + 1..];
        JoinTwice(offsets, data, offsetBytes, elemData, PackSeq(ts[i + 1..], vs[i + 1..], 32 * n, |data| + |elemData|));
        offsets := offsets + offsetBytes;
        data := data + elemData;
      }
      NothingLeft(ts[n..], vs[n..], 32 * n, |data|, offsets, data);
      return Ok(offsets + data);
    }
    var result: seq<byte> := [];
    ghost var none: seq<byte> := [];
    assert none + none == none;
    for i := 0 to n
      invariant whole == Join(result, [], PackSeq(ts[i..], vs[i..], 32 * n, 0))
    {
      RepeatAt(e, n, i);
      PackStep(ts[i..], vs[i..], 32 * n, 0);
      var elemData :- PackValue(e, vs[i]);
      assert ts[i..][1..] == ts[i + 1..] && vs[i..][1..] == vs[i + 1..];
      JoinTwice(result, [], elemData, [], PackSeq(ts[i + 1..], vs[i + 1..], 32 * n, 0));
      result := result + elemData;
    }
    NothingLeft(ts[n..], vs[n..], 32 * n, 0, result, []);
    r := Ok(result);
  }

  lemma NothingLeft(ts: seq<Type>, vs: seq<Value>, hs: nat, tl: nat, head: seq<byte>, tail: seq<byte>)
    requires ts == [] && vs == []
    ensures Flat(Join(head, tail, PackSeq(ts, vs, hs, tl))) == Ok(head + tail)
    ensures tail == [] ==> head + tail == head
  {
    assert PackSeq(ts, vs, hs, tl) == Ok(Parts([], []));
    assert head + [] == head && tail + [] == tail;
  }

  method PackTuple(vs: seq<Value>, ts: seq<Type>) returns (r: Result<seq<byte>, PackError>)
    ensures r == if |vs| != |ts| then Err(SizeMismatch) else Flat(PackSeq(ts, vs, HeadSize(ts), 0))
    decreases MaxDepth(ts), 1
  {
    hide PackSeq, Pack, IsDynamic, GetSize, HeadSize;
    if |vs| != |ts| {
      return Err(SizeMismatch);
    }
    var headSize := HeadBytes(ts);
    ghost var whole := PackSeq(ts, vs, headSize, 0);
    JoinNothing(whole);
    assert ts[0..] == ts && vs[0..] == vs;
    var head: seq<byte>, tail: seq<byte> := [], [];
    for i := 0 to |ts|
      invariant whole == Join(head, tail, PackSeq(ts[i..], vs[i..], headSize, |tail|))
    {
      DepthAt(ts, i);
      PackStep(ts[i..], vs[i..], headSize, |tail|);
      assert ts[i..][1..] == ts[i + 1..] && vs[i..][1..] == vs[i + 1..];
      if IsDynamic(ts[i]) {
        if headSize + |tail| > MAX_ABI_OFFSET {
          return Err(OffsetOverflow);
        }
        var offsetBytes :- Padded(0, Minimal(headSize + |tail|));
        var data :- PackValue(ts[i], vs[i]);
        JoinTwice(head, tail, offsetBytes, data, PackSeq(ts[i + 1..], vs[i + 1..], headSize, |tail| + |data|));
        head := head + offsetBytes;
        tail := tail + data;
      } else {
        var data :- PackValue(ts[i], vs[i]);
        JoinTwice(head, tail, data, [], PackSeq(ts[i + 1..], vs[i + 1..], headSize, |tail|));
        assert tail + [] == tail;
        head := head + data;
      }
    }
    NothingLeft(ts[|ts|..], vs[|ts|..], headSize, |tail|, head, tail);
    r := Ok(head + tail);
  }

  /** The head-size loop of packTuple and Arguments.Pack. */
  method HeadBytes(ts: seq<Type>) returns (headSize: nat)
    ensures headSize == HeadSize(ts)
  {
    headSize := 0;
    for i := 0 to |ts|
      invariant headSize == HeadSize(ts[..i])
    {
      HeadSizeSplit(ts, i);
      headSize := headSize + if IsDynamic(ts[i]) then 32 else GetSize(ts[i]);
    }
    assert ts[..|ts|] == ts;
  }

  /** Arguments.Pack, the same loop over the argument types. */
  method PackAll(ts: seq<Type>, vs: seq<Value>) returns (r: Result<seq<byte>, PackError>)
    ensures r == PackArguments(ts, vs)
  {
    hide PackSeq, HeadSize;
    r := PackTuple(vs, ts);
  }

  // ---------------------------------------------------------------- decoding

  class DecodeState {
    var totalAllocated: nat
    var totalElements: nat

    ghost function Charged(): Charge
      reads this
    {
      Charge(totalAllocated, totalElements)
    }

    constructor ()
      ensures Charged() == Charge(0, 0)
    {
      totalAllocated, totalElements := 0, 0;
    }

    /** decodeState.alloc: a refused charge leaves the state alone. */
    method Allocate(n: nat) returns (r: Result<(), UnpackError>)
      modifies this
      ensures var c := Alloc(old(Charged()), n);
              match c
              case Ok(after) => r == Ok(()) && Charged() == after
              case Err(e) => r == Err(e) && Charged() == old(Charged())
    {
      if totalAllocated + n > MAX_DECODE_MEMORY {
        return Err(MemoryExceeded);
      }
      totalAllocated := totalAllocated + n;
      r := Ok(());
    }

    /** decodeState.elem: counts first, then compares, so a refused element stays counted. */
    method CountOne() returns (r: Result<(), UnpackError>)
      modifies this
      ensures Charged() == old(Charged()).Plus(Charge(0, 1))
      ensures var c := CountElement(old(Charged()));
              match c
              case Ok(after) => r == Ok(()) && Charged() == after
              case Err(e) => r == Err(e)
    {
      totalElements := totalElements + 1;
      if totalElements > MAX_DECODE_ELEMENTS {
        return Err(ElementsExceeded);
      }
      r := Ok(());
    }
  }

  /** r and the charge after the call are what the function `spec` says. */
  ghost predicate Decodes(spec: Result<Decoded, UnpackError>, r: Result<(Value, nat), UnpackError>, after: Charge) {
    match spec
    case Ok(d) => r == Ok((d.value, d.consumed)) && after == d.ds
    case Err(e) => r == Err(e)
  }

  ghost predicate DecodesItems(spec: Result<Items, UnpackError>, r: Result<(seq<Value>, nat), UnpackError>,
      after: Charge) {
    match spec
    case Ok(d) => r == Ok((d.items, d.end)) && after == d.ds
    case Err(e) => r == Err(e)
  }

  function JoinHeads(done: seq<Slot>, rest: Result<Heads, UnpackError>): Result<Heads, UnpackError> {
    if rest.Err? then rest else Ok(Heads(done + rest.value.slots, rest.value.end, rest.value.ds))
  }

  function JoinTails(done: seq<Value>, rest: Result<Tails, UnpackError>): Result<Tails, UnpackError> {
    if rest.Err? then rest else Ok(Tails(done + rest.value.items, rest.value.ds))
  }

  lemma JoinHeadsMore(done: seq<Slot>, s: Slot, rest: Result<Heads, UnpackError>)
    ensures JoinHeads(done, JoinHeads([s], rest)) == JoinHeads(done + [s], rest)
  {
    if rest.Ok? {
      assert done + ([s] + rest.value.slots) == done + [s] + rest.value.slots;
    }
  }

  lemma JoinTailsMore(done: seq<Value>, v: Value, rest: Result<Tails, UnpackError>)
    ensures JoinTails(done, JoinTails([v], rest)) == JoinTails(done + [v], rest)
  {
    if rest.Ok? {
      assert done + ([v] + rest.value.items) == done + [v] + rest.value.items;
    }
  }

  lemma JoinHeadsNothing(rest: Result<Heads, UnpackError>)
    ensures JoinHeads([], rest) == rest
  {
    if rest.Ok? {
      assert [] + rest.value.slots == rest.value.slots;
    }
  }

  lemma JoinTailsNothing(rest: Result<Tails, UnpackError>)
    ensures JoinTails([], rest) == rest
  {
    if rest.Ok? {
      assert [] + rest.value.items == rest.value.items;
    }
  }

  /** One component of the first pass. */
  lemma {:induction false} HeadsUnfold(ts: seq<Type>, data: seq<byte>, pos: nat, ds: Charge, counted: bool)
    ensures ts == [] ==> UnpackHeads(ts, data, pos, ds, counted) == Ok(Heads([], pos, ds))
    ensures ts != [] && IsDynamic(ts[0]) ==>
              var o := SafeOffset(data, pos);
              UnpackHeads(ts, data, pos, ds, counted) ==
              if o.Err? then Err(o.error)
              else JoinHeads([Pending(o.value)], UnpackHeads(ts[1..], data, pos + 32, ds, counted))
    ensures ts != [] && !IsDynamic(ts[0]) ==>
              var c := if counted then CountElement(ds) else Ok(ds);
              UnpackHeads(ts, data, pos, ds, counted) ==
              if c.Err? then Err(c.error) else
              var d := Unpack(ts[0], data, pos, c.value);
              if d.Err? then Err(d.error)
              else JoinHeads([Filled(d.value.value)],
                             UnpackHeads(ts[1..], data, pos + d.value.consumed, d.value.ds, counted))
  {
    hide Unpack, IsDynamic, SafeOffset, MaxDepth, Depth;
  }

  /** One component of the second pass. */
  lemma {:induction false} TailsUnfold(ts: seq<Type>, slots: seq<Slot>, data: seq<byte>, base: nat, ds: Charge)
    requires |slots| == |ts|
    ensures ts == [] ==> UnpackTails(ts, slots, data, base, ds) == Ok(Tails([], ds))
    ensures ts != [] && slots[0].Filled? ==>
              UnpackTails(ts, slots, data, base, ds) ==
              JoinTails([slots[0].value], UnpackTails(ts[1..], slots[1..], data, base, ds))
    ensures ts != [] && slots[0].Pending? ==>
              var d := Unpack(ts[0], data, base + slots[0].offset, ds);
              UnpackTails(ts, slots, data, base, ds) ==
              if d.Err? then Err(d.error)
              else JoinTails([d.value.value], UnpackTails(ts[1..], slots[1..], data, base, d.value.ds))
  {
    hide Unpack, MaxDepth, Depth;
  }

  /** Type.unpack */
  method UnpackValue(t: Type, data: seq<byte>, off: nat, ds: DecodeState) returns (r: Result<(Value, nat), UnpackError>)
    modifies ds
    ensures Decodes(Unpack(t, data, off, old(ds.Charged())), r, ds.Charged())
    decreases Depth(t), 0
  {
    hide UnpackElements, UnpackSeq, UnpackBytes, ToNat, NumberOf, Pow256, PaddedLength;
    match t {
      case BytesTy =>
        var bytes :- UnpackBlob(data, off, ds);
        r := Ok((Blob(bytes), WORD + PaddedLength(|bytes|)));
      case StringTy =>
        var bytes :- UnpackBlob(data, off, ds);
        r := Ok((Text(bytes), WORD + PaddedLength(|bytes|)));
      case FixedBytesTy(size) =>
        var w :- ReadWord(data, off);
        var _ :- ds.Allocate(size);
        r := Ok((Blob(if size <= WORD then w[..size] else w), WORD));
      case SliceTy(e) =>
        var length :- ReadLength(data, off);
        if length > (|data| - (off + WORD)) / 32 {
          return Err(ShortData);
        }
        var items :- UnpackItems(e, length, data, off + WORD, ds);
        r := Ok((List(items.0), items.1 - off));
      case ArrayTy(e, n) =>
        if off > |data| {
          return Err(ShortData);
        }
        if n > (|data| - off) / 32 {
          return Err(ShortData);
        }
        var items :- UnpackItems(e, n, data, off, ds);
        r := Ok((List(items.0), items.1 - off));
      case TupleTy(ts) =>
        var _ :- ds.Allocate(|ts| * 16);
        var _ :- ds.CountOne();
        var items :- UnpackComponents(ts, data, off, ds);
        r := Ok((List(items.0), items.1 - off));
      case FunctionTy => r := Err(NoDecoder);
      case _ =>
        var d :- Unpack(t, data, off, Charge(0, 0));
        r := Ok((d.value, d.consumed));
    }
  }

  method UnpackBlob(data: seq<byte>, off: nat, ds: DecodeState) returns (r: Result<seq<byte>, UnpackError>)
    modifies ds
    ensures match UnpackBytes(data, off, old(ds.Charged()))
            case Ok(p) => r == Ok(p.0) && ds.Charged() == p.1
            case Err(e) => r == Err(e)
  {
    var length :- ReadLength(data, off);
    if off + WORD + length > |data| {
      return Err(ShortData);
    }
    var _ :- ds.Allocate(length);
    r := Ok(data[off + WORD..off + WORD + length]);
  }

  /** The part unpackSlice and unpackArray share: charge the list, then decode its elements. */
  method UnpackItems(e: Type, n: nat, data: seq<byte>, base: nat, ds: DecodeState)
    returns (r: Result<(seq<Value>, nat), UnpackError>)
    modifies ds
    ensures DecodesItems(UnpackElements(e, n, data, base, old(ds.Charged())), r, ds.Charged())
    ensures r.Ok? ==> r.value.1 >= base
    decreases Depth(e), 2
  {
    hide UnpackSeq;
    var _ :- ds.Allocate(n * 16);
    var _ :- ds.CountOne();
    if IsDynamic(e) {
      r := UnpackDynamicItems(e, n, data, base, ds);
    } else {
      r := UnpackStaticItems(e, n, data, base, ds);
    }
  }

  method UnpackStaticItems(e: Type, n: nat, data: seq<byte>, base: nat, ds: DecodeState)
    returns (r: Result<(seq<Value>, nat), UnpackError>)
    requires !IsDynamic(e)
    modifies ds
    ensures DecodesItems(UnpackSeq(Repeat(e, n), data, base, old(ds.Charged()), true), r, ds.Charged())
    decreases Depth(e), 1
  {
    hide UnpackHeads, UnpackTails, Unpack, IsDynamic;
    ghost var ts := Repeat(e, n);
    ghost var heads := UnpackHeads(ts, data, base, ds.Charged(), true);
    ghost var slots: seq<Slot> := [];
    var result: seq<Value> := [];
    var currentOffset := base;
    JoinHeadsNothing(heads);
    assert ts[0..] == ts;
    for i := 0 to n
      invariant |result| == |slots| == i
      invariant forall k | 0 <= k < i :: slots[k] == Filled(result[k])
      invariant heads == JoinHeads(slots, UnpackHeads(ts[i..], data, currentOffset, ds.Charged(), true))
    {
      RepeatAt(e, n, i);
      HeadsUnfold(ts[i..], data, currentOffset, ds.Charged(), true);
      assert ts[i..][1..] == ts[i + 1..];
      var _ :- ds.CountOne();
      var elem :- UnpackValue(e, data, currentOffset, ds);
      JoinHeadsMore(slots, Filled(elem.0), UnpackHeads(ts[i + 1..], data, currentOffset + elem.1, ds.Charged(), true));
      result := result + [elem.0];
      slots := slots + [Filled(elem.0)];
      currentOffset := currentOffset + elem.1;
    }
    HeadsUnfold(ts[n..], data, currentOffset, ds.Charged(), true);
    assert slots + [] == slots;
    AllFilled(ts, slots, result, data, base, ds.Charged());
    r := Ok((result, currentOffset));
  }

  lemma {:induction false} AllFilled(ts: seq<Type>, slots: seq<Slot>, vs: seq<Value>, data: seq<byte>, base: nat,
      ds: Charge)
    requires |ts| == |slots| == |vs| && forall k | 0 <= k < |vs| :: slots[k] == Filled(vs[k])
    ensures UnpackTails(ts, slots, data, base, ds) == Ok(Tails(vs, ds))
  {
    hide UnpackTails;
    TailsUnfold(ts, slots, data, base, ds);
    if ts != [] {
      AllFilled(ts[1..], slots[1..], vs[1..], data, base, ds);
      assert [vs[0]] + vs[1..] == vs;
    }
  }

  method UnpackDynamicItems(e: Type, n: nat, data: seq<byte>, base: nat, ds: DecodeState)
    returns (r: Result<(seq<Value>, nat), UnpackError>)
    requires IsDynamic(e)
    modifies ds
    ensures DecodesItems(UnpackSeq(Repeat(e, n), data, base, old(ds.Charged()), true), r, ds.Charged())
    decreases Depth(e), 1
  {
    hide UnpackHeads, UnpackTails, Unpack, IsDynamic;
    ghost var ts := Repeat(e, n);
    ghost var heads := UnpackHeads(ts, data, base, ds.Charged(), true);
    ghost var slots: seq<Slot> := [];
    var offsets: seq<nat> := [];
    var currentOffset := base;
    JoinHeadsNothing(heads);
    assert ts[0..] == ts;
    for i := 0 to n
      invariant |offsets| == |slots| == i
      invariant forall k | 0 <= k < i :: slots[k] == Pending(offsets[k])
      invariant heads == JoinHeads(slots, UnpackHeads(ts[i..], data, currentOffset, ds.Charged(), true))
      invariant ds.Charged() == old(ds.Charged())
    {
      RepeatAt(e, n, i);
      HeadsUnfold(ts[i..], data, currentOffset, ds.Charged(), true);
      assert ts[i..][1..] == ts[i + 1..];
      var o :- SafeOffset(data, currentOffset);
      JoinHeadsMore(slots, Pending(o), UnpackHeads(ts[i + 1..], data, currentOffset + 32, ds.Charged(), true));
      offsets := offsets + [o];
      slots := slots + [Pending(o)];
      currentOffset := currentOffset + 32;
    }
    HeadsUnfold(ts[n..], data, currentOffset, ds.Charged(), true);
    assert slots + [] == slots;
    ghost var tails := UnpackTails(ts, slots, data, base, ds.Charged());
    var result: seq<Value> := [];
    JoinTailsNothing(tails);
    assert slots[0..] == slots;
    for i := 0 to n
      invariant |result| == i
      invariant tails == JoinTails(result, UnpackTails(ts[i..], slots[i..], data, base, ds.Charged()))
    {
      RepeatAt(e, n, i);
      TailsUnfold(ts[i..], slots[i..], data, base, ds.Charged());
      assert ts[i..][1..] == ts[i + 1..] && slots[i..][1..] == slots[i + 1..];
      var elem :- UnpackValue(e, data, base + offsets[i], ds);
      JoinTailsMore(result, elem.0, UnpackTails(ts[i + 1..], slots[i + 1..], data, base, ds.Charged()));
      result := result + [elem.0];
    }
    TailsUnfold(ts[n..], slots[n..], data, base, ds.Charged());
    assert result + [] == result;
    r := Ok((result, currentOffset));
  }

  /** What the first pass leaves in its two arrays, as slots. */
  ghost function SlotsOf(ts: seq<Type>, values: seq<Value>, offsets: seq<nat>): (slots: seq<Slot>)
    requires |ts| == |values| == |offsets|
    ensures |slots| == |ts|
  {
    seq(|ts|, k requires 0 <= k < |ts| => if IsDynamic(ts[k]) then Pending(offsets[k]) else Filled(values[k]))
  }

  /** The two passes of unpackTuple and Arguments.Unpack. */
  method UnpackComponents(ts: seq<Type>, data: seq<byte>, base: nat, ds: DecodeState)
    returns (r: Result<(seq<Value>, nat), UnpackError>)
    modifies ds
    ensures DecodesItems(UnpackSeq(ts, data, base, old(ds.Charged()), false), r, ds.Charged())
    decreases MaxDepth(ts), 2
  {
    hide UnpackHeads, UnpackTails, Unpack, IsDynamic;
    var result := new Value[|ts|];
    var dynamicOffsets := new nat[|ts|];
    var end :- ReadHeads(ts, data, base, ds, result, dynamicOffsets);
    var _ :- ReadTails(ts, data, base, ds, result, dynamicOffsets);
    r := Ok((result[..], end));
  }

  method ReadHeads(ts: seq<Type>, data: seq<byte>, base: nat, ds: DecodeState, result: array<Value>,
      dynamicOffsets: array<nat>)
    returns (r: Result<nat, UnpackError>)
    requires result.Length == dynamicOffsets.Length == |ts|
    modifies ds, result, dynamicOffsets
    ensures match UnpackHeads(ts, data, base, old(ds.Charged()), false)
            case Ok(h) => r == Ok(h.end) && ds.Charged() == h.ds
              && h.slots == SlotsOf(ts, result[..], dynamicOffsets[..])
            case Err(e) => r == Err(e)
    decreases MaxDepth(ts), 1
  {
    hide UnpackHeads, Unpack, IsDynamic;
    ghost var heads := UnpackHeads(ts, data, base, ds.Charged(), false);
    ghost var slots: seq<Slot> := [];
    var currentOffset := base;
    JoinHeadsNothing(heads);
    assert ts[0..] == ts;
    for i := 0 to |ts|
      invariant |slots| == i
      invariant forall k | 0 <= k < i :: slots[k] == if IsDynamic(ts[k]) then Pending(dynamicOffsets[k])
                else Filled(result[k])
      invariant heads == JoinHeads(slots, UnpackHeads(ts[i..], data, currentOffset, ds.Charged(), false))
    {
      DepthAt(ts, i);
      HeadsUnfold(ts[i..], data, currentOffset, ds.Charged(), false);
      assert ts[i..][1..] == ts[i + 1..];
      if IsDynamic(ts[i]) {
        var o :- SafeOffset(data, currentOffset);
        JoinHeadsMore(slots, Pending(o), UnpackHeads(ts[i + 1..], data, currentOffset + 32, ds.Charged(), false));
        dynamicOffsets[i] := o;
        slots := slots + [Pending(o)];
        currentOffset := currentOffset + 32;
      } else {
        var val :- UnpackValue(ts[i], data, currentOffset, ds);
        JoinHeadsMore(slots, Filled(val.0), UnpackHeads(ts[i + 1..], data, currentOffset + val.1, ds.Charged(), false));
        result[i] := val.0;
        slots := slots + [Filled(val.0)];
        currentOffset := currentOffset + val.1;
      }
    }
    HeadsUnfold(ts[|ts|..], data, currentOffset, ds.Charged(), false);
    assert slots + [] == slots == SlotsOf(ts, result[..], dynamicOffsets[..]);
    r := Ok(currentOffset);
  }

  method ReadTails(ts: seq<Type>, data: seq<byte>, base: nat, ds: DecodeState, result: array<Value>,
      dynamicOffsets: array<nat>)
    returns (r: Result<(), UnpackError>)
    requires result.Length == dynamicOffsets.Length == |ts|
    modifies ds, result
    ensures match UnpackTails(ts, old(SlotsOf(ts, result[..], dynamicOffsets[..])), data, base, old(ds.Charged()))
            case Ok(t) => r == Ok(()) && ds.Charged() == t.ds && result[..] == t.items
            case Err(e) => r == Err(e)
    decreases MaxDepth(ts), 1
  {
    hide UnpackTails, Unpack, IsDynamic;
    ghost var slots := SlotsOf(ts, result[..], dynamicOffsets[..]);
    ghost var tails := UnpackTails(ts, slots, data, base, ds.Charged());
    JoinTailsNothing(tails);
    assert ts[0..] == ts && slots[0..] == slots && result[..0] == [];
    for i := 0 to |ts|
      invariant forall k | i <= k < |ts| && !IsDynamic(ts[k]) :: slots[k] == Filled(result[k])
      invariant tails == JoinTails(result[..i], UnpackTails(ts[i..], slots[i..], data, base, ds.Charged()))
    {
      DepthAt(ts, i);
      TailsUnfold(ts[i..], slots[i..], data, base, ds.Charged());
      assert ts[i..][1..] == ts[i + 1..] && slots[i..][1..] == slots[i + 1..];
      if IsDynamic(ts[i]) {
        var val :- UnpackValue(ts[i], data, base + dynamicOffsets[i], ds);
        result[i] := val.0;
      }
      JoinTailsMore(result[..i], result[i], UnpackTails(ts[i + 1..], slots[i + 1..], data, base, ds.Charged()));
      assert result[..i + 1] == result[..i] + [result[i]];
    }
    TailsUnfold(ts[|ts|..], slots[|ts|..], data, base, ds.Charged());
    assert result[..|ts|] + [] == result[..];
    r := Ok(());
  }

  /** Arguments.Unpack */
  method UnpackAll(ts: seq<Type>, data: seq<byte>) returns (r: Result<seq<Value>, UnpackError>)
    ensures match UnpackArguments(ts, data)
            case Ok(items) => r == Ok(items.items)
            case Err(e) => r == Err(e)
  {
    if |data| == 0 {
      if |ts| == 0 {
        return Ok([]);
      }
      return Err(ShortData);
    }
    var ds := new DecodeState();
    var items :- UnpackComponents(ts, data, 0, ds);
    r := Ok(items.0);
  }
}
