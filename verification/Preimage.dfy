/**
 The byte strings that get hashed and signed for a bridge message (computeMessageHash in
 bridge/ethereum_adapter.go) and for an asset lock (canonicalLockMessage in bridge/asset_lock.go).

 Both are a domain tag followed by a fixed list of fields; `Field` names the three ways a field is
 written, and one lemma about lists of fields gives the injectivity of both.
 */
module Preimage {
  import opened ByteStrings
  import opened Results

  // ---------------------------------------------------------------- fields

  /** Text is length-prefixed, a word is a big-endian number of fixed width, raw bytes are copied. */
  datatype Field = Text(bytes: seq<byte>) | Word(value: int, width: nat) | Raw(bytes: seq<byte>)

  const LENGTH_WIDTH: nat := 4

  /** uint32(len) and uint64(n) keep the low bits. */
  function EncodeField(f: Field): seq<byte> {
    match f
    case Text(bytes) => BigEndian(|bytes| % Pow256(LENGTH_WIDTH), LENGTH_WIDTH) + bytes
    case Word(value, width) => BigEndian(value % Pow256(width), width)
    case Raw(bytes) => bytes
  }

  function Encode(fields: seq<Field>): seq<byte> {
    if fields == [] then [] else EncodeField(fields[0]) + Encode(fields[1..])
  }

  predicate SameShape(f: Field, g: Field) {
    match f
    case Text(_) => g.Text?
    case Word(_, width) => g.Word? && g.width == width
    case Raw(bytes) => g.Raw? && |g.bytes| == |bytes|
  }

  /** The values a field can carry: text below 2^32 bytes, words within one period of their width. */
  predicate Fits(f: Field, low: int) {
    match f
    case Text(bytes) => |bytes| < Pow256(LENGTH_WIDTH)
    case Word(value, width) => low <= value < low + Pow256(width)
    case Raw(_) => true
  }

  lemma SameResidue(a: int, b: int, low: int, p: nat)
    requires p > 0 && low <= a < low + p && low <= b < low + p && a % p == b % p
    ensures a == b
  {
    assert a - b == p * (a / p - b / p);
    var k := a / p - b / p;
    if k >= 1 {
      MulMonotone(1, k, p);
    } else if k <= -1 {
      MulMonotone(1, -k, p);
      assert p * k == -(p * -k);
    }
  }

  /** A field can be read off the front of a byte string in one way only. */
  lemma FieldIsPrefixFree(f: Field, g: Field, low: int, s: seq<byte>, t: seq<byte>)
    requires SameShape(f, g) && Fits(f, low) && Fits(g, low)
    requires EncodeField(f) + s == EncodeField(g) + t
    ensures f == g && s == t
  {
    hide Pow256, BigEndian;
    var x, y := EncodeField(f) + s, EncodeField(g) + t;
    match f
    case Text(a) =>
      var la, lb := |a| % Pow256(LENGTH_WIDTH), |g.bytes| % Pow256(LENGTH_WIDTH);
      assert BigEndian(la, LENGTH_WIDTH) == x[..LENGTH_WIDTH] == y[..LENGTH_WIDTH] == BigEndian(lb, LENGTH_WIDTH);
      BigEndianInjective(la, lb, LENGTH_WIDTH);
      SameResidue(|a|, |g.bytes|, 0, Pow256(LENGTH_WIDTH));
      assert a == x[LENGTH_WIDTH..LENGTH_WIDTH + |a|];
      assert g.bytes == y[LENGTH_WIDTH..LENGTH_WIDTH + |a|];
      assert s == x[LENGTH_WIDTH + |a|..] && t == y[LENGTH_WIDTH + |a|..];
    case Word(value, width) =>
      assert EncodeField(f) == x[..width] && EncodeField(g) == y[..width];
      assert s == x[width..] && t == y[width..];
      BigEndianInjective(value % Pow256(width), g.value % Pow256(width), width);
      SameResidue(value, g.value, low, Pow256(width));
    case Raw(bytes) =>
      assert bytes == x[..|bytes|] && g.bytes == y[..|bytes|];
      assert s == x[|bytes|..] && t == y[|bytes|..];
  }

  /** The bytes of a field list determine every field. `low` gives, per position, the least word value. */
  lemma {:induction false} EncodeIsInjective(fs: seq<Field>, gs: seq<Field>, low: seq<int>)
    requires |fs| == |gs| == |low|
    requires forall i | 0 <= i < |fs| :: SameShape(fs[i], gs[i]) && Fits(fs[i], low[i]) && Fits(gs[i], low[i])
    requires Encode(fs) == Encode(gs)
    ensures fs == gs
    decreases |fs|
  {
    hide EncodeField, SameShape, Fits;
    if fs != [] {
      FieldIsPrefixFree(fs[0], gs[0], low[0], Encode(fs[1..]), Encode(gs[1..]));
      EncodeIsInjective(fs[1..], gs[1..], low[1..]);
      assert fs == [fs[0]] + fs[1..] && gs == [gs[0]] + gs[1..];
    }
  }

  lemma EncodeCons(f: Field, rest: seq<Field>)
    ensures Encode([f] + rest) == EncodeField(f) + Encode(rest)
  {
    assert ([f] + rest)[1..] == rest;
  }

  lemma {:induction false} EncodeUpTo(fs: seq<Field>, k: nat)
    requires k < |fs|
    ensures Encode(fs[..k + 1]) == Encode(fs[..k]) + EncodeField(fs[k])
  {
    hide EncodeField;
    if k > 0 {
      EncodeUpTo(fs[1..], k - 1);
      assert fs[..k + 1][1..] == fs[1..][..k] && fs[..k][1..] == fs[1..][..k - 1];
    } else {
      assert fs[..1][1..] == [] && fs[..0] == [];
    }
  }

  /** One write: the buffer holds the domain and the first k fields, then the first k + 1. */
  lemma FieldWritten(domain: seq<byte>, buf: seq<byte>, bytes: seq<byte>, fs: seq<Field>, k: nat)
    requires k < |fs| && buf == domain + Encode(fs[..k]) && bytes == EncodeField(fs[k])
    ensures buf + bytes == domain + Encode(fs[..k + 1])
  {
    hide *;
    EncodeUpTo(fs, k);
    assert (domain + Encode(fs[..k])) + bytes == domain + (Encode(fs[..k]) + bytes);
  }

  lemma NothingWritten(fs: seq<Field>)
    ensures Encode(fs[..0]) == []
  {
  }

  // ---------------------------------------------------------------- bridge messages

  type uint64 = n: nat | n < 0x1_0000_0000_0000_0000
  type int64 = n: int | -0x8000_0000_0000_0000 <= n < 0x8000_0000_0000_0000

  datatype BridgeMessage = BridgeMessage(
    id: seq<byte>, sourceChain: seq<byte>, targetChain: seq<byte>,
    sourceAddress: seq<byte>, targetAddress: seq<byte>,
    assetType: seq<byte>, assetId: seq<byte>, amount: seq<byte>, tokenId: seq<byte>, data: seq<byte>,
    nonce: uint64, timestamp: int64, messageType: seq<byte>, maxAmount: seq<byte>,
    slippageTolerance: uint64, deadline: uint64, gasLimit: uint64, expiration: int64, blockNumber: uint64)

  /** "QAU-BRIDGE-MSG-V1" */
  const MESSAGE_DOMAIN: seq<byte> := [81, 65, 85, 45, 66, 82, 73, 68, 71, 69, 45, 77, 83, 71, 45, 86, 49]

  function TextFields(m: BridgeMessage): (r: seq<Field>)
    ensures |r| == 10
  {
    [ Text(m.id), Text(m.sourceChain), Text(m.targetChain), Text(m.sourceAddress), Text(m.targetAddress),
      Text(m.assetType), Text(m.assetId), Text(m.amount), Text(m.tokenId), Text(m.data) ]
  }

  function LaterFields(m: BridgeMessage): (r: seq<Field>)
    ensures |r| == 9
  {
    [ Word(m.nonce, 8), Word(m.timestamp, 8), Text(m.messageType), Text(m.maxAmount),
      Word(m.slippageTolerance, 8), Word(m.deadline, 8), Word(m.gasLimit, 8), Word(m.expiration, 8),
      Word(m.blockNumber, 8) ]
  }

  function MessageFields(m: BridgeMessage): (r: seq<Field>)
    ensures |r| == 19
  {
    TextFields(m) + LaterFields(m)
  }

  function MessagePreimage(m: BridgeMessage): seq<byte> {
    MESSAGE_DOMAIN + Encode(MessageFields(m))
  }

  /** computeMessageHash: the domain, then the fields, written to the hash one after the other. */
  method ComputeMessageHash(sha3: seq<byte> -> seq<byte>, m: BridgeMessage) returns (digest: seq<byte>)
    ensures digest == sha3(MessagePreimage(m))
  {
    hide Pow256, BigEndian, Encode, EncodeField, TextFields, LaterFields, MessageFields;
    ghost var fs := MessageFields(m);
    NothingWritten(fs);
    LaterPositions(m, fs);
    var h := WriteTexts(MESSAGE_DOMAIN, m, fs);
    h := WriteField(h, Word(m.nonce, 8), fs, 10);
    h := WriteField(h, Word(m.timestamp, 8), fs, 11);
    h := WriteField(h, Text(m.messageType), fs, 12);
    h := WriteField(h, Text(m.maxAmount), fs, 13);
    h := WriteField(h, Word(m.slippageTolerance, 8), fs, 14);
    h := WriteField(h, Word(m.deadline, 8), fs, 15);
    h := WriteField(h, Word(m.gasLimit, 8), fs, 16);
    h := WriteField(h, Word(m.expiration, 8), fs, 17);
    h := WriteField(h, Word(m.blockNumber, 8), fs, 18);
    assert fs[..19] == fs;
    return sha3(h);
  }

  /** The ten text fields at the front. */
  method WriteTexts(start: seq<byte>, m: BridgeMessage, ghost fs: seq<Field>) returns (h: seq<byte>)
    requires fs == MessageFields(m) && start == MESSAGE_DOMAIN + Encode(fs[..0])
    ensures |fs| == 19 && h == MESSAGE_DOMAIN + Encode(fs[..10])
  {
    hide Pow256, BigEndian, Encode, EncodeField, TextFields, LaterFields, MessageFields;
    TextPositions(m, fs);
    h := WriteField(start, Text(m.id), fs, 0);
    h := WriteField(h, Text(m.sourceChain), fs, 1);
    h := WriteField(h, Text(m.targetChain), fs, 2);
    h := WriteField(h, Text(m.sourceAddress), fs, 3);
    h := WriteField(h, Text(m.targetAddress), fs, 4);
    h := WriteField(h, Text(m.assetType), fs, 5);
    h := WriteField(h, Text(m.assetId), fs, 6);
    h := WriteField(h, Text(m.amount), fs, 7);
    h := WriteField(h, Text(m.tokenId), fs, 8);
    h := WriteField(h, Text(m.data), fs, 9);
  }

  lemma TextPositions(m: BridgeMessage, fs: seq<Field>)
    requires fs == MessageFields(m)
    ensures fs[0] == Text(m.id) && fs[1] == Text(m.sourceChain) && fs[2] == Text(m.targetChain)
    ensures fs[3] == Text(m.sourceAddress) && fs[4] == Text(m.targetAddress)
    ensures fs[5] == Text(m.assetType) && fs[6] == Text(m.assetId) && fs[7] == Text(m.amount)
    ensures fs[8] == Text(m.tokenId) && fs[9] == Text(m.data)
  {
    hide LaterFields;
  }

  lemma LaterPositions(m: BridgeMessage, fs: seq<Field>)
    requires fs == MessageFields(m)
    ensures fs[10] == Word(m.nonce, 8) && fs[11] == Word(m.timestamp, 8)
    ensures fs[12] == Text(m.messageType) && fs[13] == Text(m.maxAmount)
    ensures fs[14] == Word(m.slippageTolerance, 8) && fs[15] == Word(m.deadline, 8)
    ensures fs[16] == Word(m.gasLimit, 8) && fs[17] == Word(m.expiration, 8) && fs[18] == Word(m.blockNumber, 8)
  {
    hide TextFields;
  }

  method WriteField(h: seq<byte>, f: Field, ghost fs: seq<Field>, ghost k: nat) returns (r: seq<byte>)
    requires k < |fs| && fs[k] == f && h == MESSAGE_DOMAIN + Encode(fs[..k])
    ensures r == MESSAGE_DOMAIN + Encode(fs[..k + 1])
  {
    hide *;
    FieldWritten(MESSAGE_DOMAIN, h, EncodeField(f), fs, k);
    return h + EncodeField(f);
  }

  /** Every text field is shorter than 2^32 bytes. */
  predicate ShortFields(m: BridgeMessage) {
    var fs := MessageFields(m);
    forall i | 0 <= i < |fs| && fs[i].Text? :: |fs[i].bytes| < Pow256(LENGTH_WIDTH)
  }

  lemma Period8()
    ensures Pow256(8) == 0x1_0000_0000_0000_0000
  {
    assert Pow256(4) == 0x1_0000_0000;
    Pow256Add(4, 4);
  }

  /** Least value of each word: signed for the timestamp and the expiration. */
  const MESSAGE_LOW: seq<int> := seq(19, i => if i == 11 || i == 17 then -0x8000_0000_0000_0000 else 0)

  lemma MessageFieldsFit(m: BridgeMessage, i: nat)
    requires ShortFields(m) && i < 19
    ensures Fits(MessageFields(m)[i], MESSAGE_LOW[i])
  {
    hide Pow256;
    Period8();
  }

  lemma MessageFieldsShape(m: BridgeMessage, n: BridgeMessage, i: nat)
    requires i < 19
    ensures SameShape(MessageFields(m)[i], MessageFields(n)[i])
  {
  }

  /** The signed bytes determine all nineteen covered fields. */
  lemma MessagePreimageIsInjective(m: BridgeMessage, n: BridgeMessage)
    requires ShortFields(m) && ShortFields(n)
    requires MessagePreimage(m) == MessagePreimage(n)
    ensures m == n
  {
    hide ShortFields, Encode, Fits, SameShape;
    var fs, gs := MessageFields(m), MessageFields(n);
    assert Encode(fs) == MessagePreimage(m)[|MESSAGE_DOMAIN|..];
    assert Encode(gs) == MessagePreimage(n)[|MESSAGE_DOMAIN|..];
    forall i | 0 <= i < 19
      ensures SameShape(fs[i], gs[i]) && Fits(fs[i], MESSAGE_LOW[i]) && Fits(gs[i], MESSAGE_LOW[i])
    {
      MessageFieldsFit(m, i);
      MessageFieldsFit(n, i);
      MessageFieldsShape(m, n, i);
    }
    EncodeIsInjective(fs, gs, MESSAGE_LOW);
    FieldsDetermineMessage(m, n);
  }

  lemma FieldsDetermineMessage(m: BridgeMessage, n: BridgeMessage)
    requires MessageFields(m) == MessageFields(n)
    ensures m == n
  {
    var fs, gs := MessageFields(m), MessageFields(n);
    assert fs[0] == gs[0] && fs[1] == gs[1] && fs[2] == gs[2] && fs[3] == gs[3] && fs[4] == gs[4];
    assert fs[5] == gs[5] && fs[6] == gs[6] && fs[7] == gs[7] && fs[8] == gs[8] && fs[9] == gs[9];
    assert fs[10] == gs[10] && fs[11] == gs[11] && fs[12] == gs[12] && fs[13] == gs[13] && fs[14] == gs[14];
    assert fs[15] == gs[15] && fs[16] == gs[16] && fs[17] == gs[17] && fs[18] == gs[18];
  }

  /**
   The bound is sharp: at 2^32 bytes the length prefix wraps to zero, and moving such a field one place
   to the right changes the message but not the bytes.
   */
  lemma LongFieldsCollide(m: BridgeMessage, zeros: seq<byte>)
    requires zeros == Fill(0, Pow256(LENGTH_WIDTH))
    ensures var a := m.(id := zeros, sourceChain := []);
            var b := m.(id := [], sourceChain := zeros);
            a != b && MessagePreimage(a) == MessagePreimage(b)
  {
    hide Pow256, Encode, Fill, MessageFields;
    var a := m.(id := zeros, sourceChain := []);
    var b := m.(id := [], sourceChain := zeros);
    FirstTwoFields(m, zeros, []);
    FirstTwoFields(m, [], zeros);
    LongFieldMoves(zeros, MessageFields(m)[2..]);
  }

  predicate TextsWithin(fs: seq<Field>, limit: nat) {
    forall i | 0 <= i < |fs| && fs[i].Text? :: |fs[i].bytes| <= limit
  }

  /** The bytes tell messages with texts of at most `limit` bytes apart. */
  ghost predicate MessagesToldApart(limit: nat) {
    forall m, n | TextsWithin(MessageFields(m), limit) && TextsWithin(MessageFields(n), limit)
      && MessagePreimage(m) == MessagePreimage(n) :: m == n
  }

  /** They do so exactly below 2^32. */
  lemma MessagesToldApartIff(limit: nat)
    ensures MessagesToldApart(limit) <==> limit < Pow256(LENGTH_WIDTH)
  {
    hide Pow256, MessagePreimage, MessageFields;
    if limit < Pow256(LENGTH_WIDTH) {
      forall m, n | TextsWithin(MessageFields(m), limit) && TextsWithin(MessageFields(n), limit)
        && MessagePreimage(m) == MessagePreimage(n)
        ensures m == n
      {
        MessagePreimageIsInjective(m, n);
      }
    } else {
      var zeros := Fill(0, Pow256(LENGTH_WIDTH));
      var m := BridgeMessage([], [], [], [], [], [], [], [], [], [], 0, 0, [], [], 0, 0, 0, 0, 0);
      LongFieldsCollide(m, zeros);
      BlankTexts(zeros, [], limit);
      BlankTexts([], zeros, limit);
    }
  }

  lemma BlankTexts(id: seq<byte>, source: seq<byte>, limit: nat)
    requires |id| <= limit && |source| <= limit
    ensures var m := BridgeMessage(id, source, [], [], [], [], [], [], [], [], 0, 0, [], [], 0, 0, 0, 0, 0);
            TextsWithin(MessageFields(m), limit)
  {
  }

  lemma FirstTwoFields(m: BridgeMessage, id: seq<byte>, source: seq<byte>)
    ensures |MessageFields(m)| == 19
    ensures MessageFields(m.(id := id, sourceChain := source)) == [Text(id)] + ([Text(source)] + MessageFields(m)[2..])
  {
  }

  lemma LongFieldMoves(zeros: seq<byte>, rest: seq<Field>)
    requires zeros == Fill(0, Pow256(LENGTH_WIDTH))
    ensures zeros != [] && Encode([Text(zeros)] + ([Text([])] + rest)) == Encode([Text([])] + ([Text(zeros)] + rest))
  {
    hide Pow256, Encode, EncodeField, Fill;
    EncodeCons(Text(zeros), [Text([])] + rest);
    EncodeCons(Text([]), rest);
    EncodeCons(Text([]), [Text(zeros)] + rest);
    EncodeCons(Text(zeros), rest);
    WrappedLength(zeros);
    ZerosCommute(LENGTH_WIDTH, zeros, Encode(rest));
  }

  lemma ZerosCommute(k: nat, zeros: seq<byte>, rest: seq<byte>)
    requires zeros == Fill(0, |zeros|)
    ensures (Fill(0, k) + zeros) + (Fill(0, k) + rest) == Fill(0, k) + ((Fill(0, k) + zeros) + rest)
  {
  }

  lemma WrappedLength(zeros: seq<byte>)
    requires zeros == Fill(0, Pow256(LENGTH_WIDTH))
    ensures zeros != [] && |zeros| == Pow256(LENGTH_WIDTH)
    ensures EncodeField(Text(zeros)) == Fill(0, LENGTH_WIDTH) + zeros && EncodeField(Text([])) == Fill(0, LENGTH_WIDTH)
  {
    hide Pow256;
    assert |zeros| % Pow256(LENGTH_WIDTH) == 0;
    assert BigEndian(0, LENGTH_WIDTH) == Fill(0, LENGTH_WIDTH);
  }

  // ---------------------------------------------------------------- asset locks

  type Address = a: seq<byte> | |a| == 20 witness seq(20, _ => 0)

  /** The seven signed fields of a lock; a nil amount is None. */
  datatype LockRequest = LockRequest(
    sourceChain: seq<byte>, targetChain: seq<byte>, assetType: seq<byte>,
    tokenAddress: Address, owner: Address, recipient: Address, amount: Option<int>)

  datatype LockError = NonPositiveAmount | AmountTooLarge

  /** "QAU-Lock-V1" */
  const LOCK_DOMAIN: seq<byte> := [81, 65, 85, 45, 76, 111, 99, 107, 45, 86, 49]

  function LockFields(l: LockRequest): seq<Field> {
    [ Text(l.sourceChain), Text(l.targetChain), Text(l.assetType),
      Raw(l.tokenAddress), Raw(l.owner), Raw(l.recipient), Word(if l.amount.Some? then l.amount.value else 0, 32) ]
  }

  predicate SignableAmount(amount: Option<int>) {
    amount.Some? && 0 < amount.value < Pow256(32)
  }

  predicate ShortLockFields(l: LockRequest) {
    |l.sourceChain| < Pow256(LENGTH_WIDTH) && |l.targetChain| < Pow256(LENGTH_WIDTH)
      && |l.assetType| < Pow256(LENGTH_WIDTH)
  }

  /** Appends the fields one by one; the amount is checked last. */
  method CanonicalLockMessage(lock: LockRequest) returns (r: Result<seq<byte>, LockError>)
    ensures r.Ok? <==> SignableAmount(lock.amount)
    ensures r.Ok? ==> r.value == LOCK_DOMAIN + Encode(LockFields(lock))
    ensures r == Err(NonPositiveAmount) <==> lock.amount.None? || lock.amount.value <= 0
  {
    hide Pow256, BigEndian, Encode, EncodeField;
    ghost var fs := LockFields(lock);
    NothingWritten(fs);
    LockEncoding(lock);
    var buf := LOCK_DOMAIN;
    FieldWritten(LOCK_DOMAIN, buf, EncodeField(Text(lock.sourceChain)), fs, 0);
    buf := buf + EncodeField(Text(lock.sourceChain));
    FieldWritten(LOCK_DOMAIN, buf, EncodeField(Text(lock.targetChain)), fs, 1);
    buf := buf + EncodeField(Text(lock.targetChain));
    FieldWritten(LOCK_DOMAIN, buf, EncodeField(Text(lock.assetType)), fs, 2);
    buf := buf + EncodeField(Text(lock.assetType));
    FieldWritten(LOCK_DOMAIN, buf, lock.tokenAddress, fs, 3);
    buf := buf + lock.tokenAddress;
    FieldWritten(LOCK_DOMAIN, buf, lock.owner, fs, 4);
    buf := buf + lock.owner;
    FieldWritten(LOCK_DOMAIN, buf, lock.recipient, fs, 5);
    buf := buf + lock.recipient;
    if lock.amount.None? || lock.amount.value <= 0 {
      return Err(NonPositiveAmount);
    }
    if lock.amount.value >= Pow256(32) {
      return Err(AmountTooLarge);
    }
    FieldWritten(LOCK_DOMAIN, buf, BigEndian(lock.amount.value, 32), fs, 6);
    buf := buf + BigEndian(lock.amount.value, 32);
    assert fs[..7] == fs;
    return Ok(buf);
  }

  lemma LockEncoding(l: LockRequest)
    ensures EncodeField(Raw(l.tokenAddress)) == l.tokenAddress
    ensures EncodeField(Raw(l.owner)) == l.owner
    ensures EncodeField(Raw(l.recipient)) == l.recipient
    ensures SignableAmount(l.amount) ==> EncodeField(Word(l.amount.value, 32)) == BigEndian(l.amount.value, 32)
  {
    hide Pow256, BigEndian;
  }

  lemma LockFieldsFit(l: LockRequest, i: nat)
    requires ShortLockFields(l) && SignableAmount(l.amount) && i < 7
    ensures Fits(LockFields(l)[i], 0)
  {
    hide Pow256;
  }

  lemma LockFieldsShape(l: LockRequest, k: LockRequest, i: nat)
    requires i < 7
    ensures SameShape(LockFields(l)[i], LockFields(k)[i])
  {
  }

  /** The bytes of a signable lock determine all seven fields. */
  lemma LockMessageIsInjective(l: LockRequest, k: LockRequest)
    requires ShortLockFields(l) && SignableAmount(l.amount) && ShortLockFields(k) && SignableAmount(k.amount)
    requires LOCK_DOMAIN + Encode(LockFields(l)) == LOCK_DOMAIN + Encode(LockFields(k))
    ensures l == k
  {
    hide ShortLockFields, Encode, Fits, SameShape, Pow256;
    var fs, gs := LockFields(l), LockFields(k);
    assert Encode(fs) == (LOCK_DOMAIN + Encode(fs))[|LOCK_DOMAIN|..];
    assert Encode(gs) == (LOCK_DOMAIN + Encode(gs))[|LOCK_DOMAIN|..];
    var low := seq(7, _ => 0);
    forall i | 0 <= i < 7
      ensures SameShape(fs[i], gs[i]) && Fits(fs[i], low[i]) && Fits(gs[i], low[i])
    {
      LockFieldsFit(l, i);
      LockFieldsFit(k, i);
      LockFieldsShape(l, k, i);
    }
    EncodeIsInjective(fs, gs, low);
    assert fs[0] == gs[0] && fs[1] == gs[1] && fs[2] == gs[2] && fs[3] == gs[3];
    assert fs[4] == gs[4] && fs[5] == gs[5] && fs[6] == gs[6];
  }

  /** As for messages, a chain name of 2^32 bytes can move to the next field unnoticed. */
  lemma LongChainsCollide(l: LockRequest, zeros: seq<byte>)
    requires zeros == Fill(0, Pow256(LENGTH_WIDTH))
    ensures var a := l.(sourceChain := zeros, targetChain := []);
            var b := l.(sourceChain := [], targetChain := zeros);
            a != b && Encode(LockFields(a)) == Encode(LockFields(b))
  {
    hide Pow256, Encode, Fill;
    var a := l.(sourceChain := zeros, targetChain := []);
    var b := l.(sourceChain := [], targetChain := zeros);
    var rest := LockFields(l)[2..];
    assert LockFields(a) == [Text(zeros)] + ([Text([])] + rest);
    assert LockFields(b) == [Text([])] + ([Text(zeros)] + rest);
    LongFieldMoves(zeros, rest);
  }

  predicate SignableWithin(l: LockRequest, limit: nat) {
    SignableAmount(l.amount) && |l.sourceChain| <= limit && |l.targetChain| <= limit && |l.assetType| <= limit
  }

  ghost predicate LocksToldApart(limit: nat) {
    forall l, k | SignableWithin(l, limit) && SignableWithin(k, limit)
      && Encode(LockFields(l)) == Encode(LockFields(k)) :: l == k
  }

  /** The bytes tell signable locks apart exactly for texts below 2^32 bytes. */
  lemma LocksToldApartIff(limit: nat)
    ensures LocksToldApart(limit) <==> limit < Pow256(LENGTH_WIDTH)
  {
    hide Pow256, LockFields, Encode;
    if limit < Pow256(LENGTH_WIDTH) {
      forall l, k | SignableWithin(l, limit) && SignableWithin(k, limit)
        && Encode(LockFields(l)) == Encode(LockFields(k))
        ensures l == k
      {
        LockMessageIsInjective(l, k);
      }
    } else {
      var zeros := Fill(0, Pow256(LENGTH_WIDTH));
      var none: Address := Fill(0, 20);
      var l := LockRequest([], [], [], none, none, none, Some(1));
      Pow256Monotone(1, 32);
      LongChainsCollide(l, zeros);
      var a, b := l.(sourceChain := zeros, targetChain := []), l.(sourceChain := [], targetChain := zeros);
      assert SignableWithin(a, limit) && SignableWithin(b, limit);
    }
  }

  /** A lock's bytes are never a message's bytes: the domain tags differ. */
  lemma DomainsAreSeparate(l: LockRequest, m: BridgeMessage)
    ensures LOCK_DOMAIN + Encode(LockFields(l)) != MessagePreimage(m)
  {
    hide Encode;
    assert (LOCK_DOMAIN + Encode(LockFields(l)))[4] == 76 && MessagePreimage(m)[4] == 66;
  }
}
