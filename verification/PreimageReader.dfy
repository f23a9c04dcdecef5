/**
 The signed bytes read back: a reader that knows the order and the kinds of the fields and nothing of
 the writer recovers every message and every lock. The domain tags and the inputs of the Merkle hashes
 are spelled out byte by byte.
 */
module PreimageReader {
  import opened ByteStrings
  import opened Results
  import opened Preimage
  import Merkle

  // ---------------------------------------------------------------- reading fields

  datatype Kind = Prefixed | Number(width: nat) | Plain(length: nat)

  datatype Item = Item(bytes: seq<byte>, number: nat)

  /** One field off the front: its content, as bytes and as a number, and what follows. */
  function ReadItem(s: seq<byte>, kind: Kind): Option<(Item, seq<byte>)> {
    var start := if kind.Prefixed? then 4 else 0;
    if |s| < start then None
    else
      var n := match kind
               case Prefixed => ToNat(s[..4])
               case Number(width) => width
               case Plain(length) => length;
      if |s| < start + n then None
      else Some((Item(s[start..start + n], ToNat(s[start..start + n])), s[start + n..]))
  }

  function ReadItems(s: seq<byte>, kinds: seq<Kind>): (r: Option<(seq<Item>, seq<byte>)>)
    ensures r.Some? ==> |r.value.0| == |kinds|
  {
    if kinds == [] then Some(([], s))
    else
      var first := ReadItem(s, kinds[0]);
      if first.None? then None
      else
        var rest := ReadItems(first.value.1, kinds[1..]);
        if rest.None? then None else Some(([first.value.0] + rest.value.0, rest.value.1))
  }

  /** uint64 to int64 */
  function Signed(n: nat): int {
    if n < 0x8000_0000_0000_0000 then n else n - 0x1_0000_0000_0000_0000
  }

  const MESSAGE_KINDS: seq<Kind> :=
    [ Prefixed, Prefixed, Prefixed, Prefixed, Prefixed, Prefixed, Prefixed, Prefixed, Prefixed, Prefixed,
      Number(8), Number(8), Prefixed, Prefixed, Number(8), Number(8), Number(8), Number(8), Number(8) ]

  const LOCK_KINDS: seq<Kind> := [ Prefixed, Prefixed, Prefixed, Plain(20), Plain(20), Plain(20), Number(32) ]

  /** The items of some bytes that start with the tag and hold nothing after the last item. */
  function ReadAll(s: seq<byte>, tag: string, kinds: seq<Kind>): (r: Option<seq<Item>>)
    requires forall i | 0 <= i < |tag| :: tag[i] < 128 as char
    ensures r.Some? ==> |r.value| == |kinds|
  {
    if |s| < |tag| || s[..|tag|] != Ascii(tag) then None
    else
      var r := ReadItems(s[|tag|..], kinds);
      if r.None? || r.value.1 != [] then None else Some(r.value.0)
  }

  // ---------------------------------------------------------------- what was written is read

  function ItemOf(f: Field): Item {
    match f
    case Text(bytes) => Item(bytes, ToNat(bytes))
    case Word(value, width) => Item(BigEndian(value % Pow256(width), width), value % Pow256(width))
    case Raw(bytes) => Item(bytes, ToNat(bytes))
  }

  function KindOf(f: Field): Kind {
    match f
    case Text(_) => Prefixed
    case Word(_, width) => Number(width)
    case Raw(bytes) => Plain(|bytes|)
  }

  predicate Readable(f: Field) {
    f.Text? ==> |f.bytes| < Pow256(4)
  }

  lemma PrefixedIsRead(word: seq<byte>, bytes: seq<byte>, rest: seq<byte>)
    requires |word| == 4 && ToNat(word) == |bytes|
    ensures ReadItem(word + bytes + rest, Prefixed) == Some((Item(bytes, ToNat(bytes)), rest))
  {
    hide ToNat;
    var s := word + bytes + rest;
    assert s[..4] == word && s[4..4 + |bytes|] == bytes && s[4 + |bytes|..] == rest;
  }

  lemma Unwrapped(n: nat, p: nat)
    requires n < p
    ensures n % p == n
  {
  }

  lemma TextIsRead(bytes: seq<byte>, rest: seq<byte>)
    requires |bytes| < Pow256(4)
    ensures ReadItem(EncodeField(Text(bytes)) + rest, Prefixed) == Some((Item(bytes, ToNat(bytes)), rest))
  {
    hide Pow256, BigEndian, ToNat, ReadItem;
    Unwrapped(|bytes|, Pow256(4));
    ToNatOfBigEndian(|bytes|, 4);
    PrefixedIsRead(BigEndian(|bytes|, 4), bytes, rest);
  }

  lemma BytesAreRead(bytes: seq<byte>, rest: seq<byte>, kind: Kind)
    requires kind == Number(|bytes|) || kind == Plain(|bytes|)
    ensures ReadItem(bytes + rest, kind) == Some((Item(bytes, ToNat(bytes)), rest))
  {
    hide ToNat;
    assert (bytes + rest)[0..|bytes|] == bytes && (bytes + rest)[|bytes|..] == rest;
  }

  lemma FieldIsRead(f: Field, rest: seq<byte>)
    requires Readable(f)
    ensures ReadItem(EncodeField(f) + rest, KindOf(f)) == Some((ItemOf(f), rest))
  {
    hide Pow256, BigEndian, ToNat, ReadItem;
    match f
    case Text(bytes) => TextIsRead(bytes, rest);
    case Word(value, width) =>
      ToNatOfBigEndian(value % Pow256(width), width);
      BytesAreRead(BigEndian(value % Pow256(width), width), rest, Number(width));
    case Raw(bytes) => BytesAreRead(bytes, rest, Plain(|bytes|));
  }

  function KindsOf(fs: seq<Field>): seq<Kind> {
    if fs == [] then [] else [KindOf(fs[0])] + KindsOf(fs[1..])
  }

  function ItemsOf(fs: seq<Field>): seq<Item> {
    if fs == [] then [] else [ItemOf(fs[0])] + ItemsOf(fs[1..])
  }

  lemma {:induction false} FieldsAreRead(fs: seq<Field>)
    requires forall i | 0 <= i < |fs| :: Readable(fs[i])
    ensures ReadItems(Encode(fs), KindsOf(fs)) == Some((ItemsOf(fs), []))
  {
    hide EncodeField, ReadItem, ItemOf, KindOf;
    if fs != [] {
      FieldIsRead(fs[0], Encode(fs[1..]));
      FieldsAreRead(fs[1..]);
      assert KindsOf(fs)[1..] == KindsOf(fs[1..]);
    }
  }

  lemma {:induction false} FieldAt(fs: seq<Field>, i: nat)
    requires i < |fs|
    ensures |KindsOf(fs)| == |ItemsOf(fs)| == |fs| && KindsOf(fs)[i] == KindOf(fs[i]) && ItemsOf(fs)[i] == ItemOf(fs[i])
  {
    hide ItemOf, KindOf;
    if i > 0 {
      FieldAt(fs[1..], i - 1);
    } else if |fs| > 1 {
      FieldAt(fs[1..], 0);
    }
  }

  lemma AllRead(s: seq<byte>, tag: string, fs: seq<Field>, kinds: seq<Kind>)
    requires forall i | 0 <= i < |tag| :: tag[i] < 128 as char
    requires s == Ascii(tag) + Encode(fs) && |kinds| == |fs|
    requires forall i | 0 <= i < |fs| :: Readable(fs[i]) && kinds[i] == KindOf(fs[i])
    ensures var r := ReadAll(s, tag, kinds); r.Some? && forall i | 0 <= i < |fs| :: r.value[i] == ItemOf(fs[i])
  {
    hide Encode, ReadItems, ItemOf, KindOf, Readable, KindsOf, ItemsOf;
    FieldsAreRead(fs);
    assert s[..|tag|] == Ascii(tag) && s[|tag|..] == Encode(fs);
    if fs == [] {
      NoFields(fs);
    } else {
      FieldAt(fs, 0);
    }
    forall i | 0 <= i < |fs|
      ensures |KindsOf(fs)| == |ItemsOf(fs)| == |fs| && KindsOf(fs)[i] == kinds[i] && ItemsOf(fs)[i] == ItemOf(fs[i])
    {
      FieldAt(fs, i);
    }
    assert KindsOf(fs) == kinds;
  }

  lemma NoFields(fs: seq<Field>)
    requires fs == []
    ensures KindsOf(fs) == [] && ItemsOf(fs) == []
  {
  }

  // ---------------------------------------------------------------- messages

  /** The nineteen items in the order a verifier reads them. */
  function MessageOf(items: seq<Item>): Option<BridgeMessage>
    requires |items| == 19
  {
    if exists i | 0 <= i < 19 && MESSAGE_KINDS[i].Number? :: items[i].number >= 0x1_0000_0000_0000_0000 then None
    else
      assert forall i | 0 <= i < 19 && MESSAGE_KINDS[i].Number? :: items[i].number < 0x1_0000_0000_0000_0000;
      assert MESSAGE_KINDS[10].Number? && MESSAGE_KINDS[11].Number? && MESSAGE_KINDS[14].Number?;
      assert MESSAGE_KINDS[15].Number? && MESSAGE_KINDS[16].Number? && MESSAGE_KINDS[17].Number?;
      assert MESSAGE_KINDS[18].Number?;
      Some(BridgeMessage(
        items[0].bytes, items[1].bytes, items[2].bytes, items[3].bytes, items[4].bytes, items[5].bytes,
        items[6].bytes, items[7].bytes, items[8].bytes, items[9].bytes, items[10].number, Signed(items[11].number),
        items[12].bytes, items[13].bytes, items[14].number, items[15].number, items[16].number,
        Signed(items[17].number), items[18].number))
  }

  function ReadMessage(s: seq<byte>): Option<BridgeMessage> {
    var items := ReadAll(s, "QAU-BRIDGE-MSG-V1", MESSAGE_KINDS);
    if items.None? then None else MessageOf(items.value)
  }

  lemma MessageTag()
    ensures MESSAGE_DOMAIN == Ascii("QAU-BRIDGE-MSG-V1")
  {
  }

  lemma SignedWraps(n: int)
    requires -0x8000_0000_0000_0000 <= n < 0x8000_0000_0000_0000
    ensures Signed(n % 0x1_0000_0000_0000_0000) == n
  {
  }

  lemma MessageKinds(m: BridgeMessage, i: nat)
    requires i < 19
    ensures MESSAGE_KINDS[i] == KindOf(MessageFields(m)[i])
  {
  }

  /** The reader recovers the message from its signed bytes. */
  lemma MessageIsRead(m: BridgeMessage)
    requires ShortFields(m)
    ensures ReadMessage(MessagePreimage(m)) == Some(m)
  {
    hide Pow256, BigEndian, ToNat, Encode, EncodeField, MessageFields, ShortFields, ReadAll;
    var fs := MessageFields(m);
    MessageTag();
    forall i | 0 <= i < 19
      ensures Readable(fs[i]) && MESSAGE_KINDS[i] == KindOf(fs[i])
    {
      MessageKinds(m, i);
      ShortIsReadable(m, i);
    }
    AllRead(MessagePreimage(m), "QAU-BRIDGE-MSG-V1", fs, MESSAGE_KINDS);
    var items := ReadAll(MessagePreimage(m), "QAU-BRIDGE-MSG-V1", MESSAGE_KINDS).value;
    ItemsGiveMessage(m, fs, items);
  }

  lemma ShortIsReadable(m: BridgeMessage, i: nat)
    requires ShortFields(m) && i < 19
    ensures Readable(MessageFields(m)[i])
  {
    hide Pow256, MessageFields;
  }

  lemma UnsignedItem(f: Field, n: uint64)
    requires f == Word(n, 8)
    ensures ItemOf(f).number == n
  {
    hide BigEndian, Pow256;
    Period8();
  }

  lemma SignedItem(f: Field, n: int64)
    requires f == Word(n, 8)
    ensures ItemOf(f).number < 0x1_0000_0000_0000_0000 && Signed(ItemOf(f).number) == n
  {
    hide BigEndian, Pow256;
    Period8();
    SignedWraps(n);
  }

  lemma TextItem(f: Field, bytes: seq<byte>)
    requires f == Text(bytes)
    ensures ItemOf(f).bytes == bytes
  {
    hide ToNat;
  }

  lemma ItemsGiveMessage(m: BridgeMessage, fs: seq<Field>, items: seq<Item>)
    requires fs == MessageFields(m) && |items| == 19 && forall i | 0 <= i < 19 :: items[i] == ItemOf(fs[i])
    ensures MessageOf(items) == Some(m)
  {
    hide ItemOf, Signed, MessageFields;
    TextPositions(m, fs);
    LaterPositions(m, fs);
    TextItem(fs[0], m.id);
    TextItem(fs[1], m.sourceChain);
    TextItem(fs[2], m.targetChain);
    TextItem(fs[3], m.sourceAddress);
    TextItem(fs[4], m.targetAddress);
    TextItem(fs[5], m.assetType);
    TextItem(fs[6], m.assetId);
    TextItem(fs[7], m.amount);
    TextItem(fs[8], m.tokenId);
    TextItem(fs[9], m.data);
    UnsignedItem(fs[10], m.nonce);
    SignedItem(fs[11], m.timestamp);
    TextItem(fs[12], m.messageType);
    TextItem(fs[13], m.maxAmount);
    UnsignedItem(fs[14], m.slippageTolerance);
    UnsignedItem(fs[15], m.deadline);
    UnsignedItem(fs[16], m.gasLimit);
    SignedItem(fs[17], m.expiration);
    UnsignedItem(fs[18], m.blockNumber);
  }

  // ---------------------------------------------------------------- locks

  function ReadLock(s: seq<byte>): Option<LockRequest> {
    var items := ReadAll(s, "QAU-Lock-V1", LOCK_KINDS);
    if items.None? || |items.value[3].bytes| != 20 || |items.value[4].bytes| != 20 || |items.value[5].bytes| != 20
    then None
    else
      var xs := items.value;
      Some(LockRequest(xs[0].bytes, xs[1].bytes, xs[2].bytes, xs[3].bytes, xs[4].bytes, xs[5].bytes,
                       Some(xs[6].number)))
  }

  lemma LockTag()
    ensures LOCK_DOMAIN == Ascii("QAU-Lock-V1")
  {
  }

  /** The reader recovers the lock: chains, asset type, token, owner, recipient, amount, in that order. */
  lemma LockIsRead(l: LockRequest)
    requires ShortLockFields(l) && SignableAmount(l.amount)
    ensures ReadLock(LOCK_DOMAIN + Encode(LockFields(l))) == Some(l)
  {
    hide Pow256, BigEndian, ToNat, Encode, EncodeField, ReadAll;
    var fs := LockFields(l);
    var s := LOCK_DOMAIN + Encode(fs);
    LockTag();
    forall i | 0 <= i < 7
      ensures Readable(fs[i]) && LOCK_KINDS[i] == KindOf(fs[i])
    {
      LockKinds(l, i);
    }
    AllRead(s, "QAU-Lock-V1", fs, LOCK_KINDS);
    var items := ReadAll(s, "QAU-Lock-V1", LOCK_KINDS).value;
    assert items[0] == ItemOf(fs[0]) && items[1] == ItemOf(fs[1]) && items[2] == ItemOf(fs[2]);
    assert items[3] == ItemOf(fs[3]) && items[4] == ItemOf(fs[4]) && items[5] == ItemOf(fs[5]);
    assert items[6] == ItemOf(fs[6]) && l.amount.value % Pow256(32) == l.amount.value;
  }

  lemma LockKinds(l: LockRequest, i: nat)
    requires i < 7 && ShortLockFields(l)
    ensures Readable(LockFields(l)[i]) && LOCK_KINDS[i] == KindOf(LockFields(l)[i])
  {
    hide Pow256;
  }

  // ---------------------------------------------------------------- Merkle inputs

  lemma MerkleTag()
    ensures Merkle.DOMAIN == Ascii("QAU-BRIDGE-MERKLE-V1") && |Merkle.DOMAIN| == 20
  {
  }

  /** A leaf hashes 0x00, the tag, the low 32 bits of the length, and the data. */
  lemma LeafBytes(data: seq<byte>)
    ensures var s := Merkle.LeafInput(data);
            && |s| == 25 + |data| && s[0] == 0 && s[1..21] == Ascii("QAU-BRIDGE-MERKLE-V1")
            && ToNat(s[21..25]) == |data| % 0x1_0000_0000 && s[25..] == data
  {
    hide BigEndian, ToNat;
    assert Pow256(4) == 0x1_0000_0000;
    ToNatOfBigEndian(|data| % Pow256(4), 4);
    MerkleTag();
    var s := Merkle.LeafInput(data);
    assert s[1..21] == Merkle.DOMAIN && s[21..25] == BigEndian(|data| % Pow256(4), 4);
  }

  /** A node hashes 0x01, the tag, the left child and the right child. */
  lemma NodeBytes(left: Merkle.Hash, right: Merkle.Hash)
    ensures var s := Merkle.NodeInput(left, right);
            && |s| == 85 && s[0] == 1 && s[1..21] == Ascii("QAU-BRIDGE-MERKLE-V1")
            && s[21..53] == left && s[53..85] == right
  {
    MerkleTag();
    assert Merkle.NodeInput(left, right)[1..21] == Merkle.DOMAIN;
  }
}
