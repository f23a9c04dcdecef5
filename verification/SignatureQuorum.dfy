/**
 The signature aggregator of bridge/validator_network.go with a validator set configured: signatures
 per message id, per hash, per validator. Whether the validator is known and its signature verifies
 over the hash comes in with each call. The ledger is not in the source: it records every signature
 that was stored, with the hash it was verified over.
 */
module SignatureQuorum {
  import opened ByteStrings
  import opened ByteOrder
  import opened Hex
  import opened Results

  type Address = seq<byte>
  type HashKey = seq<byte>
  type Signatures = map<Address, seq<byte>>

  const DEFAULT_MAX_MESSAGES: int := 100_000

  // ---------------------------------------------------------------- hash keys

  /** Fills a buffer of twice the length, two digits per byte. */
  method HexEncodeHash(h: seq<byte>) returns (hex: HashKey)
    ensures hex == HexEncode(h)
  {
    hide HexEncode, HexDigit;
    HexNothing();
    if |h| == 0 {
      return [];
    }
    var buf := new byte[2 * |h|](_ => 0);
    ghost var done: HashKey := [];
    assert h[0..] == h;
    for i := 0 to |h|
      invariant |done| == 2 * i && buf[..2 * i] == done
      invariant HexEncode(h) == done + HexEncode(h[i..])
    {
      HexStep(h, i);
      buf[2 * i] := HexDigit(h[i] / 16);
      buf[2 * i + 1] := HexDigit(h[i] % 16);
      assert buf[..2 * i] == done;
      assert done + ([buf[2 * i], buf[2 * i + 1]] + HexEncode(h[i + 1..]))
          == done + [buf[2 * i], buf[2 * i + 1]] + HexEncode(h[i + 1..]);
      done := done + [buf[2 * i], buf[2 * i + 1]];
      assert buf[..2 * (i + 1)] == buf[..2 * i] + [buf[2 * i], buf[2 * i + 1]];
    }
    assert h[|h|..] == [] && buf[..2 * |h|] == buf[..] && done + [] == done;
    return buf[..];
  }

  lemma HexNothing()
    ensures HexEncode([]) == []
  {
  }

  lemma HexStep(h: seq<byte>, i: nat)
    requires i < |h|
    ensures HexEncode(h[i..]) == [HexDigit(h[i] / 16), HexDigit(h[i] % 16)] + HexEncode(h[i + 1..])
  {
    assert h[i..][1..] == h[i + 1..];
  }

  // ---------------------------------------------------------------- state

  datatype Verified = Verified(id: string, hash: seq<byte>, validator: Address, signature: seq<byte>)

  datatype State = State(
    signatures: map<string, map<HashKey, Signatures>>,
    hashes: map<string, seq<byte>>,
    ledger: set<Verified>)

  const INITIAL := State(map[], map[], {})

  function PerHash(s: State, id: string): map<HashKey, Signatures> {
    if id in s.signatures then s.signatures[id] else map[]
  }

  function Collected(s: State, id: string, hash: seq<byte>): Signatures {
    if HexEncode(hash) in PerHash(s, id) then PerHash(s, id)[HexEncode(hash)] else map[]
  }

  /** A call AddSignature: known and valid are the answers of the validator set and the verifier. */
  datatype Offer = Offer(id: string, hash: seq<byte>, validator: Address, signature: seq<byte>, known: bool,
    valid: bool)

  predicate Acceptable(s: State, max: int, o: Offer) {
    && o.known && o.hash != [] && o.valid
    && (o.id in s.hashes || max <= 0 || |s.hashes| < max)
  }

  function Add(s: State, max: int, o: Offer): State {
    if !Acceptable(s, max, o) then s
    else
      var hashes := if o.id in s.hashes then s.hashes else s.hashes[o.id := o.hash];
      if o.validator in Collected(s, o.id, o.hash) then s.(hashes := hashes)
      else State(s.signatures[o.id :=
        PerHash(s, o.id)[HexEncode(o.hash) := Collected(s, o.id, o.hash)[o.validator := o.signature]]],
                 hashes, s.ledger + {Verified(o.id, o.hash, o.validator, o.signature)})
  }

  function Clear(s: State, id: string): State {
    s.(signatures := s.signatures - {id}, hashes := s.hashes - {id})
  }

  datatype Op = AddOp(o: Offer) | ClearOp(id: string)

  function Apply(s: State, max: int, op: Op): State {
    match op
    case AddOp(o) => Add(s, max, o)
    case ClearOp(id) => Clear(s, id)
  }

  function Run(max: int, ops: seq<Op>): State {
    if ops == [] then INITIAL else Apply(Run(max, ops[..|ops| - 1]), max, ops[|ops| - 1])
  }

  // ---------------------------------------------------------------- invariant

  /** Each inner map has signatures, and each of them was verified over one hash with that key. */
  ghost predicate Backed(s: State, id: string, key: HashKey, sigs: Signatures) {
    && sigs != map[]
    && exists hash :: HexEncode(hash) == key && forall v | v in sigs :: Verified(id, hash, v, sigs[v]) in s.ledger
  }

  ghost predicate Inv(s: State) {
    && s.signatures.Keys == s.hashes.Keys
    && forall id, key | id in s.signatures && key in s.signatures[id] :: Backed(s, id, key, s.signatures[id][key])
  }

  /** The collected signatures for a hash were all verified over exactly that hash. */
  lemma CollectedAreVerified(s: State, id: string, hash: seq<byte>, v: Address)
    requires Inv(s) && v in Collected(s, id, hash)
    ensures Verified(id, hash, v, Collected(s, id, hash)[v]) in s.ledger
  {
    var key := HexEncode(hash);
    assert Backed(s, id, key, s.signatures[id][key]);
    var h :| HexEncode(h) == key && forall v | v in s.signatures[id][key] ::
      Verified(id, h, v, s.signatures[id][key][v]) in s.ledger;
    HexIsInjective(h, hash);
  }

  lemma AddKeeps(s: State, max: int, o: Offer)
    requires Inv(s)
    ensures Inv(Add(s, max, o))
  {
    hide HexEncode;
    var s' := Add(s, max, o);
    if s' != s && o.validator !in Collected(s, o.id, o.hash) {
      var key := HexEncode(o.hash);
      var sigs := Collected(s, o.id, o.hash)[o.validator := o.signature];
      assert sigs[o.validator] == o.signature;
      forall v | v in sigs
        ensures Verified(o.id, o.hash, v, sigs[v]) in s'.ledger
      {
        if v != o.validator {
          CollectedAreVerified(s, o.id, o.hash, v);
        }
      }
      assert Backed(s', o.id, key, sigs);
      forall id, k | id in s'.signatures && k in s'.signatures[id]
        ensures Backed(s', id, k, s'.signatures[id][k])
      {
        if id != o.id || k != key {
          assert id in s.signatures && k in s.signatures[id] && s'.signatures[id][k] == s.signatures[id][k];
          MoreLedger(s, s', id, k, s.signatures[id][k]);
        }
      }
    } else if s' != s {
      SameSignatures(s, s');
    }
  }

  lemma MoreLedger(s: State, s': State, id: string, key: HashKey, sigs: Signatures)
    requires Backed(s, id, key, sigs) && s.ledger <= s'.ledger
    ensures Backed(s', id, key, sigs)
  {
    hide HexEncode;
    var hash :| HexEncode(hash) == key && forall v | v in sigs :: Verified(id, hash, v, sigs[v]) in s.ledger;
  }

  lemma SameSignatures(s: State, s': State)
    requires Inv(s) && s'.signatures == s.signatures && s'.ledger == s.ledger && s'.hashes.Keys == s.hashes.Keys
    ensures Inv(s')
  {
    forall id, key | id in s'.signatures && key in s'.signatures[id]
      ensures Backed(s', id, key, s'.signatures[id][key])
    {
      MoreLedger(s, s', id, key, s.signatures[id][key]);
    }
  }

  lemma ClearKeeps(s: State, id: string)
    requires Inv(s)
    ensures Inv(Clear(s, id))
  {
    var s' := Clear(s, id);
    forall i, key | i in s'.signatures && key in s'.signatures[i]
      ensures Backed(s', i, key, s'.signatures[i][key])
    {
      MoreLedger(s, s', i, key, s.signatures[i][key]);
    }
  }

  lemma {:induction false} RunKeeps(max: int, ops: seq<Op>)
    ensures Inv(Run(max, ops)) && (max > 0 ==> |Run(max, ops).hashes| <= max)
    decreases |ops|
  {
    hide Inv, HexEncode, Collected;
    if ops == [] {
      InitialHolds();
    } else {
      var before := Run(max, ops[..|ops| - 1]);
      RunKeeps(max, ops[..|ops| - 1]);
      match ops[|ops| - 1]
      case AddOp(o) => AddKeeps(before, max, o);
      case ClearOp(id) =>
        ClearKeeps(before, id);
        FewerKeys(before.hashes, id);
    }
  }

  lemma InitialHolds()
    ensures Inv(INITIAL)
  {
  }

  lemma FewerKeys(m: map<string, seq<byte>>, id: string)
    ensures |m - {id}| <= |m|
  {
    if id in m {
      assert m == (m - {id})[id := m[id]];
    } else {
      assert m - {id} == m;
    }
  }

  // ---------------------------------------------------------------- quorum

  predicate QuorumForHash(s: State, threshold: int, id: string, hash: seq<byte>) {
    HexEncode(hash) in PerHash(s, id) && |Collected(s, id, hash)| >= threshold
  }

  predicate Quorum(s: State, threshold: int, id: string) {
    QuorumIn(PerHash(s, id), threshold)
  }

  predicate QuorumIn(per: map<HashKey, Signatures>, threshold: int) {
    exists key | key in per :: |per[key]| >= threshold
  }

  /** The validators whose signature over this hash was verified and stored. */
  function Signers(s: State, id: string, hash: seq<byte>): set<Address> {
    set e | e in s.ledger && e.id == id && e.hash == hash :: e.validator
  }

  /** A quorum for a hash means that many distinct validators, each verified over exactly that hash. */
  lemma QuorumIsBacked(max: int, ops: seq<Op>, threshold: int, id: string, hash: seq<byte>)
    requires QuorumForHash(Run(max, ops), threshold, id, hash)
    ensures |Signers(Run(max, ops), id, hash)| >= threshold
  {
    hide Run, HexEncode, Inv;
    var s := Run(max, ops);
    RunKeeps(max, ops);
    var sigs := Collected(s, id, hash);
    forall v | v in sigs
      ensures v in Signers(s, id, hash)
    {
      CollectedAreVerified(s, id, hash, v);
    }
    assert sigs.Keys <= Signers(s, id, hash);
    SubsetSize(sigs.Keys, Signers(s, id, hash));
    assert |sigs.Keys| == |sigs|;
  }

  /** The messages with an accepted signature since they were last cleared, each with the hash of the first one. */
  function Open(max: int, ops: seq<Op>): map<string, seq<byte>> {
    if ops == [] then map[]
    else
      var before := Open(max, ops[..|ops| - 1]);
      match ops[|ops| - 1]
      case AddOp(o) => if Takes(max, before, o) && o.id !in before then before[o.id := o.hash] else before
      case ClearOp(id) => before - {id}
  }

  /** A signature is taken from a known validator, over a hash, if it verifies and its message is open or has room. */
  predicate Takes(max: int, open: map<string, seq<byte>>, o: Offer) {
    o.known && o.valid && |o.hash| > 0 && (max > 0 ==> o.id in open || |open| < max)
  }

  /** The signatures taken over the hash since the message was last cleared; the first of each validator counts. */
  function Votes(max: int, ops: seq<Op>, id: string, hash: seq<byte>): Signatures {
    if ops == [] then map[]
    else
      var front := ops[..|ops| - 1];
      var before := Votes(max, front, id, hash);
      match ops[|ops| - 1]
      case AddOp(o) =>
        if o.id == id && o.hash == hash && Takes(max, Open(max, front), o) && o.validator !in before
        then before[o.validator := o.signature] else before
      case ClearOp(cleared) => if cleared == id then map[] else before
  }

  lemma AddOpens(s: State, max: int, o: Offer)
    ensures Add(s, max, o).hashes
         == if Takes(max, s.hashes, o) && o.id !in s.hashes then s.hashes[o.id := o.hash] else s.hashes
  {
    hide HexEncode, Collected, PerHash;
  }

  lemma {:induction false} RunIsOpen(max: int, ops: seq<Op>)
    ensures Run(max, ops).hashes == Open(max, ops)
    decreases |ops|
  {
    hide Add, Takes;
    if ops != [] {
      var front := ops[..|ops| - 1];
      RunIsOpen(max, front);
      if ops[|ops| - 1].AddOp? {
        AddOpens(Run(max, front), max, ops[|ops| - 1].o);
      }
    }
  }

  lemma AddCollects(s: State, max: int, o: Offer, id: string, hash: seq<byte>)
    ensures Collected(Add(s, max, o), id, hash)
         == if o.id == id && o.hash == hash && Acceptable(s, max, o) && o.validator !in Collected(s, id, hash)
            then Collected(s, id, hash)[o.validator := o.signature] else Collected(s, id, hash)
  {
    hide HexEncode, Acceptable;
    var before, key := Collected(s, id, hash), HexEncode(o.hash);
    var s' := Add(s, max, o);
    if key == HexEncode(hash) {
      HexIsInjective(o.hash, hash);
    }
    if !Acceptable(s, max, o) || o.validator in Collected(s, o.id, o.hash) {
      assert s'.signatures == s.signatures;
      assert Collected(s', id, hash) == before;
    } else if o.id != id {
      assert PerHash(s', id) == PerHash(s, id);
    } else if o.hash != hash {
      assert PerHash(s', id) == PerHash(s, id)[key := Collected(s, id, o.hash)[o.validator := o.signature]];
      assert Collected(s', id, hash) == before;
    } else {
      assert PerHash(s', id) == PerHash(s, id)[key := before[o.validator := o.signature]];
      assert Collected(s', id, hash) == before[o.validator := o.signature];
    }
  }

  /** Collected are exactly the votes, signatures included. */
  lemma {:induction false} CollectedAreVotes(max: int, ops: seq<Op>, id: string, hash: seq<byte>)
    ensures Collected(Run(max, ops), id, hash) == Votes(max, ops, id, hash)
    decreases |ops|
  {
    hide Add, Clear, Collected, HexEncode;
    if ops == [] {
      NothingCollected(id, hash);
    } else {
      var front := ops[..|ops| - 1];
      CollectedAreVotes(max, front, id, hash);
      match ops[|ops| - 1]
      case AddOp(o) =>
        RunIsOpen(max, front);
        AddCollects(Run(max, front), max, o, id, hash);
      case ClearOp(cleared) => ClearForgets(Run(max, front), cleared, id, hash);
    }
  }

  lemma NothingCollected(id: string, hash: seq<byte>)
    ensures Collected(INITIAL, id, hash) == map[]
  {
  }

  lemma ClearForgets(s: State, cleared: string, id: string, hash: seq<byte>)
    ensures Collected(Clear(s, cleared), id, hash) == if cleared == id then map[] else Collected(s, id, hash)
  {
  }

  /**
   A hash has a quorum exactly when enough distinct validators had accepted signatures over it since
   the last clear.
   */
  lemma QuorumIffEnough(max: int, ops: seq<Op>, threshold: int, id: string, hash: seq<byte>)
    ensures QuorumForHash(Run(max, ops), threshold, id, hash)
       <==> Votes(max, ops, id, hash) != map[] && |Votes(max, ops, id, hash)| >= threshold
  {
    hide Run, HexEncode, Votes;
    var s := Run(max, ops);
    RunKeeps(max, ops);
    CollectedAreVotes(max, ops, id, hash);
    NonEmptyInner(s, id);
    assert |Collected(s, id, hash)| == |Collected(s, id, hash).Keys|;
  }

  lemma SubsetSize(a: set<Address>, b: set<Address>)
    requires a <= b
    ensures |a| <= |b|
  {
    assert b == a + (b - a);
  }

  /** Some hash has a quorum exactly when HasQuorum says so. */
  lemma QuorumIffSomeHash(max: int, ops: seq<Op>, threshold: int, id: string)
    ensures Quorum(Run(max, ops), threshold, id) <==> exists hash :: QuorumForHash(Run(max, ops), threshold, id, hash)
  {
    hide Run, HexEncode;
    var s := Run(max, ops);
    RunKeeps(max, ops);
    if Quorum(s, threshold, id) {
      var key :| key in PerHash(s, id) && |PerHash(s, id)[key]| >= threshold;
      assert Backed(s, id, key, s.signatures[id][key]);
      var hash :| HexEncode(hash) == key;
      assert QuorumForHash(s, threshold, id, hash);
    }
    if exists hash :: QuorumForHash(s, threshold, id, hash) {
      var hash :| QuorumForHash(s, threshold, id, hash);
      assert HexEncode(hash) in PerHash(s, id);
    }
  }

  // ---------------------------------------------------------------- aggregation

  /** What is hashed: each signer's address and signature, in the given order. */
  function DigestInput(sigs: Signatures, order: seq<Address>): seq<byte>
    requires forall a | a in order :: a in sigs
  {
    if order == [] then [] else DigestInput(sigs, order[..|order| - 1]) + order[|order| - 1] + sigs[order[|order| - 1]]
  }

  ghost predicate IsAggregate(sha256: seq<byte> -> seq<byte>, sigs: Signatures, digest: seq<byte>) {
    exists order :: Lists(order, sigs.Keys) && digest == sha256(DigestInput(sigs, order))
  }

  /** The digest is a function of the collected signatures alone. */
  lemma AggregateIsDetermined(sha256: seq<byte> -> seq<byte>, sigs: Signatures, d: seq<byte>, e: seq<byte>)
    requires IsAggregate(sha256, sigs, d) && IsAggregate(sha256, sigs, e)
    ensures d == e
  {
    hide DigestInput;
    var xs :| Lists(xs, sigs.Keys) && d == sha256(DigestInput(sigs, xs));
    var ys :| Lists(ys, sigs.Keys) && e == sha256(DigestInput(sigs, ys));
    ListingIsUnique(xs, ys, sigs.Keys);
  }

  /** 20-byte addresses and signatures of one length, as Dilithium3 gives them. */
  predicate FixedWidth(sigs: Signatures, width: nat) {
    forall a | a in sigs :: |a| == 20 && |sigs[a]| == width
  }

  lemma {:induction false} DigestLength(sigs: Signatures, order: seq<Address>, width: nat)
    requires FixedWidth(sigs, width) && forall a | a in order :: a in sigs
    ensures |DigestInput(sigs, order)| == |order| * (20 + width)
  {
    if order != [] {
      var last := |order| - 1;
      assert order[last] in order;
      DigestLength(sigs, order[..last], width);
      OneMore(last, 20 + width);
    }
  }

  lemma OneMore(n: nat, w: nat)
    ensures (n + 1) * w == n * w + w
  {
  }

  /** The input determines the signers and their signatures. */
  lemma {:induction false} DigestIsInjective(a: Signatures, xs: seq<Address>, b: Signatures, ys: seq<Address>,
      width: nat)
    requires FixedWidth(a, width) && FixedWidth(b, width)
    requires (forall x | x in xs :: x in a) && (forall y | y in ys :: y in b)
    requires DigestInput(a, xs) == DigestInput(b, ys)
    ensures xs == ys && forall x | x in xs :: a[x] == b[x]
    decreases |xs|
  {
    hide DigestInput, FixedWidth;
    DigestLength(a, xs, width);
    DigestLength(b, ys, width);
    SameCount(|xs|, |ys|, 20 + width);
    if xs != [] {
      var last := |xs| - 1;
      var x, y := xs[last], ys[last];
      assert x in xs && y in ys;
      LastContribution(a, xs, width);
      LastContribution(b, ys, width);
      DigestIsInjective(a, xs[..last], b, ys[..last], width);
      assert xs == xs[..last] + [x] && ys == ys[..last] + [y];
    }
  }

  lemma SameCount(m: nat, n: nat, w: nat)
    requires m * w == n * w && w > 0
    ensures m == n
  {
    OneMore(m, w);
    OneMore(n, w);
    if m < n {
      MulMonotone(m + 1, n, w);
    } else if n < m {
      MulMonotone(n + 1, m, w);
    }
  }

  lemma LastContribution(sigs: Signatures, order: seq<Address>, width: nat)
    requires order != [] && FixedWidth(sigs, width) && forall a | a in order :: a in sigs
    ensures var x := order[|order| - 1]; var input := DigestInput(sigs, order); var n := |input|;
            && x in sigs && n >= 20 + width
            && input[..n - 20 - width] == DigestInput(sigs, order[..|order| - 1])
            && input[n - 20 - width..n - width] == x && input[n - width..] == sigs[x]
  {
    var last := |order| - 1;
    var x := order[last];
    assert x in order;
    var front := DigestInput(sigs, order[..last]);
    assert DigestInput(sigs, order) == front + x + sigs[x];
  }

  /** Equal digest inputs come from equal signature sets. */
  lemma DigestBindsSignatures(a: Signatures, xs: seq<Address>, b: Signatures, ys: seq<Address>, width: nat)
    requires FixedWidth(a, width) && FixedWidth(b, width) && Lists(xs, a.Keys) && Lists(ys, b.Keys)
    requires DigestInput(a, xs) == DigestInput(b, ys)
    ensures a == b
  {
    hide DigestInput, FixedWidth;
    DigestIsInjective(a, xs, b, ys, width);
    assert forall x :: x in a.Keys <==> x in b.Keys;
  }

  /** One signer's bytes can read as two signers'. */
  lemma OneSignerReadsAsTwo(x: Address, y: Address, s: seq<byte>, t: seq<byte>)
    requires Less(x, y)
    ensures var a: Signatures := map[x := s + y + t]; var b: Signatures := map[x := s, y := t];
            && Lists([x], a.Keys) && Lists([x, y], b.Keys) && a != b
            && DigestInput(a, [x]) == DigestInput(b, [x, y])
  {
    var a: Signatures := map[x := s + y + t];
    var b: Signatures := map[x := s, y := t];
    Irreflexive(x);
    assert y in b && y !in a;
    OneSigner(a, x);
    OneSigner(b, x);
    assert [x, y][..1] == [x];
    assert DigestInput(b, [x, y]) == DigestInput(b, [x]) + y + t;
    assert x + (s + y + t) == x + s + y + t;
  }

  lemma OneSigner(sigs: Signatures, x: Address)
    requires x in sigs
    ensures DigestInput(sigs, [x]) == x + sigs[x]
  {
    assert [x][..0] == [];
    assert DigestInput(sigs, []) == [];
    assert [] + x == x;
  }

  // ---------------------------------------------------------------- when digests tell signature sets apart

  /** 20-byte addresses and signatures of the given lengths only. */
  ghost predicate Permitted(sigs: Signatures, widths: iset<nat>) {
    forall a | a in sigs :: |a| == 20 && |sigs[a]| in widths
  }

  /** Equal digest inputs would come from equal sets. */
  ghost predicate ToldApart(a: Signatures, b: Signatures) {
    forall xs, ys | Lists(xs, a.Keys) && Lists(ys, b.Keys) && DigestInput(a, xs) == DigestInput(b, ys) :: a == b
  }

  ghost predicate DigestsToldApart(widths: iset<nat>) {
    forall a, b | Permitted(a, widths) && Permitted(b, widths) :: ToldApart(a, b)
  }

  ghost predicate OneWidth(widths: iset<nat>) {
    forall m, n | m in widths && n in widths :: m == n
  }

  function Zeros(): Address {
    Fill(0, 20)
  }

  function Ones(): Address {
    Fill(1, 20)
  }

  function TwoSigners(m: nat, n: nat): Signatures {
    map[Zeros() := Fill(1, m), Ones() := Fill(1, n)]
  }

  lemma TwoSignersListed(m: nat, n: nat)
    ensures Lists([Zeros(), Ones()], TwoSigners(m, n).Keys)
    ensures Zeros() != Ones() && TwoSigners(m, n)[Zeros()] == Fill(1, m) && TwoSigners(m, n)[Ones()] == Fill(1, n)
    ensures DigestInput(TwoSigners(m, n), [Zeros(), Ones()]) == Zeros() + Fill(1, m + 20 + n)
  {
    var sigs := TwoSigners(m, n);
    assert Zeros()[0] != Ones()[0];
    assert Less(Zeros(), Ones());
    OneSigner(sigs, Zeros());
    assert [Zeros(), Ones()][..1] == [Zeros()];
    assert DigestInput(sigs, [Zeros(), Ones()]) == Zeros() + Fill(1, m) + Ones() + Fill(1, n);
    assert Fill(1, m) + Ones() + Fill(1, n) == Fill(1, m + 20 + n);
    assert Zeros() + Fill(1, m) + Ones() + Fill(1, n) == Zeros() + (Fill(1, m) + Ones() + Fill(1, n));
  }

  /** For any two different lengths, two sets with signatures of these lengths share their bytes. */
  lemma DigestNeedsOneWidth(m: nat, n: nat)
    requires m != n
    ensures var a, b := TwoSigners(m, n), TwoSigners(n, m);
            && Permitted(a, iset{m, n}) && Permitted(b, iset{m, n}) && a != b && !ToldApart(a, b)
  {
    hide DigestInput, Lists, TwoSigners;
    TwoSignersListed(m, n);
    TwoSignersListed(n, m);
    TwoSignersPermitted(m, n);
    TwoSignersPermitted(n, m);
    assert |Fill(1, m)| == m && |Fill(1, n)| == n;
  }

  lemma TwoSignersPermitted(m: nat, n: nat)
    ensures Permitted(TwoSigners(m, n), iset{m, n})
  {
  }

  lemma OneWidthTellsApart(widths: iset<nat>, a: Signatures, b: Signatures)
    requires OneWidth(widths) && Permitted(a, widths) && Permitted(b, widths)
    ensures ToldApart(a, b)
  {
    hide DigestInput;
    var width := CommonWidth(widths, a, b);
    forall xs, ys | Lists(xs, a.Keys) && Lists(ys, b.Keys) && DigestInput(a, xs) == DigestInput(b, ys)
      ensures a == b
    {
      DigestBindsSignatures(a, xs, b, ys, width);
    }
  }

  lemma CommonWidth(widths: iset<nat>, a: Signatures, b: Signatures) returns (width: nat)
    requires OneWidth(widths) && Permitted(a, widths) && Permitted(b, widths)
    ensures FixedWidth(a, width) && FixedWidth(b, width)
  {
    if x :| x in a {
      width := |a[x]|;
    } else if y :| y in b {
      width := |b[y]|;
    } else {
      width := 0;
    }
  }

  /** The digest input determines the signature sets exactly when all signatures have one length. */
  lemma DigestsToldApartIff(widths: iset<nat>)
    ensures DigestsToldApart(widths) <==> OneWidth(widths)
  {
    hide DigestInput, ToldApart, TwoSigners;
    if OneWidth(widths) {
      forall a, b | Permitted(a, widths) && Permitted(b, widths)
        ensures ToldApart(a, b)
      {
        OneWidthTellsApart(widths, a, b);
      }
    } else {
      var m, n :| m in widths && n in widths && m != n;
      DigestNeedsOneWidth(m, n);
      assert iset{m, n} <= widths;
      assert Permitted(TwoSigners(m, n), widths) && Permitted(TwoSigners(n, m), widths);
    }
  }

  // ---------------------------------------------------------------- digests over runs

  /** Known validators have 20-byte addresses, and the verifier passes signatures of these lengths only. */
  ghost predicate Offered(ops: seq<Op>, widths: iset<nat>) {
    forall i | 0 <= i < |ops| && ops[i].AddOp? && ops[i].o.known && ops[i].o.valid ::
      |ops[i].o.validator| == 20 && |ops[i].o.signature| in widths
  }

  /** No run collects two different signature sets with one digest input. */
  ghost predicate RunsToldApart(widths: iset<nat>) {
    forall max, ops, id, hash, id', hash' | Offered(ops, widths) ::
      ToldApart(Collected(Run(max, ops), id, hash), Collected(Run(max, ops), id', hash'))
  }

  lemma {:induction false} LedgerIsOffered(max: int, ops: seq<Op>, widths: iset<nat>)
    requires Offered(ops, widths)
    ensures forall v | v in Run(max, ops).ledger :: |v.validator| == 20 && |v.signature| in widths
    decreases |ops|
  {
    hide HexEncode;
    if ops != [] {
      LedgerIsOffered(max, ops[..|ops| - 1], widths);
    }
  }

  lemma CollectedIsPermitted(max: int, ops: seq<Op>, widths: iset<nat>, id: string, hash: seq<byte>)
    requires Offered(ops, widths)
    ensures Permitted(Collected(Run(max, ops), id, hash), widths)
  {
    hide Run, HexEncode, Collected;
    var s := Run(max, ops);
    RunKeeps(max, ops);
    LedgerIsOffered(max, ops, widths);
    forall v | v in Collected(s, id, hash)
      ensures |v| == 20 && |Collected(s, id, hash)[v]| in widths
    {
      CollectedAreVerified(s, id, hash, v);
    }
  }

  function Vote(id: string, hash: seq<byte>, validator: Address, signature: seq<byte>): Op {
    AddOp(Offer(id, hash, validator, signature, true, true))
  }

  /** Two validators sign two hashes of one message, with the signature lengths swapped. */
  function SwappedVotes(id: string, h: seq<byte>, h': seq<byte>, m: nat, n: nat): seq<Op> {
    [Vote(id, h, Zeros(), Fill(1, m)), Vote(id, h, Ones(), Fill(1, n)),
     Vote(id, h', Zeros(), Fill(1, n)), Vote(id, h', Ones(), Fill(1, m))]
  }

  /** A first vote of a validator for a hash joins the signatures of that hash and of no other. */
  lemma VoteIsCollected(s: State, max: int, id: string, hash: seq<byte>, v: Address, sig: seq<byte>, other: seq<byte>)
    requires hash != [] && (id in s.hashes || s.hashes == map[]) && v !in Collected(s, id, hash)
    ensures var s' := Apply(s, max, Vote(id, hash, v, sig));
            && id in s'.hashes && Collected(s', id, hash) == Collected(s, id, hash)[v := sig]
            && (other != hash ==> Collected(s', id, other) == Collected(s, id, other))
  {
    hide HexEncode;
    if HexEncode(other) == HexEncode(hash) {
      HexIsInjective(other, hash);
    }
  }

  /** A run of four votes collects the two sets that share their digest input. */
  lemma SwappedVotesCollect(max: int, id: string, h: seq<byte>, h': seq<byte>, m: nat, n: nat)
    requires h != [] && h' != [] && h != h'
    ensures var s := Run(max, SwappedVotes(id, h, h', m, n));
            Collected(s, id, h) == TwoSigners(m, n) && Collected(s, id, h') == TwoSigners(n, m)
    ensures Offered(SwappedVotes(id, h, h', m, n), iset{m, n})
  {
    hide HexEncode, Apply, Collected;
    var ops := SwappedVotes(id, h, h', m, n);
    assert Zeros()[0] != Ones()[0];
    NothingCollected(id, h);
    NothingCollected(id, h');
    assert ops[..4] == ops && ops[..3][..2] == ops[..2] && ops[..2][..1] == ops[..1] && ops[..1][..0] == [];
    var s1 := Apply(INITIAL, max, ops[0]);
    var s2 := Apply(s1, max, ops[1]);
    var s3 := Apply(s2, max, ops[2]);
    assert Run(max, ops[..1]) == s1;
    assert Run(max, ops[..2]) == s2;
    assert Run(max, ops[..3]) == s3;
    assert Run(max, ops) == Apply(s3, max, ops[3]);
    VoteIsCollected(INITIAL, max, id, h, Zeros(), Fill(1, m), h');
    VoteIsCollected(s1, max, id, h, Ones(), Fill(1, n), h');
    VoteIsCollected(s2, max, id, h', Zeros(), Fill(1, n), h);
    VoteIsCollected(s3, max, id, h', Ones(), Fill(1, m), h);
  }

  /** Over every run, digests tell the collected signatures apart exactly when the verifier passes one length. */
  lemma RunsToldApartIff(widths: iset<nat>)
    ensures RunsToldApart(widths) <==> OneWidth(widths)
  {
    hide Run, Collected, ToldApart, TwoSigners, SwappedVotes;
    if OneWidth(widths) {
      forall max, ops, id, hash, id', hash' | Offered(ops, widths)
        ensures ToldApart(Collected(Run(max, ops), id, hash), Collected(Run(max, ops), id', hash'))
      {
        CollectedIsPermitted(max, ops, widths, id, hash);
        CollectedIsPermitted(max, ops, widths, id', hash');
        OneWidthTellsApart(widths, Collected(Run(max, ops), id, hash), Collected(Run(max, ops), id', hash'));
      }
    } else {
      var m, n :| m in widths && n in widths && m != n;
      DigestNeedsOneWidth(m, n);
      SwappedVotesCollect(0, "", [0], [1], m, n);
      assert iset{m, n} <= widths;
      assert Offered(SwappedVotes("", [0], [1], m, n), widths);
      assert !ToldApart(Collected(Run(0, SwappedVotes("", [0], [1], m, n)), "", [0]),
                        Collected(Run(0, SwappedVotes("", [0], [1], m, n)), "", [1]));
    }
  }

  /** The best hash: enough signatures, no hash with more, and the first in byte order among equals. */
  ghost predicate Best(per: map<HashKey, Signatures>, threshold: int, key: HashKey) {
    && key in per && |per[key]| >= threshold
    && forall k | k in per && |per[k]| >= threshold ::
      |per[k]| <= |per[key]| && (|per[k]| == |per[key]| ==> k == key || Less(key, k))
  }

  lemma BestIsUnique(per: map<HashKey, Signatures>, threshold: int, a: HashKey, b: HashKey)
    requires Best(per, threshold, a) && Best(per, threshold, b)
    ensures a == b
  {
    LessIsTotal(a, b);
  }

  method Aggregate(sha256: seq<byte> -> seq<byte>, sigs: Signatures) returns (digest: seq<byte>)
    ensures IsAggregate(sha256, sigs, digest)
  {
    var addrs := SortSet(sigs.Keys);
    var written: seq<byte> := [];
    for i := 0 to |addrs|
      invariant forall a | a in addrs[..i] :: a in sigs
      invariant written == DigestInput(sigs, addrs[..i])
    {
      assert addrs[i] in addrs;
      assert addrs[..i + 1][..i] == addrs[..i];
      assert addrs[..i + 1] == addrs[..i] + [addrs[i]];
      written := written + addrs[i];
      written := written + sigs[addrs[i]];
    }
    assert addrs[..|addrs|] == addrs;
    return sha256(written);
  }

  // ---------------------------------------------------------------- the aggregator object

  class SignatureAggregator {
    var signatures: map<string, map<HashKey, Signatures>>
    var hashes: map<string, seq<byte>>
    const threshold: int
    const maxMessages: int
    ghost var ledger: set<Verified>

    ghost function Value(): State
      reads this
    {
      State(signatures, hashes, ledger)
    }

    /** Every stored signature was verified over the hash of its key. */
    ghost predicate Valid()
      reads this
    {
      Inv(Value())
    }

    constructor (threshold: int)
      ensures Valid() && Value() == INITIAL && this.threshold == threshold && maxMessages == DEFAULT_MAX_MESSAGES
    {
      signatures, hashes, ledger := map[], map[], {};
      this.threshold, maxMessages := threshold, DEFAULT_MAX_MESSAGES;
    }

    method AddSignature(o: Offer) returns (ok: bool)
      requires Valid()
      modifies this
      ensures Valid()
      ensures Value() == Add(old(Value()), maxMessages, o)
      ensures ok <==> Acceptable(old(Value()), maxMessages, o) && o.validator !in Collected(old(Value()), o.id, o.hash)
    {
      hide HexEncode, Inv;
      AddKeeps(Value(), maxMessages, o);
      if !o.known || |o.hash| == 0 || !o.valid {
        return false;
      }
      if o.id !in hashes {
        if maxMessages > 0 && |hashes| >= maxMessages {
          return false;
        }
        hashes := hashes[o.id := o.hash];
      }
      var key := HexEncodeHash(o.hash);
      var per := if o.id in signatures then signatures[o.id] else map[];
      var sigs := if key in per then per[key] else map[];
      if o.validator in sigs {
        return false;
      }
      signatures := signatures[o.id := per[key := sigs[o.validator := o.signature]]];
      ledger := ledger + {Verified(o.id, o.hash, o.validator, o.signature)};
      return true;
    }

    method ClearMessage(id: string)
      requires Valid()
      modifies this
      ensures Valid()
      ensures Value() == Clear(old(Value()), id)
    {
      hide Inv;
      ClearKeeps(Value(), id);
      signatures := signatures - {id};
      hashes := hashes - {id};
    }

    method HasQuorum(id: string) returns (r: bool)
      ensures r <==> Quorum(Value(), threshold, id)
    {
      var per := if id in signatures then signatures[id] else map[];
      assert per == PerHash(Value(), id);
      var todo := per.Keys;
      while todo != {}
        invariant todo <= per.Keys
        invariant forall key | key in per && key !in todo :: |per[key]| < threshold
      {
        var key :| key in todo;
        if |per[key]| >= threshold {
          return true;
        }
        todo := todo - {key};
      }
      return false;
    }

    /** The largest number of signatures any one hash of the message has. */
    method GetSignatureCount(id: string) returns (max: nat)
      ensures forall key | key in PerHash(Value(), id) :: |PerHash(Value(), id)[key]| <= max
      ensures max == 0 || exists key | key in PerHash(Value(), id) :: |PerHash(Value(), id)[key]| == max
    {
      max := 0;
      var per := if id in signatures then signatures[id] else map[];
      assert per == PerHash(Value(), id);
      var todo := per.Keys;
      while todo != {}
        invariant todo <= per.Keys
        invariant forall key | key in per && key !in todo :: |per[key]| <= max
        invariant max == 0 || exists key | key in per :: |per[key]| == max
      {
        var key :| key in todo;
        if |per[key]| > max {
          max := |per[key]|;
        }
        todo := todo - {key};
      }
    }

    method HasQuorumForHash(id: string, hash: seq<byte>) returns (r: bool)
      ensures r <==> QuorumForHash(Value(), threshold, id, hash)
    {
      hide HexEncode;
      var key := HexEncodeHash(hash);
      var per := if id in signatures then signatures[id] else map[];
      if key !in per || |per[key]| < threshold {
        return false;
      }
      return true;
    }

    method GetAggregatedSignatureForHash(sha256: seq<byte> -> seq<byte>, id: string, hash: seq<byte>)
        returns (r: Option<seq<byte>>)
      ensures r.Some? <==> QuorumForHash(Value(), threshold, id, hash)
      ensures r.Some? ==> IsAggregate(sha256, Collected(Value(), id, hash), r.value)
    {
      hide HexEncode, IsAggregate;
      var key := HexEncodeHash(hash);
      var per := if id in signatures then signatures[id] else map[];
      if key !in per || |per[key]| < threshold {
        return None;
      }
      var digest := Aggregate(sha256, per[key]);
      return Some(digest);
    }

    /** Succeeds exactly when some hash has a quorum, and then aggregates the best one. */
    method GetAggregatedSignature(sha256: seq<byte> -> seq<byte>, id: string) returns (r: Option<seq<byte>>)
      requires Valid()
      ensures r.Some? <==> Quorum(Value(), threshold, id)
      ensures r.Some? ==> exists key ::
              Best(PerHash(Value(), id), threshold, key) && IsAggregate(sha256, PerHash(Value(), id)[key], r.value)
    {
      hide IsAggregate, Less, Inv, QuorumIn;
      var per := if id in signatures then signatures[id] else map[];
      assert per == PerHash(Value(), id);
      NonEmptyInner(Value(), id);
      var best := SelectBest(per, threshold);
      if best.None? {
        return None;
      }
      var digest := Aggregate(sha256, per[best.value]);
      return Some(digest);
    }
  }

  /** The selection loop: keys in byte order, a later one only when it has strictly more signatures. */
  method SelectBest(per: map<HashKey, Signatures>, threshold: int) returns (best: Option<HashKey>)
    requires forall key | key in per :: |per[key]| > 0
    ensures best.Some? <==> QuorumIn(per, threshold)
    ensures best.Some? ==> Best(per, threshold, best.value)
  {
    hide Less;
    var keys := SortSet(per.Keys);
    var bestCount: nat := 0;
    best := None;
    for i := 0 to |keys|
      invariant best.None? ==> bestCount == 0 && forall k | 0 <= k < i :: |per[keys[k]]| < threshold
      invariant best.Some? ==> BestBefore(per, threshold, keys, i, best.value, bestCount)
    {
      var k := keys[i];
      assert k in keys && k in per;
      if |per[k]| >= threshold && |per[k]| > bestCount {
        best, bestCount := Some(k), |per[k]|;
      }
    }
    if best.Some? {
      BestOfAll(per, threshold, keys, best.value, bestCount);
    } else {
      assert forall k | k in per :: k in keys;
    }
  }

  predicate NotBetter(per: map<HashKey, Signatures>, threshold: int, best: HashKey, count: nat, k: HashKey)
    requires k in per
  {
    |per[k]| >= threshold ==> |per[k]| <= count && (|per[k]| == count ==> k == best || Less(best, k))
  }

  ghost predicate BestBefore(per: map<HashKey, Signatures>, threshold: int, keys: seq<HashKey>, i: nat, best: HashKey,
      count: nat)
    requires i <= |keys| && Lists(keys, per.Keys)
  {
    && best in per && |per[best]| == count >= threshold
    && (exists k | 0 <= k < i :: keys[k] == best)
    && (forall k | 0 <= k < i :: keys[k] in keys && NotBetter(per, threshold, best, count, keys[k]))
  }

  lemma BestOfAll(per: map<HashKey, Signatures>, threshold: int, keys: seq<HashKey>, best: HashKey, count: nat)
    requires Lists(keys, per.Keys) && BestBefore(per, threshold, keys, |keys|, best, count)
    ensures Best(per, threshold, best) && QuorumIn(per, threshold)
  {
    hide Less;
    forall k | k in per && |per[k]| >= threshold
      ensures |per[k]| <= |per[best]| && (|per[k]| == |per[best]| ==> k == best || Less(best, k))
    {
      assert k in keys;
      var i :| 0 <= i < |keys| && keys[i] == k;
      assert NotBetter(per, threshold, best, count, keys[i]);
    }
  }

  lemma NonEmptyInner(s: State, id: string)
    requires Inv(s)
    ensures forall key | key in PerHash(s, id) :: |PerHash(s, id)[key]| > 0
  {
    forall key | key in PerHash(s, id)
      ensures |PerHash(s, id)[key]| > 0
    {
      assert Backed(s, id, key, s.signatures[id][key]);
    }
  }
}
