/**
 Numbers through packNum and unpackNum (abi/type.go:335-381, 605-623). Neither checks the declared
 range, so which numbers survive is not the declared range; Survives is the exact condition.
 */
module AbiNumbers {
  import opened Results
  import opened ByteStrings
  import opened AbiType
  import opened AbiCodec

  /** The top bit of a w-byte word. */
  function SignBit(w: nat): int {
    if w == 0 then 0 else 128 * Pow256(w - 1)
  }

  /** The number decoding gives back for n, in closed form. */
  function Reread(n: int, size: nat, signed: bool): int {
    if !signed then Abs(n)
    else if n >= 0 then if n < SignBit(WORD) then n else n - Pow256(WORD)
    else RereadNegative(n, size / 8, WORD)
  }

  /** The same for a negative n declared b bytes wide, in words of w bytes. */
  function RereadNegative(n: int, b: nat, w: nat): int {
    var m := Abs(n + Pow256(b));
    Complemented(m, |Minimal(m)|, w)
  }

  /** What a w-byte word reads as when m fills its low k bytes and the rest are ones. */
  function Complemented(m: nat, k: nat, w: nat): int {
    if m < SignBit(w) && k == w then m else m - Pow256(k)
  }

  /** Exactly the numbers that decode to themselves. */
  ghost predicate Survives(n: int, size: nat, signed: bool) {
    if !signed then n >= 0
    else if n >= 0 then n < SignBit(WORD)
    else Reachable(n, size / 8, WORD) || Stray(n, size / 8, WORD)
  }

  /** The two's complement of n in b bytes has a non-zero leading byte (and, at full width, the sign bit). */
  predicate Reachable(n: int, b: nat, w: nat) {
    b >= 1 && n >= Pow256(b - 1) - Pow256(b) && (b == w ==> n >= -SignBit(w))
  }

  /** A far out of range negative whose wrapped magnitude happens to complement itself. */
  ghost predicate Stray(n: int, b: nat, w: nat) {
    exists k: nat | b < k < w :: 2 * n == -(Pow256(k) + Pow256(b))
  }

  lemma TwiceSignBit(w: nat)
    requires w >= 1
    ensures Pow256(w) == 2 * SignBit(w)
  {
  }

  lemma {:induction false} Pow2OfBytes(k: nat)
    ensures Pow2(8 * k) == Pow256(k)
  {
    if k > 0 {
      Pow2OfBytes(k - 1);
      assert Pow2(8 * k) == 2 * Pow2(8 * k - 1) == 4 * Pow2(8 * k - 2) == 8 * Pow2(8 * k - 3) == 16 * Pow2(8 * k - 4);
      assert Pow2(8 * k - 4) == 2 * Pow2(8 * k - 5) == 4 * Pow2(8 * k - 6) == 8 * Pow2(8 * k - 7)
             == 16 * Pow2(8 * k - 8);
    }
  }

  lemma Complement(a: nat, b: nat)
    ensures (Pow256(a) - 1) * Pow256(b) == Pow256(a + b) - Pow256(b)
  {
    Pow256Add(a, b);
    var p, q := Pow256(a), Pow256(b);
    assert (p - 1) * q == p * q - q;
  }

  lemma ZeroPadded(m: nat, k: nat, w: nat)
    requires k == |Minimal(m)| <= w
    ensures ToNat(Fill(0, w - k) + Minimal(m)) == m
  {
    hide Minimal, ToNat, Pow256;
    ToNatConcat(Fill(0, w - k), Minimal(m));
    ToNatOfFill(w - k);
    ToNatOfMinimal(m);
  }

  lemma OnesPadded(m: nat, k: nat, w: nat)
    requires k == |Minimal(m)| <= w
    ensures ToNat(Fill(255, w - k) + Minimal(m)) == Pow256(w) - Pow256(k) + m
  {
    hide Minimal, ToNat, Pow256;
    ToNatConcat(Fill(255, w - k), Minimal(m));
    ToNatOfFill(w - k);
    ToNatOfMinimal(m);
    Complement(w - k, k);
  }

  /** A word holds exactly the numbers below 2^256, and reads back as the number written. */
  lemma WordReadsBack(n: nat)
    ensures Padded(0, Minimal(n)).Ok? <==> n < Pow256(WORD)
    ensures n < Pow256(WORD) ==> var w := Padded(0, Minimal(n)).value; |w| == WORD && ToNat(w) == n
  {
    hide Pow256, Minimal, ToNat;
    MinimalLength(n, WORD);
    if n < Pow256(WORD) {
      ZeroPadded(n, |Minimal(n)|, WORD);
    }
  }

  /** Lengths and offsets are int64, far below that. */
  lemma IntReadsBack(n: nat)
    requires n <= MAX_INT64
    ensures Padded(0, Minimal(n)).Ok?
    ensures var w := Padded(0, Minimal(n)).value; |w| == WORD && ToNat(w) == n
  {
    hide Minimal, ToNat;
    assert Pow256(8) == 0x1_0000_0000_0000_0000;
    Pow256Monotone(8, WORD);
    WordReadsBack(n);
  }

  lemma OnesPaddedArithmetic(v: int, m: int, q: int, top: bool, sign: int)
    requires 0 <= m < q && v == 2 * sign - q + m
    requires if top then q == 2 * sign else 128 * q <= sign
    ensures (if v >= sign then v - 2 * sign else v) == if m < sign && top then m else m - q
  {
  }

  lemma NegativeReadsBack(m: nat, w: nat)
    requires |Minimal(m)| <= w && w >= 1
    ensures NumberOf(Fill(255, w - |Minimal(m)|) + Minimal(m), true) == Complemented(m, |Minimal(m)|, w)
  {
    hide Minimal, ToNat, Pow256;
    TwiceSignBit(w);
    var k := |Minimal(m)|;
    var word := Fill(255, w - k) + Minimal(m);
    OnesPadded(m, k, w);
    MinimalLength(m, k);
    TopByte(word, 128);
    if k < w {
      Pow256Monotone(k, w - 1);
    }
    OnesPaddedArithmetic(ToNat(word), m, Pow256(k), k == w, SignBit(w));
  }

  lemma NonnegativeReadsBack(m: nat, w: nat)
    requires |Minimal(m)| <= w && w >= 1
    ensures NumberOf(Fill(0, w - |Minimal(m)|) + Minimal(m), false) == m
    ensures NumberOf(Fill(0, w - |Minimal(m)|) + Minimal(m), true) == if m < SignBit(w) then m else m - Pow256(w)
  {
    ZeroPadded(m, |Minimal(m)|, w);
    TopByte(Fill(0, w - |Minimal(m)|) + Minimal(m), 128);
  }

  lemma NumberReadsBack(n: int, size: nat, signed: bool)
    requires size % 8 == 0
    requires PackNum(n, size, signed).Ok?
    ensures |PackNum(n, size, signed).value| == 32
    ensures NumberOf(PackNum(n, size, signed).value, signed) == Reread(n, size, signed)
  {
    hide Minimal, ToNat, Pow256, Pow2, NumberOf;
    Pow2OfBytes(size / 8);
    if signed && n < 0 {
      NegativeReadsBack(Abs(n + Pow2(size)), WORD);
    } else {
      NonnegativeReadsBack(Abs(n), WORD);
    }
  }

  lemma InReachArithmetic(n: int, p: int, q: int, full: bool, top: bool, sign: int)
    requires n < 0 < n + p && 1 <= q
    requires if full then q == p else 256 * q <= p
    requires top ==> full && p == 2 * sign
    ensures (if n + p < sign && top then n + p else n + p - q) == n <==> full && (top ==> n >= -sign)
  {
  }

  lemma NegativeInReach(n: int, b: nat, k: nat, w: nat)
    requires 1 <= b <= w && n < 0 < n + Pow256(b)
    requires k <= b && (k <= b - 1 <==> n + Pow256(b) < Pow256(b - 1))
    ensures Complemented(n + Pow256(b), k, w) == n <==> Reachable(n, b, w)
    ensures !Stray(n, b, w)
  {
    if k < b {
      Pow256Monotone(k, b);
    }
    InReachArithmetic(n, Pow256(b), Pow256(k), k == b, k == w, SignBit(w));
    forall j: nat | b < j < w
      ensures 2 * n != -(Pow256(j) + Pow256(b))
    {
      Pow256Monotone(b, j);
    }
  }

  lemma OutOfReachArithmetic(n: int, m: int, p: int, q: int, top: bool, sign: int)
    requires m == -n - p && 0 <= m < q && 1 < p
    requires top ==> q == 2 * sign
    ensures (if m < sign && top then m else m - q) == n <==> !top && 2 * n == -(q + p)
  {
  }

  lemma NegativeOutOfReach(n: int, b: nat, w: nat)
    requires 1 <= b <= w && n + Pow256(b) <= 0
    requires |Minimal(-n - Pow256(b))| <= w
    ensures RereadNegative(n, b, w) == n <==> Stray(n, b, w)
    ensures !Reachable(n, b, w)
  {
    hide Minimal, Pow256, SignBit;
    TwiceSignBit(w);
    Pow256Monotone(b - 1, b);
    var m := -n - Pow256(b);
    var k := |Minimal(m)|;
    MinimalLength(m, k);
    MinimalLength(m, b - 1);
    Pow256Monotone(0, b);
    OutOfReachArithmetic(n, m, Pow256(b), Pow256(k), k == w, SignBit(w));
    if k <= b {
      Pow256Monotone(k, b);
    }
    if Stray(n, b, w) {
      var j: nat :| b < j < w && 2 * n == -(Pow256(j) + Pow256(b));
      Pow256Monotone(b, j - 1);
      Pow256Monotone(j - 1, j);
      MinimalLength(m, j);
      MinimalLength(m, j - 1);
      assert k == j;
    }
  }

  lemma RereadInReach(n: int, b: nat, w: nat)
    requires 1 <= b <= w && n < 0 < n + Pow256(b)
    ensures RereadNegative(n, b, w) == n <==> Reachable(n, b, w)
    ensures !Stray(n, b, w)
  {
    var m := n + Pow256(b);
    MinimalLength(m, b);
    MinimalLength(m, b - 1);
    NegativeInReach(n, b, |Minimal(m)|, w);
  }

  lemma NegativeIff(n: int, b: nat, w: nat)
    requires 1 <= b <= w && n < 0
    requires |Minimal(Abs(n + Pow256(b)))| <= w
    ensures RereadNegative(n, b, w) == n <==> Reachable(n, b, w) || Stray(n, b, w)
  {
    if n + Pow256(b) > 0 {
      RereadInReach(n, b, w);
    } else {
      NegativeOutOfReach(n, b, w);
    }
  }

  /** Decoding an encoded number gives the number back exactly when it Survives. */
  lemma RereadIsIdentityIff(n: int, size: nat, signed: bool)
    requires 8 <= size <= 256 && size % 8 == 0
    requires PackNum(n, size, signed).Ok?
    ensures Reread(n, size, signed) == n <==> Survives(n, size, signed)
  {
    hide Minimal, Pow256, SignBit, Pow2;
    if signed && n < 0 {
      Pow2OfBytes(size / 8);
      NegativeIff(n, size / 8, WORD);
    }
  }

  /** In particular every number in the declared range survives. */
  lemma DeclaredRangeSurvives(n: int, size: nat, signed: bool)
    requires 8 <= size <= 256 && size % 8 == 0
    requires if signed then 0 <= 2 * n + Pow2(size) < 2 * Pow2(size) else 0 <= n < Pow2(size)
    ensures PackNum(n, size, signed).Ok?
    ensures Survives(n, size, signed)
  {
    hide Minimal, Pow256, SignBit, Pow2;
    Pow2OfBytes(size / 8);
    DeclaredRangeFits(n, size / 8, WORD);
    if signed && n < 0 {
      assert Survives(n, size, signed);
    }
  }

  lemma DeclaredRangeFits(n: int, b: nat, w: nat)
    requires 1 <= b <= w
    ensures 0 <= n < Pow256(b) ==> |Minimal(n)| <= w
    ensures 0 <= 2 * n + Pow256(b) < 2 * Pow256(b) ==>
              if n < 0 then |Minimal(Abs(n + Pow256(b)))| <= w && Reachable(n, b, w) else n < SignBit(w)
  {
    Pow256Monotone(b, w);
    MinimalLength(Abs(n), w);
    MinimalLength(Abs(n + Pow256(b)), w);
  }
}
