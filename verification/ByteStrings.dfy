/**
 Byte strings and big-endian numbers, as Go's math/big and encoding/binary produce them.
 */
module ByteStrings {

  type byte = b: nat | b < 256

  function Pow256(k: nat): (r: nat)
    ensures r >= 1
  {
    if k == 0 then 1 else 256 * Pow256(k - 1)
  }

  function Pow2(k: nat): (r: nat)
    ensures r >= 1
  {
    if k == 0 then 1 else 2 * Pow2(k - 1)
  }

  /** The shortest big-endian form of n; empty for 0 (big.Int.Bytes). */
  function Minimal(n: nat): seq<byte> {
    if n == 0 then [] else Minimal(n / 256) + [n % 256]
  }

  /** The number a big-endian byte string denotes (big.Int.SetBytes). */
  function ToNat(s: seq<byte>): nat {
    if s == [] then 0 else ToNat(s[..|s| - 1]) * 256 + s[|s| - 1]
  }

  function Fill(b: byte, k: nat): seq<byte> {
    seq(k, _ => b)
  }

  /** The bytes of an ASCII text. */
  function Ascii(s: string): seq<byte>
    requires forall i | 0 <= i < |s| :: s[i] < 128 as char
  {
    seq(|s|, i requires 0 <= i < |s| => s[i] as int)
  }

  /** n as exactly k big-endian bytes, zero padded on the left. */
  function BigEndian(n: nat, k: nat): (r: seq<byte>)
    requires n < Pow256(k)
    ensures |r| == k
  {
    MinimalLength(n, k);
    Fill(0, k - |Minimal(n)|) + Minimal(n)
  }

  lemma {:induction false} MinimalLength(n: nat, k: nat)
    ensures |Minimal(n)| <= k <==> n < Pow256(k)
  {
    if n != 0 && k != 0 {
      MinimalLength(n / 256, k - 1);
    }
  }

  lemma {:induction false} ToNatOfMinimal(n: nat)
    ensures ToNat(Minimal(n)) == n
  {
    if n != 0 {
      ToNatOfMinimal(n / 256);
      assert (Minimal(n / 256) + [n % 256])[..|Minimal(n)| - 1] == Minimal(n / 256);
    }
  }

  lemma {:induction false} Pow256Add(a: nat, b: nat)
    ensures Pow256(a + b) == Pow256(a) * Pow256(b)
  {
    if b != 0 {
      Pow256Add(a, b - 1);
      assert Pow256(a + b) == 256 * (Pow256(a) * Pow256(b - 1)) == Pow256(a) * (256 * Pow256(b - 1));
    }
  }

  lemma {:induction false} Pow256Monotone(a: nat, b: nat)
    requires a <= b
    ensures Pow256(a) <= Pow256(b)
    ensures a < b ==> 256 * Pow256(a) <= Pow256(b)
    decreases b - a
  {
    if a < b {
      Pow256Monotone(a + 1, b);
    }
  }

  lemma {:induction false} ToNatBound(s: seq<byte>)
    ensures ToNat(s) < Pow256(|s|)
  {
    if s != [] {
      ToNatBound(s[..|s| - 1]);
    }
  }

  lemma {:induction false} ToNatConcat(a: seq<byte>, b: seq<byte>)
    ensures ToNat(a + b) == ToNat(a) * Pow256(|b|) + ToNat(b)
  {
    if b == [] {
      assert a + b == a;
    } else {
      var n := |b| - 1;
      ToNatConcat(a, b[..n]);
      assert (a + b)[..|a + b| - 1] == a + b[..n];
      assert ToNat(a) * Pow256(n) * 256 == ToNat(a) * (256 * Pow256(n));
    }
  }

  lemma {:induction false} ToNatOfFill(k: nat)
    ensures ToNat(Fill(0, k)) == 0
    ensures ToNat(Fill(255, k)) == Pow256(k) - 1
  {
    if k != 0 {
      ToNatOfFill(k - 1);
      assert Fill(0, k)[..k - 1] == Fill(0, k - 1);
      assert Fill(255, k)[..k - 1] == Fill(255, k - 1);
    }
  }

  lemma ToNatOfBigEndian(n: nat, k: nat)
    requires n < Pow256(k)
    ensures ToNat(BigEndian(n, k)) == n
  {
    MinimalLength(n, k);
    ToNatConcat(Fill(0, k - |Minimal(n)|), Minimal(n));
    ToNatOfFill(k - |Minimal(n)|);
    ToNatOfMinimal(n);
  }

  lemma MulMonotone(a: nat, b: nat, c: nat)
    requires a <= b
    ensures a * c <= b * c
  {
    assert (b - a) * c >= 0;
  }

  lemma LeadingDigit(top: nat, low: nat, d: nat, p: nat)
    requires low < p
    ensures top >= d <==> top * p + low >= d * p
  {
    if top >= d {
      MulMonotone(d, top, p);
    } else {
      MulMonotone(top + 1, d, p);
      calc {
        top * p + low;
      <
        top * p + p;
      ==
        (top + 1) * p;
      <=
        d * p;
      }
    }
  }

  /** The first byte carries the top bits: it is at least d exactly when the number is at least d * 256^(len-1). */
  lemma TopByte(s: seq<byte>, d: nat)
    requires s != []
    ensures s[0] >= d <==> ToNat(s) >= d * Pow256(|s| - 1)
  {
    var n := |s| - 1;
    assert ToNat(s) == s[0] * Pow256(n) + ToNat(s[1..]) by {
      ToNatConcat([s[0]], s[1..]);
      assert [s[0]] + s[1..] == s;
      assert [s[0]][..0] == [];
    }
    ToNatBound(s[1..]);
    LeadingDigit(s[0], ToNat(s[1..]), d, Pow256(n));
  }

  /** Fixed-width big-endian encoding loses nothing. */
  lemma BigEndianInjective(m: nat, n: nat, k: nat)
    requires m < Pow256(k) && n < Pow256(k)
    requires BigEndian(m, k) == BigEndian(n, k)
    ensures m == n
  {
    ToNatOfBigEndian(m, k);
    ToNatOfBigEndian(n, k);
  }
}
