/** The proof-of-work value of a digest: its leading zero bits. */
module Stamp {
  import opened Bytes

  const DIGEST_SIZE := 32

  function Pow2(n: nat): (p: nat)
    ensures p > 0
  {
    if n == 0 then 1 else 2 * Pow2(n - 1)
  }

  /** The zero bits in front of the first one bit, of `bits` bits. */
  function LeadingZeros(n: nat, bits: nat): (z: nat)
    requires n < Pow2(bits)
    ensures z <= bits
  {
    if bits == 0 || n >= Pow2(bits - 1) then 0 else 1 + LeadingZeros(n, bits - 1)
  }

  /** A number of `bits` bits has at least `cost` leading zeros exactly when it is
      below 2 to the power `bits - cost`. */
  lemma {:induction false} ZerosMeanSmall(n: nat, bits: nat, cost: nat)
    requires n < Pow2(bits) && cost <= bits
    ensures LeadingZeros(n, bits) >= cost <==> n < Pow2(bits - cost)
  {
    if cost > 0 {
      if n >= Pow2(bits - 1) {
        Pow2Monotone(bits - cost, bits - 1);
      } else {
        ZerosMeanSmall(n, bits - 1, cost - 1);
      }
    }
  }

  lemma {:induction false} Pow2Monotone(a: nat, b: nat)
    requires a <= b
    ensures Pow2(a) <= Pow2(b)
  {
    if a < b { Pow2Monotone(a, b - 1); }
  }

  lemma {:induction false} Pow2Product(a: nat, b: nat)
    ensures Pow2(a + b) == Pow2(a) * Pow2(b)
  {
    if b > 0 {
      Pow2Product(a, b - 1);
      calc {
        Pow2(a + b);
        2 * (Pow2(a) * Pow2(b - 1));
        Pow2(a) * (2 * Pow2(b - 1));
      }
    }
  }

  lemma {:induction false} DigestRange(s: seq<byte>)
    ensures FromBE(s) < Pow2(8 * |s|)
  {
    if s != [] {
      DigestRange(s[..|s| - 1]);
      Pow2Product(8 * (|s| - 1), 8);
      assert Pow2(8) == 256;
    }
  }

  lemma {:induction false} Pow256IsPow2(width: nat)
    ensures Pow256(width) == Pow2(8 * width)
  {
    if width > 0 {
      Pow256IsPow2(width - 1);
      Pow2Product(8 * (width - 1), 8);
      assert Pow2(8) == 256;
    }
  }

  /** What is left of the digest from octet `i` on, and its number of bits. */
  lemma FirstOctet(digest: seq<byte>, i: nat)
    requires i < |digest|
    ensures var room := Pow2(8 * (|digest| - i - 1));
      var rest := FromBE(digest[i + 1..]);
      FromBE(digest[i..]) == digest[i] * room + rest && rest < room
  {
    assert digest[i..] == [digest[i]] + digest[i + 1..];
    FromBEConcat([digest[i]], digest[i + 1..]);
    assert [digest[i]][..0] == [];
    Pow256IsPow2(|digest| - i - 1);
    DigestRange(digest[i + 1..]);
  }

  lemma Scale(a: nat, b: nat, p: nat)
    requires a <= b
    ensures a * p <= b * p
  {
  }

  /** Bit `k` on top of `m` further bits is set exactly when the number is that large. */
  lemma TopBit(b: nat, rest: nat, k: nat, m: nat)
    requires rest < Pow2(m)
    ensures b * Pow2(m) + rest >= Pow2(k + m) <==> b >= Pow2(k)
  {
    var p, q := Pow2(m), Pow2(k);
    Pow2Product(k, m);
    AtLeast(b, rest, p, q);
  }

  lemma AtLeast(b: nat, rest: nat, p: nat, q: nat)
    requires rest < p
    ensures b * p + rest >= q * p <==> b >= q
  {
    if b >= q {
      Scale(q, b, p);
    } else {
      Scale(b + 1, q, p);
      assert (b + 1) * p == b * p + p;
    }
  }

  lemma BitSet(b: nat, bit: nat)
    requires b < Pow2(bit + 1)
    ensures b / Pow2(bit) % 2 == 1 <==> b >= Pow2(bit)
  {
    var p := Pow2(bit);
    if b >= p {
      assert b == p + (b - p) && b - p < p;
      assert b / p == 1;
    } else {
      assert b / p == 0;
    }
  }

  lemma {:induction false} SkipZeros(n: nat, m: nat, k: nat)
    requires n < Pow2(m)
    ensures n < Pow2(m + k) && LeadingZeros(n, m + k) == k + LeadingZeros(n, m)
  {
    Pow2Monotone(m, m + k);
    if k > 0 {
      SkipZeros(n, m, k - 1);
      assert n < Pow2(m + k - 1);
    }
  }

  lemma ZeroOctet(digest: seq<byte>, i: nat)
    requires i < |digest| && digest[i] == 0
    ensures FromBE(digest[i + 1..]) < Pow2(8 * (|digest| - i - 1)) && FromBE(digest[i..]) < Pow2(8 * (|digest| - i))
    ensures LeadingZeros(FromBE(digest[i..]), 8 * (|digest| - i))
         == 8 + LeadingZeros(FromBE(digest[i + 1..]), 8 * (|digest| - i - 1))
  {
    FirstOctet(digest, i);
    SkipZeros(FromBE(digest[i + 1..]), 8 * (|digest| - i - 1), 8);
  }

  /** The zero bits in front of an octet's first one bit, followed by `m` bits. */
  method ZeroBits(octet: byte, ghost rest: nat, ghost m: nat) returns (zeros: nat)
    requires octet > 0 && rest < Pow2(m)
    ensures octet * Pow2(m) + rest < Pow2(8 + m)
    ensures zeros == LeadingZeros(octet * Pow2(m) + rest, 8 + m)
  {
    ghost var n := octet * Pow2(m) + rest;
    assert Pow2(8) == 256;
    TopBit(octet, rest, 8, m);
    zeros := 0;
    var bit := 7;
    while bit >= 0
      invariant -1 <= bit <= 7 && zeros == 7 - bit
      invariant (octet as int) < Pow2(bit + 1) && n < Pow2(bit + 1 + m)
      invariant LeadingZeros(n, 8 + m) == zeros + LeadingZeros(n, bit + 1 + m)
    {
      BitSet(octet, bit);
      TopBit(octet, rest, bit, m);
      if octet as int / Pow2(bit) % 2 == 1 { return; }
      zeros := zeros + 1;
      bit := bit - 1;
    }
  }

  /** Counts zero octets by eight and then single zero bits. */
  method StampValue(digest: seq<byte>) returns (leadingZeros: nat)
    ensures FromBE(digest) < Pow2(8 * |digest|)
    ensures leadingZeros == LeadingZeros(FromBE(digest), 8 * |digest|)
  {
    leadingZeros := 0;
    DigestRange(digest);
    assert digest[0..] == digest;
    for i := 0 to |digest|
      invariant leadingZeros == 8 * i
      invariant FromBE(digest[i..]) < Pow2(8 * (|digest| - i))
      invariant LeadingZeros(FromBE(digest), 8 * |digest|) == 8 * i + LeadingZeros(FromBE(digest[i..]), 8 * (|digest| - i))
    {
      if digest[i] == 0 {
        ZeroOctet(digest, i);
        leadingZeros := leadingZeros + 8;
      } else {
        FirstOctet(digest, i);
        var zeros := ZeroBits(digest[i], FromBE(digest[i + 1..]), 8 * (|digest| - i - 1));
        return leadingZeros + zeros;
      }
    }
    assert digest[|digest|..] == [];
  }

  /** A stamp meets a cost exactly when its digest, read as a number, is below 2 to
      the power 256 - cost. */
  method StampValid(digest: seq<byte>, cost: nat) returns (valid: bool)
    requires |digest| == DIGEST_SIZE && cost <= 8 * DIGEST_SIZE
    ensures valid <==> FromBE(digest) < Pow2(8 * DIGEST_SIZE - cost)
  {
    var value := StampValue(digest);
    ZerosMeanSmall(FromBE(digest), 8 * DIGEST_SIZE, cost);
    valid := value >= cost;
  }
}
