/** Octets, big-endian numbers and the option type used across the model. */
module Bytes {
  type byte = b: nat | b < 256

  datatype Option<+T> = None | Some(value: T)

  /** 256 to the power `width`. */
  function Pow256(width: nat): (p: nat)
    ensures p > 0
  {
    if width == 0 then 1 else 256 * Pow256(width - 1)
  }

  /** The number a big-endian octet string denotes. */
  function FromBE(s: seq<byte>): nat {
    if s == [] then 0 else 256 * FromBE(s[..|s| - 1]) + s[|s| - 1]
  }

  /** The `width` low-order octets of `n`, most significant first. */
  function ToBE(n: nat, width: nat): (s: seq<byte>)
    ensures |s| == width
  {
    if width == 0 then [] else ToBE(n / 256, width - 1) + [n % 256]
  }

  /** Writing a number that fits and reading it back is the identity. */
  lemma {:induction false} FromToBE(n: nat, width: nat)
    requires n < Pow256(width)
    ensures FromBE(ToBE(n, width)) == n
  {
    if width > 0 {
      FromToBE(n / 256, width - 1);
      assert ToBE(n, width)[..width - 1] == ToBE(n / 256, width - 1);
    }
  }

  lemma {:induction false} FromBEBound(s: seq<byte>)
    ensures FromBE(s) < Pow256(|s|)
  {
    if s != [] { FromBEBound(s[..|s| - 1]); }
  }

  /** Reading an octet string and writing it back at the same width is the identity. */
  lemma {:induction false} ToFromBE(s: seq<byte>)
    ensures ToBE(FromBE(s), |s|) == s
  {
    if s != [] {
      ToFromBE(s[..|s| - 1]);
      assert FromBE(s) / 256 == FromBE(s[..|s| - 1]) && FromBE(s) % 256 == s[|s| - 1];
      assert s == s[..|s| - 1] + [s[|s| - 1]];
    }
  }

  lemma Pow256Values()
    ensures Pow256(1) == 0x100 && Pow256(2) == 0x1_0000
    ensures Pow256(4) == 0x1_0000_0000 && Pow256(8) == 0x1_0000_0000_0000_0000
  {
    assert Pow256(3) == 0x100_0000;
    assert Pow256(5) == 0x100_0000_0000;
    assert Pow256(6) == 0x1_0000_0000_0000;
    assert Pow256(7) == 0x100_0000_0000_0000;
  }

  /** Octets in front count for their value times the room behind them. */
  lemma {:induction false} FromBEConcat(a: seq<byte>, b: seq<byte>)
    ensures FromBE(a + b) == FromBE(a) * Pow256(|b|) + FromBE(b)
  {
    if b == [] {
      assert a + b == a;
    } else {
      var init, last := b[..|b| - 1], b[|b| - 1];
      FromBEConcat(a, init);
      assert (a + b)[..|a + b| - 1] == a + init;
      calc {
        FromBE(a + b);
        256 * FromBE(a + init) + last;
        256 * (FromBE(a) * Pow256(|init|) + FromBE(init)) + last;
        256 * (FromBE(a) * Pow256(|init|)) + 256 * FromBE(init) + last;
        { Regroup(FromBE(a), Pow256(|init|)); }
        FromBE(a) * Pow256(|b|) + FromBE(b);
      }
    }
  }

  lemma Regroup(x: nat, y: nat)
    ensures 256 * (x * y) == x * (256 * y)
  {
  }

  /** Octets `lo` up to `hi`, as far as they exist. */
  function Slice(s: seq<byte>, lo: nat, hi: nat): seq<byte> {
    var end := if hi < |s| then hi else |s|;
    if lo < end then s[lo..end] else []
  }

  /** Chunks one after the other. */
  function Join(chunks: seq<seq<byte>>): seq<byte> {
    if chunks == [] then [] else chunks[0] + Join(chunks[1..])
  }

  lemma {:induction false} JoinAppend(chunks: seq<seq<byte>>, last: seq<byte>)
    ensures Join(chunks + [last]) == Join(chunks) + last
  {
    if chunks == [] {
      assert [last][1..] == [] && [] + [last] == [last];
    } else {
      assert (chunks + [last])[1..] == chunks[1..] + [last];
      JoinAppend(chunks[1..], last);
    }
  }
}
