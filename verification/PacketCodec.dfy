/** The packet header and the parts of a packet that its hashes cover. */
module PacketCodec {
  import opened Bytes

  const HASH_LEN := 16
  const LINK_ECPUBSIZE := 64

  /** `context` is absent when a received packet is too short to hold one. */
  datatype Packet = Packet(headerType: nat, contextFlag: nat, transportType: nat, destinationType: nat, packetType: nat,
                           hops: byte, transportId: Option<seq<byte>>, destinationHash: seq<byte>,
                           context: Option<byte>, data: seq<byte>)

  /** The flag octet; every field keeps its low bits only. */
  function Flags(p: Packet): (flags: byte)
    ensures flags < 0x80
  {
    p.headerType % 2 * 64 + p.contextFlag % 2 * 32 + p.transportType % 2 * 16 + p.destinationType % 4 * 4 + p.packetType % 4
  }

  /** Field widths, and a transport id exactly in the two-address header. */
  predicate WellFormed(p: Packet) {
    && p.headerType < 2 && p.contextFlag < 2 && p.transportType < 2 && p.destinationType < 4 && p.packetType < 4
    && (p.transportId.Some? <==> p.headerType == 1)
    && (p.transportId.Some? ==> |p.transportId.value| == HASH_LEN)
    && |p.destinationHash| == HASH_LEN && p.context.Some?
  }

  function TransportId(p: Packet): seq<byte> {
    if p.headerType == 1 && p.transportId.Some? then p.transportId.value else []
  }

  function Pack(p: Packet): (raw: seq<byte>)
    ensures |raw| >= 2
  {
    [Flags(p), p.hops] + (TransportId(p) + (p.destinationHash + ([if p.context.Some? then p.context.value else 0] + p.data)))
  }

  function Unpack(raw: seq<byte>): Option<Packet> {
    if |raw| < 19 then None
    else
      var flags: nat := raw[0];
      var offset := if (flags / 64) % 2 == 1 then 2 + HASH_LEN else 2;
      Some(Packet(
        (flags / 64) % 2, (flags / 32) % 2, (flags / 16) % 2, (flags / 4) % 4, flags % 4, raw[1],
        if (flags / 64) % 2 == 1 then Some(Slice(raw, 2, 18)) else None,
        Slice(raw, offset, offset + HASH_LEN),
        if offset + HASH_LEN < |raw| then Some(raw[offset + HASH_LEN]) else None,
        Slice(raw, offset + HASH_LEN + 1, |raw|)))
  }

  lemma FlagSum(p: Packet)
    requires p.headerType < 2 && p.contextFlag < 2 && p.transportType < 2 && p.destinationType < 4 && p.packetType < 4
    ensures Flags(p) as int == p.headerType * 64 + p.contextFlag * 32 + p.transportType * 16 + p.destinationType * 4 + p.packetType
  {
  }

  lemma SumFields(f: nat, h: nat, c: nat, t: nat, d: nat, k: nat)
    requires h < 2 && c < 2 && t < 2 && d < 4 && k < 4 && f == h * 64 + c * 32 + t * 16 + d * 4 + k
    ensures f / 64 % 2 == h && f / 32 % 2 == c && f / 16 % 2 == t && f / 4 % 4 == d && f % 4 == k && f % 16 == d * 4 + k
  {
    assert f / 4 == h * 16 + c * 8 + t * 4 + d;
    assert f / 16 == h * 4 + c * 2 + t && f / 32 == h * 2 + c && f / 64 == h;
  }

  lemma FlagFields(p: Packet)
    requires WellFormed(p)
    ensures var f: nat := Flags(p);
      && f / 64 % 2 == p.headerType && f / 32 % 2 == p.contextFlag && f / 16 % 2 == p.transportType
      && f / 4 % 4 == p.destinationType && f % 4 == p.packetType && f % 16 == p.destinationType * 4 + p.packetType
  {
    FlagSum(p);
    SumFields(Flags(p), p.headerType, p.contextFlag, p.transportType, p.destinationType, p.packetType);
  }

  /** A field is where the octets before it end. */
  lemma SliceOf(before: seq<byte>, field: seq<byte>, after: seq<byte>)
    ensures Slice(before + (field + after), |before|, |before| + |field|) == field
  {
  }

  /** Packing and then unpacking gives the packet back. */
  lemma UnpackPack(p: Packet)
    requires WellFormed(p)
    ensures Unpack(Pack(p)) == Some(p)
  {
    FlagFields(p);
    var raw, head, t := Pack(p), [Flags(p), p.hops], TransportId(p);
    var tail := [p.context.value] + p.data;
    assert raw == head + (t + (p.destinationHash + tail));
    SliceOf(head, t, p.destinationHash + tail);
    assert raw == (head + t) + (p.destinationHash + tail);
    SliceOf(head + t, p.destinationHash, tail);
    assert raw == (head + t + p.destinationHash + [p.context.value]) + (p.data + []);
    SliceOf(head + t + p.destinationHash + [p.context.value], p.data, []);
    assert raw[2 + |t| + 16] == p.context.value;
  }

  lemma Bit64(f: nat)
    ensures f % 128 == f / 64 % 2 * 64 + f % 64
  {
    var q := f / 64;
    assert f == 64 * q + f % 64 && q == 2 * (q / 2) + q % 2;
  }

  lemma Bit32(f: nat)
    ensures f % 64 == f / 32 % 2 * 32 + f % 32
  {
    var q := f / 32;
    assert f == 32 * q + f % 32 && q == 2 * (q / 2) + q % 2;
  }

  lemma Bit16(f: nat)
    ensures f % 32 == f / 16 % 2 * 16 + f % 16
  {
    var q := f / 16;
    assert f == 16 * q + f % 16 && q == 2 * (q / 2) + q % 2;
  }

  lemma TwoBitsAbove(f: nat)
    ensures f % 16 == f / 4 % 4 * 4 + f % 4
  {
    assert f == f / 4 / 4 * 16 + (f / 4 % 4 * 4 + f % 4);
  }

  /** Flags read from an octet are the octet again, but for its top bit. */
  lemma FlagOctet(p: Packet, f: nat)
    requires f < 0x100 && p.headerType == f / 64 % 2 && p.contextFlag == f / 32 % 2 && p.transportType == f / 16 % 2
    requires p.destinationType == f / 4 % 4 && p.packetType == f % 4
    ensures Flags(p) as int == f % 0x80
  {
    FlagSum(p);
    Bit64(f);
    Bit32(f);
    Bit16(f);
    TwoBitsAbove(f);
  }

  /** Unpacking and then packing gives the octets back, but for the top flag bit. */
  lemma PackUnpack(raw: seq<byte>)
    requires |raw| >= 19 && (raw[0] as int / 64 % 2 == 1 ==> |raw| >= 35)
    ensures Unpack(raw).Some? && WellFormed(Unpack(raw).value)
    ensures Pack(Unpack(raw).value) == [raw[0] % 0x80] + raw[1..]
  {
    var p := Unpack(raw).value;
    FlagOctet(p, raw[0]);
    var offset := 2 + |TransportId(p)|;
    assert raw[offset..] == p.destinationHash + ([p.context.value] + p.data);
    assert raw[2..] == TransportId(p) + raw[offset..];
    assert raw[1..] == [raw[1]] + raw[2..];
  }

  // ----- what a relay leaves alone -----

  /** The low flag nibble and everything after the hops octet. */
  function HashablePart(raw: seq<byte>): seq<byte>
    requires |raw| >= 2
  {
    [raw[0] % 16] + raw[2..]
  }

  /** What a link id hashes: link requests lose what follows their keys. */
  function LinkIdPart(raw: seq<byte>, dataLength: nat): seq<byte>
    requires |raw| >= 2 && dataLength <= |raw|
  {
    var part := HashablePart(raw);
    var extra := if dataLength > LINK_ECPUBSIZE then dataLength - LINK_ECPUBSIZE else 0;
    if extra <= |part| then part[..|part| - extra] else []
  }

  /** A hop count `n` hops later. */
  function Later(hops: byte, n: nat): byte { (hops as int + n) % 0x100 }

  /** The octets a node passes on: one more hop. */
  function Forwarded(raw: seq<byte>): seq<byte>
    requires |raw| >= 2
  {
    raw[1 := Later(raw[1], 1)]
  }

  /** The octets after `n` relays. */
  function ForwardedBy(raw: seq<byte>, n: nat): (r: seq<byte>)
    requires |raw| >= 2
    ensures |r| == |raw|
  {
    if n == 0 then raw else Forwarded(ForwardedBy(raw, n - 1))
  }

  /** Only the hop count of the unpacked packet depends on the hops octet. */
  lemma HopsOctet(raw: seq<byte>, hops: byte)
    requires |raw| >= 2
    ensures HashablePart(raw[1 := hops]) == HashablePart(raw)
    ensures Unpack(raw).None? ==> Unpack(raw[1 := hops]).None?
    ensures Unpack(raw).Some? ==> Unpack(raw[1 := hops]) == Some(Unpack(raw).value.(hops := hops))
  {
    var f := raw[1 := hops];
    assert f[2..] == raw[2..];
    forall lo: nat, hi: nat | 2 <= lo ensures Slice(f, lo, hi) == Slice(raw, lo, hi) {}
  }

  lemma {:induction false} ForwardedShape(raw: seq<byte>, n: nat)
    requires |raw| >= 2
    ensures ForwardedBy(raw, n) == raw[1 := Later(raw[1], n)]
  {
    if n > 0 {
      ForwardedShape(raw, n - 1);
      assert Later(Later(raw[1], n - 1), 1) == Later(raw[1], n);
    } else {
      assert raw[1 := raw[1]] == raw && Later(raw[1], 0) == raw[1];
    }
  }

  /** However many nodes have relayed a packet, every one of them and both ends hash
      the same octets for it and for its link, and unpack the same packet but for
      the hop count. */
  lemma RelaysHashAlike(raw: seq<byte>, n: nat, dataLength: nat)
    requires |raw| >= 2 && dataLength <= |raw|
    ensures HashablePart(ForwardedBy(raw, n)) == HashablePart(raw)
    ensures LinkIdPart(ForwardedBy(raw, n), dataLength) == LinkIdPart(raw, dataLength)
    ensures Unpack(raw).None? ==> Unpack(ForwardedBy(raw, n)).None?
    ensures Unpack(raw).Some? ==> Unpack(ForwardedBy(raw, n)) == Some(Unpack(raw).value.(hops := Later(raw[1], n)))
  {
    ForwardedShape(raw, n);
    HopsOctet(raw, Later(raw[1], n));
  }

  /** Which link a request names: its own type bits, destination, context and keys,
      and nothing else; the hop count and what follows the keys do not matter. */
  lemma LinkIdCovers(p: Packet, q: Packet)
    requires WellFormed(p) && WellFormed(q) && p.headerType == q.headerType == 0
    requires |p.data| >= LINK_ECPUBSIZE && |q.data| >= LINK_ECPUBSIZE
    ensures LinkIdPart(Pack(p), |p.data|) == LinkIdPart(Pack(q), |q.data|) <==>
            (p.destinationType == q.destinationType && p.packetType == q.packetType
             && p.destinationHash == q.destinationHash && p.context == q.context
             && p.data[..LINK_ECPUBSIZE] == q.data[..LINK_ECPUBSIZE])
  {
    LinkIdPartOf(p);
    LinkIdPartOf(q);
    var a, b := LinkIdPart(Pack(p), |p.data|), LinkIdPart(Pack(q), |q.data|);
    assert a[0] == p.destinationType * 4 + p.packetType && b[0] == q.destinationType * 4 + q.packetType;
    assert a[1..17] == p.destinationHash && b[1..17] == q.destinationHash;
    assert a[17] == p.context.value && b[17] == q.context.value;
    assert a[18..] == p.data[..LINK_ECPUBSIZE] && b[18..] == q.data[..LINK_ECPUBSIZE];
  }

  lemma LinkIdPartOf(p: Packet)
    requires WellFormed(p) && p.headerType == 0 && |p.data| >= LINK_ECPUBSIZE
    ensures LinkIdPart(Pack(p), |p.data|) ==
            [p.destinationType * 4 + p.packetType] + (p.destinationHash + ([p.context.value] + p.data[..LINK_ECPUBSIZE]))
  {
    var raw := Pack(p);
    var low := p.destinationType * 4 + p.packetType;
    FlagFields(p);
    assert raw[0] as int % 16 == low;
    var rest := p.destinationHash + ([p.context.value] + p.data);
    assert raw[2..] == rest;
    assert HashablePart(raw) == [low] + rest && |HashablePart(raw)| == 18 + |p.data|;
    assert ([low] + rest)[..82] == [low] + (p.destinationHash + ([p.context.value] + p.data[..LINK_ECPUBSIZE]));
  }
}
