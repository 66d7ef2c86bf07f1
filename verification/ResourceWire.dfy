/** The octets of a resource transfer: part requests, hashmap updates and
    advertisements, what they parse back to, and that they fit a packet. */
module ResourceWire {
  import opened Bytes
  import opened Envelope
  import opened MsgPack
  import opened MsgPackObject
  import opened MsgPackRoundTrip
  import ResourceIncoming
  import ResourceProgress
  import ResourceTransfer

  const MTU := 500
  const PACKET_HEADER_SIZE := 19
  const MAPHASH_LEN := 4
  const HASHMAP_MAX_LEN := ResourceIncoming.HASHMAP_MAX_LEN

  // ----- sealing -----

  /** IV, padding to whole blocks with at least one octet, and a MAC. */
  function SealedLength(n: nat): nat { 16 + 16 * (n / 16 + 1) + 32 }

  predicate FitsPacket(n: nat) { PACKET_HEADER_SIZE + SealedLength(n) <= MTU }

  /** LINK_MDU is the longest plaintext whose sealed packet fits the MTU. */
  lemma LinkMduIsLargest(n: nat)
    ensures FitsPacket(n) <==> n <= LINK_MDU
  {
    assert n <= 431 ==> n / 16 <= 26;
    assert n >= 432 ==> n / 16 >= 27;
  }

  /** A segment of at most SEGMENT_MAX_SIZE octets, salted and sealed, never needs
      more than MAX_PARTS parts, so preparing it never throws. */
  lemma SegmentNeverTooLong(body: seq<byte>, cipher: seq<byte>)
    requires |body| <= ResourceTransfer.SEGMENT_MAX_SIZE
    requires |cipher| == SealedLength(ResourceTransfer.RANDOM_HASH_LEN + |body|)
    ensures |ResourceTransfer.Cut(cipher, ResourceTransfer.SDU)| <= ResourceTransfer.MAX_PARTS
  {
    ResourceTransfer.CutCount(cipher, ResourceTransfer.SDU);
    assert |cipher| <= ResourceTransfer.SEGMENT_MAX_SIZE + 68;
  }

  // ----- part requests -----

  /** `last` is the last known map hash when the known ones have run out. */
  datatype PartRequest = PartRequest(last: Option<seq<byte>>, id: seq<byte>, wanted: seq<seq<byte>>)

  function BuildRequest(q: PartRequest): seq<byte> {
    (if q.last.Some? then [0xff] + q.last.value else [0x00]) + q.id + Join(q.wanted)
  }

  /** Consecutive map hashes; the last may be cut short. */
  function Chunks(s: seq<byte>): seq<seq<byte>>
    decreases |s|
  {
    if s == [] then [] else [Slice(s, 0, MAPHASH_LEN)] + Chunks(Slice(s, MAPHASH_LEN, |s|))
  }

  function ParseRequest(data: seq<byte>): PartRequest {
    var exhausted := data != [] && data[0] == 0xff;
    var offset := if exhausted then 1 + MAPHASH_LEN else 1;
    PartRequest(if exhausted then Some(Slice(data, 1, offset)) else None,
                Slice(data, offset, offset + 32), Chunks(Slice(data, offset + 32, |data|)))
  }

  lemma OneMoreChunk(raw: seq<byte>, i: nat, done: seq<seq<byte>>)
    requires i < |raw| && done + Chunks(Slice(raw, i, |raw|)) == Chunks(raw)
    ensures done + [Slice(raw, i, i + MAPHASH_LEN)] + Chunks(Slice(raw, i + MAPHASH_LEN, |raw|)) == Chunks(raw)
  {
    var rest := Slice(raw, i, |raw|);
    assert Slice(rest, 0, MAPHASH_LEN) == Slice(raw, i, i + MAPHASH_LEN);
    assert Slice(rest, MAPHASH_LEN, |rest|) == Slice(raw, i + MAPHASH_LEN, |raw|);
    assert done + ([Slice(raw, i, i + MAPHASH_LEN)] + Chunks(Slice(raw, i + MAPHASH_LEN, |raw|))) == Chunks(raw);
  }

  /** The parser, cutting the wanted hashes one by one. */
  method ParseResourceRequest(data: seq<byte>) returns (q: PartRequest)
    ensures q == ParseRequest(data)
  {
    var exhausted := data != [] && data[0] == 0xff;
    var offset := 1;
    var last := None;
    if exhausted {
      last := Some(Slice(data, 1, 1 + MAPHASH_LEN));
      offset := 1 + MAPHASH_LEN;
    }
    var raw := Slice(data, offset + 32, |data|);
    var wanted := [];
    var i := 0;
    assert Slice(raw, 0, |raw|) == raw && [] + Chunks(raw) == Chunks(raw);
    while i < |raw|
      invariant 0 <= i
      invariant wanted + Chunks(Slice(raw, i, |raw|)) == Chunks(raw)
    {
      OneMoreChunk(raw, i, wanted);
      wanted := wanted + [Slice(raw, i, i + MAPHASH_LEN)];
      i := i + MAPHASH_LEN;
    }
    assert wanted + [] == wanted;
    q := PartRequest(last, Slice(data, offset, offset + 32), wanted);
  }

  predicate HashesOk(hashes: seq<seq<byte>>) { forall k :: 0 <= k < |hashes| ==> |hashes[k]| == MAPHASH_LEN }

  predicate RequestOk(q: PartRequest) {
    |q.id| == 32 && HashesOk(q.wanted) && (q.last.Some? ==> |q.last.value| == MAPHASH_LEN)
  }

  lemma {:induction false} ChunksJoined(hashes: seq<seq<byte>>)
    requires HashesOk(hashes)
    ensures Chunks(Join(hashes)) == hashes && |Join(hashes)| == MAPHASH_LEN * |hashes|
  {
    if hashes != [] {
      var s := Join(hashes);
      ChunksJoined(hashes[1..]);
      assert Slice(s, 0, MAPHASH_LEN) == hashes[0] && Slice(s, MAPHASH_LEN, |s|) == Join(hashes[1..]);
    }
  }

  /** Every request parses back to itself. */
  lemma RequestRoundTrip(q: PartRequest)
    requires RequestOk(q)
    ensures ParseRequest(BuildRequest(q)) == q
  {
    var data := BuildRequest(q);
    ChunksJoined(q.wanted);
    var offset := if q.last.Some? then 5 else 1;
    assert q.last.Some? ==> Slice(data, 1, 5) == q.last.value;
    assert Slice(data, offset, offset + 32) == q.id;
    assert Slice(data, offset + 32, |data|) == Join(q.wanted);
  }

  /** A request for at most 75 parts fits one packet. */
  lemma ShortRequestFits(q: PartRequest)
    requires RequestOk(q) && |q.wanted| <= ResourceIncoming.WINDOW_MAX_FAST
    ensures FitsPacket(|BuildRequest(q)|)
  {
    ChunksJoined(q.wanted);
    LinkMduIsLargest(|BuildRequest(q)|);
  }

  /** Whatever a transfer asks for, with its window within bounds, fits one packet. */
  lemma RequestFits(inc: ResourceIncoming.Incoming, q: PartRequest)
    requires ResourceIncoming.HeightOk(inc) && ResourceProgress.WindowsOk(inc) && RequestOk(q)
    requires ResourceIncoming.RequestNext(inc).request.Some?
    requires |q.wanted| == |ResourceIncoming.RequestNext(inc).request.value.wanted|
    ensures |q.wanted| <= ResourceIncoming.WINDOW_MAX_FAST && FitsPacket(|BuildRequest(q)|)
  {
    ShortRequestFits(q);
  }

  // ----- hashmap updates -----

  function HmuValue(segment: nat, chunk: seq<byte>): Value { Arr([Int(segment), Bin(chunk)]) }

  function BuildHmu(id: seq<byte>, segment: nat, chunk: seq<byte>): seq<byte> { id + Pack(HmuValue(segment, chunk)) }

  datatype Hmu = Hmu(id: seq<byte>, segment: Value, chunk: Value)

  /** None when the body is not an array of at least two values. */
  function ParseHmu(data: seq<byte>): Option<Hmu> {
    var p := Parse(Slice(data, 32, |data|));
    if p.None? then None
    else
      var v := Decoded(p.value.value);
      if v.Arr? && |v.items| >= 2 then Some(Hmu(Slice(data, 0, 32), v.items[0], v.items[1])) else None
  }

  lemma HmuRoundTrip(id: seq<byte>, segment: nat, chunk: seq<byte>)
    requires |id| == 32 && segment <= 0x1f_ffff_ffff_ffff && |chunk| < 0x1_0000_0000
    ensures ParseHmu(BuildHmu(id, segment, chunk)) == Some(Hmu(id, Int(segment), Bin(chunk)))
  {
    var v := HmuValue(segment, chunk);
    var data := BuildHmu(id, segment, chunk);
    assert Slice(data, 0, 32) == id && Slice(data, 32, |data|) == Pack(v) + [];
    assert v.items[0] == Int(segment) && v.items[1] == Bin(chunk);
    assert Packable(Int(segment)) && Packable(Bin(chunk));
    ParsePack(v, []);
    FaithfulIsKept(v);
  }

  lemma HmuLength(id: seq<byte>, segment: nat, chunk: seq<byte>)
    ensures |BuildHmu(id, segment, chunk)| == |id| + 1 + |PackInt(segment)| + |BinHeader(|chunk|)| + |chunk|
  {
    var items := [Int(segment), Bin(chunk)];
    assert items[1..] == [Bin(chunk)] && [Bin(chunk)][1..] == [];
    assert PackAll([Bin(chunk)]) == Pack(Bin(chunk)) + PackAll([]);
    assert |PackAll(items)| == |Pack(Int(segment))| + |Pack(Bin(chunk))|;
  }

  /** Every piece of the hashmap of an allowed segment fits one packet. */
  lemma HmuFits(id: seq<byte>, segment: nat, chunk: seq<byte>)
    requires |id| == 32 && segment * HASHMAP_MAX_LEN < ResourceTransfer.MAX_PARTS
    requires |chunk| <= HASHMAP_MAX_LEN * MAPHASH_LEN
    ensures FitsPacket(|BuildHmu(id, segment, chunk)|)
  {
    HmuLength(id, segment, chunk);
    LinkMduIsLargest(|BuildHmu(id, segment, chunk)|);
  }

  // ----- advertisements -----

  datatype Advertisement = Advertisement(
    transferSize: nat, dataSize: nat, totalParts: nat, resourceHash: seq<byte>, randomHash: seq<byte>,
    originalHash: seq<byte>, segmentIndex: nat, totalSegments: nat, requestId: Option<seq<byte>>,
    compressed: bool, isRequest: bool, isResponse: bool, hashmap: seq<byte>)

  function Flags(a: Advertisement): nat {
    0x01 + (if a.compressed then 0x02 else 0) + (if a.totalSegments > 1 then 0x04 else 0)
    + (if a.isRequest then 0x08 else 0) + (if a.isResponse then 0x10 else 0)
  }

  function Field(name: byte, v: Value): Entry { Entry(Str([name]), v) }

  function RequestIdValue(a: Advertisement): Value { if a.requestId.None? then Nil else Bin(a.requestId.value) }

  /** The piece of the hashmap an advertisement carries. */
  function FirstPiece(a: Advertisement): seq<byte> { Slice(a.hashmap, 0, HASHMAP_MAX_LEN * MAPHASH_LEN) }

  /** The fields t, d, n, h, r, o, i, l, q, f and m. */
  function AdvertisementFields(a: Advertisement): seq<Entry> {
    [Field(0x74, Int(a.transferSize)), Field(0x64, Int(a.dataSize)), Field(0x6e, Int(a.totalParts)),
     Field(0x68, Bin(a.resourceHash)), Field(0x72, Bin(a.randomHash)), Field(0x6f, Bin(a.originalHash)),
     Field(0x69, Int(a.segmentIndex)), Field(0x6c, Int(a.totalSegments)), Field(0x71, RequestIdValue(a)),
     Field(0x66, Int(Flags(a))), Field(0x6d, Bin(FirstPiece(a)))]
  }

  function BuildAdvertisement(a: Advertisement): seq<byte> { Pack(Obj(AdvertisementFields(a))) }

  datatype ParsedAdvertisement = ParsedAdvertisement(
    transferSize: Value, dataSize: Value, totalParts: Value, resourceHash: Value, randomHash: Value,
    originalHash: Value, segmentIndex: Value, totalSegments: Value, requestId: Value,
    encrypted: bool, compressed: bool, split: bool, isRequest: bool, isResponse: bool, hasMetadata: bool, hashmap: Value)

  function Get(ps: seq<Entry>, name: byte): Value {
    var i := Find(ps, [name]);
    if i < |ps| then ps[i].value else Nil
  }

  function Bit(flags: int, weight: nat): bool
    requires weight > 0
  {
    (flags / weight) % 2 == 1
  }

  /** None when the octets are not a map or its flags not an integer. */
  function ParseAdvertisement(data: seq<byte>): Option<ParsedAdvertisement> {
    var p := Parse(data);
    if p.None? then None
    else
      var v := Decoded(p.value.value);
      if !v.Obj? || !Get(v.entries, 0x66).Int? then None
      else
        var d, f := v.entries, Get(v.entries, 0x66).i;
        Some(ParsedAdvertisement(
          Get(d, 0x74), Get(d, 0x64), Get(d, 0x6e), Get(d, 0x68), Get(d, 0x72), Get(d, 0x6f), Get(d, 0x69), Get(d, 0x6c),
          Get(d, 0x71), Bit(f, 1), Bit(f, 2), Bit(f, 4), Bit(f, 8), Bit(f, 16), Bit(f, 32), Get(d, 0x6d)))
  }

  predicate AdvertisementOk(a: Advertisement) {
    && a.transferSize < 0x1_0000_0000 && a.dataSize < 0x1_0000_0000 && a.totalParts <= ResourceTransfer.MAX_PARTS
    && |a.resourceHash| == 32 && |a.randomHash| == 4 && |a.originalHash| == 32
    && 1 <= a.segmentIndex <= a.totalSegments < 0x1_0000_0000
    && (a.requestId.Some? ==> |a.requestId.value| == 16)
    && |a.hashmap| <= MAPHASH_LEN * a.totalParts
  }

  lemma FieldsFaithful(a: Advertisement)
    requires AdvertisementOk(a)
    ensures Packable(Obj(AdvertisementFields(a))) && Faithful(Obj(AdvertisementFields(a)))
  {
    var fs := AdvertisementFields(a);
    forall k | 0 <= k < |fs| ensures PackableEntry(fs[k]) && FaithfulEntry(fs[k]) {
      assert Packable(fs[k].value) && Faithful(fs[k].value) && |fs[k].key.text| == 1;
    }
    FieldsDistinct(a);
  }

  lemma GetAt(ps: seq<Entry>, i: nat, name: byte)
    requires i < |ps| && ps[i].key == Str([name])
    requires DistinctKeys(ps)
    ensures Get(ps, name) == ps[i].value
  {
  }

  /** An advertisement parses back to its fields, with the hashmap cut to its first
      piece and the split flag set for more than one segment. */
  lemma AdvertisementRoundTrip(a: Advertisement, suffix: seq<byte>)
    requires AdvertisementOk(a)
    ensures ParseAdvertisement(BuildAdvertisement(a) + suffix) == Some(ParsedAdvertisement(
      Int(a.transferSize), Int(a.dataSize), Int(a.totalParts), Bin(a.resourceHash), Bin(a.randomHash),
      Bin(a.originalHash), Int(a.segmentIndex), Int(a.totalSegments), RequestIdValue(a),
      true, a.compressed, a.totalSegments > 1, a.isRequest, a.isResponse, false, Bin(FirstPiece(a))))
  {
    var fs := AdvertisementFields(a);
    AdvertisementReads(a, suffix);
    GetSizes(a);
    GetOctets(a);
    FlagBits(a);
  }

  lemma AdvertisementReads(a: Advertisement, suffix: seq<byte>)
    requires AdvertisementOk(a)
    ensures Parse(BuildAdvertisement(a) + suffix) == Some(Parsed(Obj(AdvertisementFields(a)), suffix))
    ensures Decoded(Obj(AdvertisementFields(a))) == Obj(AdvertisementFields(a))
  {
    var v := Obj(AdvertisementFields(a));
    FieldsFaithful(a);
    ParsePack(v, suffix);
    FaithfulIsKept(v);
  }

  lemma FlagBits(a: Advertisement)
    ensures Bit(Flags(a), 1) && Bit(Flags(a), 2) == a.compressed && Bit(Flags(a), 4) == (a.totalSegments > 1)
    ensures Bit(Flags(a), 8) == a.isRequest && Bit(Flags(a), 16) == a.isResponse && !Bit(Flags(a), 32)
  {
  }

  predicate DistinctKeys(ps: seq<Entry>) { forall j, k :: 0 <= j < k < |ps| ==> ps[j].key != ps[k].key }

  lemma FieldsDistinct(a: Advertisement)
    ensures DistinctKeys(AdvertisementFields(a))
  {
    var fs := AdvertisementFields(a);
    forall j, k | 0 <= j < k < |fs| ensures fs[j].key != fs[k].key {
      assert fs[j].key.text[0] != fs[k].key.text[0];
    }
  }

  lemma GetSizes(a: Advertisement)
    ensures var fs := AdvertisementFields(a);
      && Get(fs, 0x74) == Int(a.transferSize) && Get(fs, 0x64) == Int(a.dataSize) && Get(fs, 0x6e) == Int(a.totalParts)
      && Get(fs, 0x69) == Int(a.segmentIndex) && Get(fs, 0x6c) == Int(a.totalSegments)
  {
    var fs := AdvertisementFields(a);
    FieldsDistinct(a);
    GetAt(fs, 0, 0x74);
    GetAt(fs, 1, 0x64);
    GetAt(fs, 2, 0x6e);
    GetAt(fs, 6, 0x69);
    GetAt(fs, 7, 0x6c);
  }

  lemma GetOctets(a: Advertisement)
    ensures var fs := AdvertisementFields(a);
      && Get(fs, 0x68) == Bin(a.resourceHash) && Get(fs, 0x72) == Bin(a.randomHash) && Get(fs, 0x6f) == Bin(a.originalHash)
      && Get(fs, 0x71) == RequestIdValue(a) && Get(fs, 0x66) == Int(Flags(a)) && Get(fs, 0x6d) == Bin(FirstPiece(a))
  {
    var fs := AdvertisementFields(a);
    FieldsDistinct(a);
    GetAt(fs, 3, 0x68);
    GetAt(fs, 4, 0x72);
    GetAt(fs, 5, 0x6f);
    GetAt(fs, 8, 0x71);
    GetAt(fs, 9, 0x66);
    GetAt(fs, 10, 0x6d);
  }

  /** The packed length of the entries from `k` on. */
  function LengthFrom(es: seq<Entry>, k: nat): nat
    requires k <= |es|
    decreases |es| - k
  {
    if k == |es| then 0 else |PackEntry(es[k])| + LengthFrom(es, k + 1)
  }

  lemma {:induction false} PackedLength(es: seq<Entry>, k: nat)
    requires k <= |es|
    ensures |PackEntries(es[k..])| == LengthFrom(es, k)
    decreases |es| - k
  {
    if k < |es| {
      PackedLength(es, k + 1);
      assert es[k..][0] == es[k] && es[k..][1..] == es[k + 1..];
    }
  }

  lemma LengthStep(es: seq<Entry>, k: nat, name: byte, v: Value)
    requires k < |es| && es[k] == Field(name, v)
    ensures LengthFrom(es, k) == 2 + |Pack(v)| + LengthFrom(es, k + 1)
  {
    assert Pack(Str([name])) == [0xa1] + [name];
  }

  lemma BinStep(es: seq<Entry>, k: nat, name: byte, octets: seq<byte>)
    requires k < |es| && es[k] == Field(name, Bin(octets))
    ensures LengthFrom(es, k) == 2 + BinLength(|octets|) + LengthFrom(es, k + 1)
  {
    LengthStep(es, k, name, Bin(octets));
  }

  lemma IntStep(es: seq<Entry>, k: nat, name: byte, i: int)
    requires k < |es| && es[k] == Field(name, Int(i))
    ensures LengthFrom(es, k) == 2 + |PackInt(i)| + LengthFrom(es, k + 1)
  {
    LengthStep(es, k, name, Int(i));
  }

  function BinLength(n: nat): nat { |BinHeader(n)| + n }

  lemma LastFieldsLength(a: Advertisement)
    requires AdvertisementOk(a)
    ensures LengthFrom(AdvertisementFields(a), 6) == 11 + |PackInt(a.segmentIndex)| + |PackInt(a.totalSegments)|
              + (if a.requestId.Some? then 18 else 1) + BinLength(|FirstPiece(a)|)
  {
    var fs := AdvertisementFields(a);
    IntStep(fs, 6, 0x69, a.segmentIndex);
    IntStep(fs, 7, 0x6c, a.totalSegments);
    LengthStep(fs, 8, 0x71, RequestIdValue(a));
    IntStep(fs, 9, 0x66, Flags(a));
    BinStep(fs, 10, 0x6d, FirstPiece(a));
  }

  lemma FirstFieldsLength(a: Advertisement)
    requires AdvertisementOk(a)
    ensures LengthFrom(AdvertisementFields(a), 0) == 86 + |PackInt(a.transferSize)| + |PackInt(a.dataSize)|
              + |PackInt(a.totalParts)| + LengthFrom(AdvertisementFields(a), 6)
  {
    var fs := AdvertisementFields(a);
    IntStep(fs, 0, 0x74, a.transferSize);
    IntStep(fs, 1, 0x64, a.dataSize);
    IntStep(fs, 2, 0x6e, a.totalParts);
    BinStep(fs, 3, 0x68, a.resourceHash);
    BinStep(fs, 4, 0x72, a.randomHash);
    BinStep(fs, 5, 0x6f, a.originalHash);
  }

  /** The length of an advertisement, to the octet. */
  lemma AdvertisementLength(a: Advertisement)
    requires AdvertisementOk(a)
    ensures |BuildAdvertisement(a)| == 98 + |PackInt(a.transferSize)| + |PackInt(a.dataSize)| + |PackInt(a.totalParts)|
              + |PackInt(a.segmentIndex)| + |PackInt(a.totalSegments)| + (if a.requestId.Some? then 18 else 1)
              + BinLength(|FirstPiece(a)|)
  {
    var fs := AdvertisementFields(a);
    PackedLength(fs, 0);
    assert fs[0..] == fs;
    FirstFieldsLength(a);
    LastFieldsLength(a);
  }

  lemma IntLength(i: nat)
    requires i < 0x1_0000_0000
    ensures |PackInt(i)| == if i < 128 then 1 else if i < 0x100 then 2 else if i < 0x1_0000 then 3 else 5
  {
  }

  /** An advertisement fits one packet if it carries no request id, or belongs to
      a transfer of fewer than 128 segments. */
  lemma AdvertisementFits(a: Advertisement)
    requires AdvertisementOk(a) && (a.requestId.None? || a.totalSegments < 128)
    ensures FitsPacket(|BuildAdvertisement(a)|)
  {
    AdvertisementLength(a);
    IntLength(a.transferSize);
    IntLength(a.dataSize);
    IntLength(a.totalParts);
    IntLength(a.segmentIndex);
    IntLength(a.totalSegments);
    LinkMduIsLargest(|BuildAdvertisement(a)|);
  }

  /** The exact limit for a tagged segment with a full hashmap piece and long
      enough data: the two segment numbers take at most three octets. */
  lemma TaggedAdvertisementLimit(a: Advertisement)
    requires AdvertisementOk(a) && a.requestId.Some?
    requires a.transferSize >= 0x1_0000 && a.dataSize >= 0x1_0000 && a.totalParts >= 0x100
    requires |a.hashmap| == MAPHASH_LEN * a.totalParts
    ensures var twoOctets := a.totalSegments < 128 || (a.segmentIndex < 128 && a.totalSegments < 256);
      FitsPacket(|BuildAdvertisement(a)|) <==> twoOctets
  {
    AdvertisementLength(a);
    IntLength(a.transferSize);
    IntLength(a.dataSize);
    IntLength(a.totalParts);
    IntLength(a.segmentIndex);
    IntLength(a.totalSegments);
    LinkMduIsLargest(|BuildAdvertisement(a)|);
  }
}
