/** In every run of resource transfers every packet fits the MTU. */
module ResourceFits {
  import opened Bytes
  import opened ResourceIncoming
  import opened ResourceTransfer
  import opened ResourceDelivery
  import Proof = ResourceDeliveryProof
  import Wire = ResourceWire

  /** How hashes are written, and what an advertisement says beyond its header. */
  datatype Codes = Codes(
    mapHash: Hash -> seq<byte>, resourceHash: Hash -> seq<byte>,
    transferSize: Header -> nat, dataSize: Header -> nat, requestId: Header -> Option<seq<byte>>,
    isRequest: Header -> bool, isResponse: Header -> bool)

  ghost predicate CodesOk(c: Codes) {
    && (forall h :: |c.mapHash(h)| == Wire.MAPHASH_LEN && |c.resourceHash(h)| == 32)
    && (forall h: Header :: c.transferSize(h) < 0x1_0000_0000 && c.dataSize(h) < 0x1_0000_0000)
    && (forall h: Header :: c.requestId(h).Some? ==> |c.requestId(h).value| == 16)
  }

  function Coded(c: Codes, hs: seq<Hash>): seq<seq<byte>> {
    seq(|hs|, k requires 0 <= k < |hs| => c.mapHash(hs[k]))
  }

  function RequestOf(c: Codes, q: Request): Wire.PartRequest {
    Wire.PartRequest(if q.last.Some? then Some(c.mapHash(q.last.value)) else None, c.resourceHash(q.id), Coded(c, q.wanted))
  }

  function AdvertisementFor(c: Codes, h: Header, totalParts: nat, entries: seq<Hash>): Wire.Advertisement {
    Wire.Advertisement(
      c.transferSize(h), c.dataSize(h), totalParts, c.resourceHash(h.id), c.mapHash(h.random), c.resourceHash(h.original),
      h.index, h.total, c.requestId(h), h.compressed, c.isRequest(h), c.isResponse(h), Join(Coded(c, entries)))
  }

  /** The length of a packet on the wire. Parts are sealed already and proofs are
      not sealed; the others are sealed one by one. */
  function WireLength(c: Codes, p: Packet): nat {
    match p
    case Advertise(h, n, entries) =>
      Wire.PACKET_HEADER_SIZE + Wire.SealedLength(|Wire.BuildAdvertisement(AdvertisementFor(c, h, n, entries))|)
    case Ask(q) => Wire.PACKET_HEADER_SIZE + Wire.SealedLength(|Wire.BuildRequest(RequestOf(c, q))|)
    case MoreHashes(id, segment, chunk) =>
      Wire.PACKET_HEADER_SIZE + Wire.SealedLength(|Wire.BuildHmu(c.resourceHash(id), segment, Join(Coded(c, chunk)))|)
    case PartData(part) => Wire.PACKET_HEADER_SIZE + |part|
    case Proof(_, _) => Wire.PACKET_HEADER_SIZE + 64
  }

  /** Short enough to be advertised in one packet: not tagged, or fewer than 128
      segments. */
  predicate Announceable(c: Codes, p: Packet) {
    p.Advertise? ==> c.requestId(p.header).None? || p.header.total < 128
  }

  lemma AskFits(c: Codes, q: Request)
    requires CodesOk(c) && |q.wanted| <= WINDOW_MAX_FAST
    ensures WireLength(c, Ask(q)) <= Wire.MTU
  {
    Wire.ShortRequestFits(RequestOf(c, q));
  }

  lemma PieceFits(c: Codes, hs: seq<Hash>, id: Hash, segment: nat, chunk: seq<Hash>)
    requires CodesOk(c) && IsPiece(hs, segment, chunk) && |hs| <= MAX_PARTS
    ensures WireLength(c, MoreHashes(id, segment, chunk)) <= Wire.MTU
  {
    Wire.ChunksJoined(Coded(c, chunk));
    Wire.HmuFits(c.resourceHash(id), segment, Join(Coded(c, chunk)));
  }

  lemma AdvertisementFits(env: Env, c: Codes, s: Segment)
    requires CodesOk(c) && |Parts(s)| <= MAX_PARTS && 1 <= s.header.index <= s.header.total < 0x1_0000_0000
    requires Announceable(c, AdvertisementOf(env, s))
    ensures WireLength(c, AdvertisementOf(env, s)) <= Wire.MTU
  {
    var p := AdvertisementOf(env, s);
    Wire.ChunksJoined(Coded(c, p.entries));
    Wire.AdvertisementFits(AdvertisementFor(c, p.header, p.totalParts, p.entries));
  }

  lemma PartFits(c: Codes, s: Segment, i: nat)
    requires i < |Parts(s)|
    ensures WireLength(c, PartData(Parts(s)[i])) <= Wire.MTU
  {
    CutCount(s.cipher, SDU);
  }

  /** Every packet ever under way fits the MTU, but for advertisements of tagged
      transfers of 128 segments or more. */
  lemma PacketsFit(env: Env, w: World, evs: seq<Event>, c: Codes, p: Packet)
    requires WorldOk(env, w) && CodesOk(c) && forall t :: 0 <= t < |w| ==> |w[t]| < 0x1_0000_0000
    requires p in Run(env, w, Start(w), evs).net && Announceable(c, p)
    ensures WireLength(c, p) <= Wire.MTU
  {
    var s := Run(env, w, Start(w), evs);
    Proof.StartInv(env, w);
    Proof.RunInv(env, w, Start(w), evs);
    assert PacketOk(env, w, s, p);
    match p
    case Ask(q) => AskFits(c, q);
    case MoreHashes(id, segment, chunk) =>
      var r :| IsRef(w, r) && IsPiece(Hashes(env, At(w, r)), segment, chunk);
      assert Sealed(env, At(w, r));
      PieceFits(c, Hashes(env, At(w, r)), id, segment, chunk);
    case Advertise(h, n, entries) =>
      var r :| Current(w, s, r) && p == AdvertisementOf(env, At(w, r));
      assert Sealed(env, At(w, r));
      AdvertisementFits(env, c, At(w, r));
    case PartData(part) =>
      var r, i: nat :| IsRef(w, r) && i < |Parts(At(w, r))| && part == Parts(At(w, r))[i];
      PartFits(c, At(w, r), i);
    case Proof(_, _) =>
  }
}
