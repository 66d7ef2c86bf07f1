/** The resource half of a Link as it runs: loops that pick the parts to request,
    find the row a part belongs to, cut a ciphertext into parts and answer
    requests. */
module ResourceLink {
  import opened Bytes
  import opened ResourceIncoming
  import opened ResourceTransfer

  /** sendResource() cuts its data into segments; no data is one empty segment. */
  method Segments(data: seq<byte>) returns (segments: seq<seq<byte>>)
    ensures segments == Cut(data, SEGMENT_MAX_SIZE)
  {
    segments := [];
    if |data| == 0 { return [data]; }
    var offset := 0;
    assert data[0..] == data && [] + Cut(data, SEGMENT_MAX_SIZE) == Cut(data, SEGMENT_MAX_SIZE);
    while offset < |data|
      invariant 0 <= offset
      invariant offset < |data| ==> segments + Cut(data[offset..], SEGMENT_MAX_SIZE) == Cut(data, SEGMENT_MAX_SIZE)
      invariant offset >= |data| ==> segments == Cut(data, SEGMENT_MAX_SIZE)
    {
      var end := if offset + SEGMENT_MAX_SIZE < |data| then offset + SEGMENT_MAX_SIZE else |data|;
      ghost var rest := data[offset..];
      if |rest| > SEGMENT_MAX_SIZE {
        assert rest[..SEGMENT_MAX_SIZE] == data[offset..end] && rest[SEGMENT_MAX_SIZE..] == data[end..];
        assert segments + Cut(rest, SEGMENT_MAX_SIZE) == segments + [data[offset..end]] + Cut(data[end..], SEGMENT_MAX_SIZE);
      } else {
        assert data[offset..end] == rest;
      }
      segments := segments + [data[offset..end]];
      offset := offset + SEGMENT_MAX_SIZE;
    }
  }

  /** Cuts a segment's ciphertext into parts and hashes each of them. */
  method ResourcePrepare(env: Env, cipher: seq<byte>, random: Hash)
    returns (parts: seq<Part>, hashmapEntries: seq<Hash>)
    ensures parts == Cut(cipher, SDU) && |hashmapEntries| == |parts|
    ensures forall k :: 0 <= k < |parts| ==> hashmapEntries[k] == env.mapHash(parts[k], random)
  {
    var totalParts := if |cipher| <= SDU then 1 else (|cipher| + SDU - 1) / SDU;
    parts, hashmapEntries := [], [];
    assert cipher[0..] == cipher;
    assert totalParts > 1 ==> (totalParts - 1) * SDU < |cipher| <= totalParts * SDU;
    for i := 0 to totalParts
      invariant |parts| == |hashmapEntries| == i
      invariant i < totalParts ==> i * SDU <= |cipher| && parts + Cut(cipher[i * SDU..], SDU) == Cut(cipher, SDU)
      invariant i == totalParts ==> parts == Cut(cipher, SDU)
      invariant forall k :: 0 <= k < i ==> hashmapEntries[k] == env.mapHash(parts[k], random)
    {
      var end := if (i + 1) * SDU < |cipher| then (i + 1) * SDU else |cipher|;
      var partData := cipher[i * SDU..end];
      ghost var rest := cipher[i * SDU..];
      if i == totalParts - 1 {
        assert |rest| <= SDU && partData == rest;
      } else {
        assert |rest| > SDU && partData == rest[..SDU] && rest[SDU..] == cipher[(i + 1) * SDU..];
      }
      parts := parts + [partData];
      hashmapEntries := hashmapEntries + [env.mapHash(partData, random)];
    }
  }

  /** Sends the parts a request names and, when its hashes have run out, the next
      piece of the hashmap; false when the request is out of sequence. */
  method OnResourceRequest(env: Env, s: Segment, q: Request) returns (sends: seq<Packet>, inSequence: bool)
    ensures OnRequest(env, s, q) == if inSequence then Reply(sends) else OutOfSequence(sends)
  {
    sends := SendParts(env, s, q.wanted);
    if q.last.None? { return sends, true; }
    var hashmapEntries := Hashes(env, s);
    var found := FindIndex(hashmapEntries, q.last.value);
    var partIndex := if found < |hashmapEntries| then found + 1 else 0;
    if partIndex == 0 || partIndex % HASHMAP_MAX_LEN != 0 { return sends, false; }
    var segment := partIndex / HASHMAP_MAX_LEN;
    var chunkStart := segment * HASHMAP_MAX_LEN;
    var chunkEnd := if (segment + 1) * HASHMAP_MAX_LEN < |hashmapEntries| then (segment + 1) * HASHMAP_MAX_LEN else |hashmapEntries|;
    assert chunkStart == partIndex;
    sends := sends + [MoreHashes(q.id, segment, hashmapEntries[chunkStart..chunkEnd])];
    inSequence := true;
  }

  method SendParts(env: Env, s: Segment, wanted: seq<Hash>) returns (sends: seq<Packet>)
    ensures sends == Answer(Hashes(env, s), Parts(s), wanted)
  {
    var hashmapEntries, parts := Hashes(env, s), Parts(s);
    sends := [];
    assert wanted[0..] == wanted;
    for n := 0 to |wanted|
      invariant sends + Answer(hashmapEntries, parts, wanted[n..]) == Answer(hashmapEntries, parts, wanted)
    {
      var index := FindIndex(hashmapEntries, wanted[n]);
      assert wanted[n..][0] == wanted[n] && wanted[n..][1..] == wanted[n + 1..];
      if index < |parts| { sends := sends + [PartData(parts[index])]; }
    }
  }

  method FindIndex(hs: seq<Hash>, h: Hash) returns (index: nat)
    ensures index == IndexIn(hs, h)
  {
    index := 0;
    while index < |hs| && hs[index] != h
      invariant 0 <= index <= |hs| && forall k :: 0 <= k < index ==> hs[k] != h
    {
      index := index + 1;
    }
  }

  /** The receiving side; rows are in the order their advertisements came. */
  class ResourceLink {
    var incoming: seq<Incoming>
    var segmented: map<Hash, seq<seq<byte>>>
    var emitted: seq<Emission>
    ghost var proved: multiset<Hash>
    /** Everything sent so far. */
    var sent: seq<Packet>

    ghost function State(): Receiver
      reads this
    {
      Receiver(incoming, segmented, emitted, proved)
    }

    constructor ()
      ensures State() == Receiver([], map[], [], multiset{}) && sent == []
    {
      incoming, segmented, emitted, proved, sent := [], map[], [], multiset{}, [];
    }

    /** The row of a resource, or the number of rows. */
    method FindRow(id: Hash) returns (i: nat)
      ensures i == Row(incoming, id)
    {
      i := 0;
      assert incoming[0..] == incoming;
      while i < |incoming| && incoming[i].header.id != id
        invariant 0 <= i <= |incoming| && Row(incoming, id) == i + Row(incoming[i..], id)
      {
        assert incoming[i..][0] == incoming[i] && incoming[i..][1..] == incoming[i + 1..];
        i := i + 1;
      }
    }

    /** A transfer is advertised: always accepted, unless it has no parts or too many. */
    method OnResourceAdvertisement(h: Header, totalParts: nat, hashmap: seq<Hash>)
      requires HeightsOk(State())
      modifies this`incoming, this`sent
      ensures State() == OnAdvertise(old(State()), h, totalParts, hashmap).rx
      ensures sent == old(sent) + OnAdvertise(old(State()), h, totalParts, hashmap).sends
      ensures totalParts == 0 || totalParts > MAX_PARTS ==> State() == old(State()) && sent == old(sent)
    {
      if totalParts == 0 || totalParts > MAX_PARTS { return; }
      var knownEntries := if totalParts < |hashmap| then totalParts else |hashmap|;
      var entries := [];
      for k := 0 to knownEntries
        invariant entries == hashmap[..k]
      {
        entries := entries + [hashmap[k]];
      }
      assert hashmap[..|hashmap|] == hashmap;
      var row := New(h, totalParts, entries);
      var i := FindRow(h.id);
      incoming := if i < |incoming| then incoming[i := row] else incoming + [row];
      RequestNextResourceParts(i);
    }

    /** A piece of the hashmap: written in place, and the next parts are requested. */
    method OnHashmapUpdate(id: Hash, segment: nat, chunk: seq<Hash>)
      requires HeightsOk(State())
      modifies this`incoming, this`sent
      ensures State() == OnMoreHashes(old(State()), id, segment, chunk).rx
      ensures sent == old(sent) + OnMoreHashes(old(State()), id, segment, chunk).sends
    {
      var i := FindRow(id);
      if i == |incoming| { return; }
      var row := incoming[i];
      var entries := WriteChunk(row.entries, segment * HASHMAP_MAX_LEN, chunk);
      incoming := incoming[i := row.(entries := entries, retriesLeft := MAX_RETRIES, waitingForHmu := false)];
      RequestNextResourceParts(i);
    }

    static method WriteChunk(before: seq<Hash>, base: nat, chunk: seq<Hash>) returns (entries: seq<Hash>)
      ensures entries == WriteEntries(before, base, chunk)
    {
      entries := before;
      if base > |entries| { return; }
      for k := 0 to |chunk|
        invariant entries == WriteEntries(before, base, chunk[..k])
      {
        assert chunk[..k + 1] == chunk[..k] + [chunk[k]];
        entries := if base + k < |entries| then entries[base + k := chunk[k]] else entries + [chunk[k]];
      }
      assert chunk[..|chunk|] == chunk;
    }

    /** The next window of missing parts, and whether the known hashes ran out. */
    static method PickParts(row: Incoming) returns (positions: seq<nat>, exhausted: bool)
      requires HeightOk(row)
      ensures Want(positions, exhausted) == WantFrom(row.entries, row.parts, row.completed + 1, row.window)
    {
      positions, exhausted := [], false;
      var k := row.completed + 1;
      ghost var want := WantFrom(row.entries, row.parts, k, row.window);
      while |positions| < row.window && k < |row.parts| && !exhausted
        invariant row.completed + 1 <= k <= |row.parts| && |positions| <= row.window
        invariant !exhausted ==>
          var rest := WantFrom(row.entries, row.parts, k, row.window - |positions|);
          want == rest.(positions := positions + rest.positions)
        invariant exhausted ==> want == Want(positions, true)
        decreases |row.parts| - k, !exhausted
      {
        if k >= |row.entries| {
          exhausted := true;
        } else {
          if row.parts[k].None? { positions := positions + [k]; }
          k := k + 1;
        }
      }
    }

    /** Requests the next window of missing parts of row `i`. */
    method RequestNextResourceParts(i: nat)
      requires i < |incoming| && HeightOk(incoming[i])
      modifies this`incoming, this`sent
      ensures incoming == old(incoming)[i := RequestNext(old(incoming[i])).incoming]
      ensures sent == old(sent) + Asked(RequestNext(old(incoming[i])))
    {
      var row := incoming[i];
      if row.waitingForHmu { return; }
      var positions, exhausted := PickParts(row);
      if positions == [] && !exhausted {
        incoming := incoming[i := row.(outstanding := 0)];
        return;
      }
      incoming := incoming[i := row.(outstanding := |positions|, waitingForHmu := exhausted, armed := true, asked := positions)];
      var lastMapHash := if exhausted && row.entries != [] then Some(row.entries[|row.entries| - 1]) else None;
      sent := sent + [Ask(Request(row.header.id, Pick(row.entries, positions), lastMapHash))];
    }

    /** A round was answered in full. */
    method GrowResourceWindow(i: nat, rate: Option<real>)
      requires i < |incoming|
      modifies this`incoming
      ensures incoming == old(incoming)[i := Grow(old(incoming[i]), rate)]
    {
      var row := incoming[i];
      if row.window < row.windowMax {
        row := row.(window := row.window + 1);
        if row.window - row.windowMin > WINDOW_FLEXIBILITY - 1 { row := row.(windowMin := row.windowMin + 1); }
      }
      if rate.Some? {
        if rate.value > RATE_FAST && row.fastRounds < FAST_RATE_THRESHOLD {
          row := row.(fastRounds := row.fastRounds + 1);
          if row.fastRounds == FAST_RATE_THRESHOLD { row := row.(windowMax := WINDOW_MAX_FAST); }
        }
        if row.fastRounds == 0 && rate.value < RATE_VERY_SLOW && row.verySlowRounds < VERY_SLOW_RATE_THRESHOLD {
          row := row.(verySlowRounds := row.verySlowRounds + 1);
          if row.verySlowRounds == VERY_SLOW_RATE_THRESHOLD { row := row.(windowMax := WINDOW_MAX_VERY_SLOW); }
        }
      }
      incoming := incoming[i := row];
    }

    /** The retry deadline of row `i` has passed. */
    method ResourceRetryTick(i: nat)
      requires HeightsOk(State()) && i < |incoming|
      modifies this`incoming, this`sent
      ensures State() == OnExpire(old(State()), i).rx && sent == old(sent) + OnExpire(old(State()), i).sends
    {
      var row := incoming[i];
      if row.retriesLeft <= 0 {
        incoming := incoming[..i] + incoming[i + 1..];
        return;
      }
      if row.window > row.windowMin {
        row := row.(window := row.window - 1);
        if row.windowMax > row.windowMin {
          row := row.(windowMax := row.windowMax - 1);
          if row.windowMax - row.window > WINDOW_FLEXIBILITY - 1 { row := row.(windowMax := row.windowMax - 1); }
        }
      }
      row := row.(retriesLeft := row.retriesLeft - 1, waitingForHmu := false, armed := false);
      incoming := incoming[i := row];
      RequestNextResourceParts(i);
    }

    /** The position of a part in row `i`, among those now searched. */
    method MatchPart(i: nat, mapHash: Hash) returns (matched: Option<nat>)
      requires i < |incoming| && HeightOk(incoming[i])
      ensures matched == Match(incoming[i], mapHash)
    {
      var row := incoming[i];
      var k: nat := if row.completed >= 0 then row.completed else 0;
      ghost var start := k;
      var windowEnd := if k + row.window < |row.entries| then k + row.window else |row.entries|;
      while k < windowEnd
        invariant start <= k && (k <= windowEnd || k == start)
        invariant k <= windowEnd ==> Match(row, mapHash) == Find(row.entries, mapHash, k, windowEnd)
      {
        if row.entries[k] == mapHash { return Some(k); }
        k := k + 1;
      }
      matched := None;
    }

    /** A part arrives; the first row that recognises it takes it. */
    method OnResourcePart(env: Env, partData: Part, rate: Option<real>)
      requires HeightsOk(State())
      modifies this
      ensures State() == OnPart(env, old(State()), partData, rate).rx
      ensures sent == old(sent) + OnPart(env, old(State()), partData, rate).sends
    {
      var i := 0;
      while i < |incoming|
        invariant 0 <= i <= |incoming| && State() == old(State()) && sent == old(sent)
        invariant Recognise(env, incoming, partData, 0) == Recognise(env, incoming, partData, i)
      {
        var matched := MatchPart(i, env.mapHash(partData, incoming[i].header.random));
        if matched.Some? {
          KeepPart(env, i, matched.value, partData, rate);
          return;
        }
        i := i + 1;
      }
    }

    /** Row `i` takes the part at position `m`. */
    method KeepPart(env: Env, i: nat, m: nat, partData: Part, rate: Option<real>)
      requires HeightsOk(State()) && i < |incoming|
      modifies this
      ensures State() == TakePart(env, old(State()), i, m, partData, rate).rx
      ensures sent == old(sent) + TakePart(env, old(State()), i, m, partData, rate).sends
    {
      var row := incoming[i];
      var stored := StorePart(row, m, partData);
      if m >= |row.parts| || row.parts[m].Some? {
        incoming := incoming[i := stored];
      } else if stored.receivedCount == |stored.parts| && AllHeld(stored) {
        AssembleResource(env, i, stored);
      } else {
        AskAgain(i, stored, rate);
      }
    }

    /** Row `i` becomes `stored`; a request answered in full is followed by the next. */
    method AskAgain(i: nat, stored: Incoming, rate: Option<real>)
      requires i < |incoming| && HeightOk(stored)
      modifies this`incoming, this`sent
      ensures incoming == old(incoming)[i := AfterStore(stored, rate).incoming]
      ensures sent == old(sent) + Asked(AfterStore(stored, rate))
    {
      incoming := incoming[i := stored];
      if stored.outstanding <= 0 {
        GrowResourceWindow(i, rate);
        RequestNextResourceParts(i);
      }
    }

    /** Keeps a part and moves the height of the full prefix up. */
    static method StorePart(row: Incoming, m: nat, partData: Part) returns (stored: Incoming)
      requires HeightOk(row)
      ensures stored == Store(row, m, partData)
    {
      stored := row.(retriesLeft := MAX_RETRIES);
      if m >= |row.parts| || row.parts[m].Some? { return; }
      stored := stored.(parts := row.parts[m := Some(partData)], receivedCount := row.receivedCount + 1,
                        outstanding := row.outstanding - 1);
      var cp := row.completed + 1;
      while cp < |stored.parts| && stored.parts[cp].Some?
        invariant row.completed + 1 <= cp <= |stored.parts|
        invariant FullPrefix(stored.parts, row.completed + 1) == FullPrefix(stored.parts, cp)
      {
        cp := cp + 1;
      }
      stored := stored.(completed := cp - 1);
    }

    /** All parts of row `i` have arrived. */
    method AssembleResource(env: Env, i: nat, row: Incoming)
      requires i < |incoming| && AllHeld(row)
      modifies this
      ensures State() == Assemble(env, old(State()), i, row).rx && sent == old(sent) + Assemble(env, old(State()), i, row).sends
    {
      incoming := incoming[..i] + incoming[i + 1..];
      var h := row.header;
      var unsealed := Unseal(env, h, Join(Bodies(row.parts)));
      if !unsealed.Opened? { return; }
      sent := sent + [Proof(h.id, env.proof(unsealed.plaintext, h.id))];
      proved := proved + multiset{h.original};
      var chunks := if h.original in segmented then segmented[h.original] else [];
      chunks := chunks + [unsealed.plaintext];
      if h.index >= h.total {
        segmented := segmented - {h.original};
        emitted := emitted + [Emission(h.original, Join(chunks))];
      } else {
        segmented := segmented[h.original := chunks];
      }
    }
  }

  function Asked(x: Requesting): seq<Packet> {
    if x.request.Some? then [Ask(x.request.value)] else []
  }
}
