/** An incoming transfer never stalls: until it is complete it has asked for
    something it still lacks, with a retry armed; and unanswered it asks sixteen
    more times and gives up. Its windows stay within their bounds. */
module ResourceProgress {
  import opened Bytes
  import opened ResourceIncoming

  function CountHeld(parts: seq<Option<Part>>): nat {
    if parts == [] then 0 else (if parts[0].Some? then 1 else 0) + CountHeld(parts[1..])
  }

  /** How many of the positions asked for are still missing. */
  function CountMissing(asked: seq<nat>, parts: seq<Option<Part>>): nat {
    if asked == [] then 0
    else (if asked[0] < |parts| && parts[asked[0]].None? then 1 else 0) + CountMissing(asked[1..], parts)
  }

  ghost predicate Ascending(asked: seq<nat>) {
    forall j, k :: 0 <= j < k < |asked| ==> asked[j] < asked[k]
  }

  /** The two counters are what their names say. */
  ghost predicate CountersOk(inc: Incoming) {
    && HeightOk(inc)
    && inc.receivedCount == CountHeld(inc.parts)
    && (forall k :: 0 <= k <= inc.completed ==> inc.parts[k].Some?)
    && (inc.completed + 1 < |inc.parts| ==> inc.parts[inc.completed + 1].None?)
  }

  /** 2 <= windowMin <= window <= 75; the ceiling never passes 75. */
  predicate WindowsOk(inc: Incoming) {
    2 <= inc.windowMin <= inc.window <= WINDOW_MAX_FAST && inc.windowMax <= WINDOW_MAX_FAST
  }

  /** Waiting for a hashmap update, or for parts of the latest request. */
  ghost predicate Waiting(inc: Incoming) {
    inc.armed && (inc.waitingForHmu || 0 < inc.outstanding <= CountMissing(inc.asked, inc.parts))
  }

  ghost predicate Live(inc: Incoming) {
    CountersOk(inc) && WindowsOk(inc) && Ascending(inc.asked) && inc.retriesLeft <= MAX_RETRIES
    && (!Complete(inc) ==> Waiting(inc))
  }

  // ----- counting -----

  lemma {:induction false} NoneHeld(n: nat)
    ensures CountHeld(NoParts(n)) == 0
  {
    if n > 0 {
      assert NoParts(n)[1..] == NoParts(n - 1);
      NoneHeld(n - 1);
    }
  }

  lemma {:induction false} HeldAtMostAll(parts: seq<Option<Part>>)
    ensures CountHeld(parts) <= |parts|
    ensures CountHeld(parts) == |parts| <==> forall k :: 0 <= k < |parts| ==> parts[k].Some?
  {
    if parts != [] {
      HeldAtMostAll(parts[1..]);
      if CountHeld(parts) == |parts| {
        forall k | 0 <= k < |parts| ensures parts[k].Some? { if k > 0 { assert parts[k] == parts[1..][k - 1]; } }
      } else if parts[0].Some? {
        var k :| 0 <= k < |parts[1..]| && parts[1..][k].None?;
        assert parts[k + 1].None?;
      }
    }
  }

  lemma {:induction false} HeldAfterStore(parts: seq<Option<Part>>, m: nat, p: Part)
    requires m < |parts| && parts[m].None?
    ensures CountHeld(parts[m := Some(p)]) == CountHeld(parts) + 1
  {
    if m > 0 {
      assert parts[m := Some(p)][1..] == parts[1..][m - 1 := Some(p)];
      HeldAfterStore(parts[1..], m - 1, p);
    } else {
      assert parts[m := Some(p)][1..] == parts[1..];
    }
  }

  lemma {:induction false} MissingUnaffected(asked: seq<nat>, parts: seq<Option<Part>>, m: nat, p: Part)
    requires m < |parts| && m !in asked
    ensures CountMissing(asked, parts[m := Some(p)]) == CountMissing(asked, parts)
  {
    if asked != [] { assert asked[0] in asked; MissingUnaffected(asked[1..], parts, m, p); }
  }

  /** Storing one part answers at most one of the positions asked for. */
  lemma {:induction false} MissingAfterStore(asked: seq<nat>, parts: seq<Option<Part>>, m: nat, p: Part)
    requires m < |parts| && Ascending(asked)
    ensures CountMissing(asked, parts[m := Some(p)]) >= CountMissing(asked, parts) - 1
  {
    if asked != [] {
      if asked[0] == m {
        assert forall k :: 0 <= k < |asked[1..]| ==> asked[1..][k] == asked[k + 1] > asked[0];
        MissingUnaffected(asked[1..], parts, m, p);
      } else {
        MissingAfterStore(asked[1..], parts, m, p);
      }
    }
  }

  lemma {:induction false} AllMissing(asked: seq<nat>, parts: seq<Option<Part>>)
    requires forall k :: 0 <= k < |asked| ==> asked[k] < |parts| && parts[asked[k]].None?
    ensures CountMissing(asked, parts) == |asked|
  {
    if asked != [] { AllMissing(asked[1..], parts); }
  }

  lemma {:induction false} SomeMissing(asked: seq<nat>, parts: seq<Option<Part>>)
    requires CountMissing(asked, parts) > 0
    ensures exists m :: m in asked && m < |parts| && parts[m].None?
  {
    if !(asked[0] < |parts| && parts[asked[0]].None?) {
      SomeMissing(asked[1..], parts);
      var m :| m in asked[1..] && m < |parts| && parts[m].None?;
      assert m in asked;
    }
  }

  // ----- every step -----

  /** An incomplete transfer always finds something to ask for. */
  lemma RequestNextLive(inc: Incoming)
    requires CountersOk(inc) && WindowsOk(inc) && inc.retriesLeft <= MAX_RETRIES && !inc.waitingForHmu
    requires !Complete(inc)
    ensures Live(RequestNext(inc).incoming) && RequestNext(inc).request.Some?
  {
    HeldAtMostAll(inc.parts);
    var w := WantFrom(inc.entries, inc.parts, inc.completed + 1, inc.window);
    assert w.exhausted || |w.positions| > 0;
    AllMissing(w.positions, inc.parts);
  }

  lemma NewLive(header: Header, totalParts: nat, entries: seq<Hash>)
    requires totalParts > 0
    ensures Live(RequestNext(New(header, totalParts, entries)).incoming)
    ensures RequestNext(New(header, totalParts, entries)).request.Some?
  {
    NoneHeld(totalParts);
    RequestNextLive(New(header, totalParts, entries));
  }

  lemma WindowsStayOk(inc: Incoming, rate: Option<real>)
    requires WindowsOk(inc)
    ensures WindowsOk(Grow(inc, rate)) && WindowsOk(Shrink(inc))
  {
  }

  /** A hashmap update makes the transfer ask again. */
  lemma HashmapUpdateLive(inc: Incoming, segment: nat, chunk: seq<Hash>)
    requires Live(inc) && !Complete(inc)
    ensures Live(HashmapUpdate(inc, segment, chunk).incoming) && HashmapUpdate(inc, segment, chunk).request.Some?
  {
    RequestNextLive(inc.(entries := WriteEntries(inc.entries, segment * HASHMAP_MAX_LEN, chunk),
                         retriesLeft := MAX_RETRIES, waitingForHmu := false));
  }

  /** Storing a part keeps the counters true. */
  lemma StoreCounters(inc: Incoming, m: nat, p: Part)
    requires Live(inc) && m < |inc.parts| && inc.parts[m].None?
    ensures var s := Store(inc, m, p);
      && CountersOk(s) && WindowsOk(s)
      && (s.waitingForHmu || s.outstanding <= CountMissing(s.asked, s.parts))
      && s.armed && Ascending(s.asked) && s.waitingForHmu == inc.waitingForHmu
  {
    HeldAtMostAll(inc.parts);
    HeldAfterStore(inc.parts, m, p);
    MissingAfterStore(inc.asked, inc.parts, m, p);
  }

  lemma AfterStoreLive(s: Incoming, rate: Option<real>)
    requires CountersOk(s) && WindowsOk(s) && Ascending(s.asked) && s.armed && s.retriesLeft <= MAX_RETRIES
    requires s.waitingForHmu || s.outstanding <= CountMissing(s.asked, s.parts)
    requires !Complete(s)
    ensures Live(AfterStore(s, rate).incoming)
  {
    WindowsStayOk(s, rate);
    if s.outstanding <= 0 && !s.waitingForHmu { RequestNextLive(Grow(s, rate)); }
  }

  /** A part keeps the transfer live: complete, or still waiting. */
  lemma PartLive(inc: Incoming, m: nat, p: Part, rate: Option<real>)
    requires Live(inc) && m < |inc.parts|
    ensures inc.parts[m].Some? ==> Live(Store(inc, m, p))
    ensures inc.parts[m].None? ==> HeightOk(Store(inc, m, p))
    ensures inc.parts[m].None? ==> Complete(Store(inc, m, p)) || Live(AfterStore(Store(inc, m, p), rate).incoming)
  {
    if inc.parts[m].None? {
      StoreCounters(inc, m, p);
      if !Complete(Store(inc, m, p)) { AfterStoreLive(Store(inc, m, p), rate); }
    }
  }

  /** An expired deadline asks again, with one retry less, or gives up. */
  lemma ExpireLive(inc: Incoming)
    requires Live(inc) && !Complete(inc)
    ensures Expire(inc).None? <==> inc.retriesLeft == 0
    ensures Expire(inc).Some? ==>
      && Expire(inc).value.request.Some? && Live(Expire(inc).value.incoming)
      && !Complete(Expire(inc).value.incoming) && Expire(inc).value.incoming.retriesLeft == inc.retriesLeft - 1
  {
    if inc.retriesLeft > 0 {
      WindowsStayOk(inc, None);
      RequestNextLive(Shrink(inc).(retriesLeft := inc.retriesLeft - 1, waitingForHmu := false, armed := false));
    }
  }

  /** A live, incomplete transfer has a retry armed, and either awaits a hashmap
      update or has asked for a part it still lacks. */
  lemma NeverStalls(inc: Incoming)
    requires Live(inc) && !Complete(inc)
    ensures inc.armed
    ensures inc.waitingForHmu || exists m :: m in inc.asked && m < |inc.parts| && inc.parts[m].None?
  {
    if !inc.waitingForHmu { SomeMissing(inc.asked, inc.parts); }
  }

  /** The requests sent by `n` deadline expiries in a row, up to giving up. */
  function Expiries(inc: Incoming, n: nat): seq<Request>
    requires HeightOk(inc)
    decreases n
  {
    if n == 0 then []
    else match Expire(inc)
      case None => []
      case Some(r) =>
        if HeightOk(r.incoming) then (if r.request.Some? then [r.request.value] else []) + Expiries(r.incoming, n - 1)
        else []
  }

  /** The transfer after `n` deadline expiries in a row; None once it is discarded. */
  function AfterExpiries(inc: Incoming, n: nat): Option<Incoming>
    requires HeightOk(inc)
    decreases n
  {
    if n == 0 then Some(inc)
    else match Expire(inc)
      case None => None
      case Some(r) => if HeightOk(r.incoming) then AfterExpiries(r.incoming, n - 1) else None
  }

  lemma {:induction false} DiscardedAfterRetries(inc: Incoming, n: nat)
    requires Live(inc) && !Complete(inc)
    ensures AfterExpiries(inc, n).None? <==> n > inc.retriesLeft
    decreases n
  {
    ExpireLive(inc);
    if inc.retriesLeft > 0 && n > 0 { DiscardedAfterRetries(Expire(inc).value.incoming, n - 1); }
  }

  lemma {:induction false} AsksPerRetry(inc: Incoming, n: nat)
    requires Live(inc) && !Complete(inc)
    ensures |Expiries(inc, n)| == if n <= inc.retriesLeft then n else inc.retriesLeft
    decreases n
  {
    ExpireLive(inc);
    if inc.retriesLeft > 0 && n > 0 {
      var r := Expire(inc).value;
      AsksPerRetry(r.incoming, n - 1);
      assert Expiries(inc, n) == [r.request.value] + Expiries(r.incoming, n - 1);
    }
  }

  /** Without inbound traffic, a transfer with `retriesLeft` retries asks exactly
      that often and is then discarded, not before: sixteen times after any arrival. */
  lemma GivesUpAfterRetries(inc: Incoming, n: nat)
    requires Live(inc) && !Complete(inc)
    ensures |Expiries(inc, n)| == if n <= inc.retriesLeft then n else inc.retriesLeft
    ensures AfterExpiries(inc, n).None? <==> n > inc.retriesLeft
  {
    AsksPerRetry(inc, n);
    DiscardedAfterRetries(inc, n);
  }
}
