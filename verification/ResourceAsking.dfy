/** What a request names, what its answer holds, and how the window moves over rounds. */
module ResourceAsking {
  import opened Bytes
  import opened ResourceIncoming
  import opened ResourceTransfer
  import opened ResourceDelivery
  import Progress = ResourceProgress
  import Proof = ResourceDeliveryProof

  // ----- requests -----

  /** How many of the positions from `i` up to `m` are missing. */
  function MissingIn(parts: seq<Option<Part>>, i: nat, m: nat): nat
    requires m <= |parts|
    decreases m - i
  {
    if i >= m then 0 else (if parts[i].None? then 1 else 0) + MissingIn(parts, i + 1, m)
  }

  lemma {:induction false} WantExactly(entries: seq<Hash>, parts: seq<Option<Part>>, i: nat, room: nat, m: nat)
    requires i <= m < |parts| && m < |entries| && parts[m].None?
    ensures m in WantFrom(entries, parts, i, room).positions <==> MissingIn(parts, i, m) < room
    decreases |parts| - i
  {
    if room > 0 {
      var w := WantFrom(entries, parts, i, room);
      if parts[i].None? {
        if i < m {
          WantExactly(entries, parts, i + 1, room - 1, m);
          assert w.positions[1..] == WantFrom(entries, parts, i + 1, room - 1).positions;
        } else {
          assert w.positions[0] == m;
        }
      } else {
        WantExactly(entries, parts, i + 1, room, m);
      }
    }
  }

  lemma {:induction false} ExhaustedExactly(entries: seq<Hash>, parts: seq<Option<Part>>, i: nat, room: nat)
    requires i <= |entries| <= |parts|
    ensures WantFrom(entries, parts, i, room).exhausted <==> |entries| < |parts| && MissingIn(parts, i, |entries|) < room
    decreases |parts| - i
  {
    if room > 0 && i < |entries| {
      ExhaustedExactly(entries, parts, i + 1, if parts[i].None? then room - 1 else room);
    }
  }

  lemma {:induction false} PrefixHeld(parts: seq<Option<Part>>, i: nat, j: nat, m: nat)
    requires i <= j <= m <= |parts| && forall k :: i <= k < j ==> parts[k].Some?
    ensures MissingIn(parts, i, m) == MissingIn(parts, j, m)
    decreases j - i
  {
    if i < j { PrefixHeld(parts, i + 1, j, m); }
  }

  /** A position is asked for exactly if it is missing, its hash is known and fewer
      missing ones than the window lie in front of it. */
  ghost predicate AsksFor(inc: Incoming, m: nat) {
    m < |inc.parts| && m < |inc.entries| && inc.parts[m].None? && MissingIn(inc.parts, 0, m) < inc.window
  }

  /** A request names the hashes of exactly those positions, in order, and repeats the
      last known hash exactly if the window reaches past what is known. */
  lemma RequestNamesExactly(inc: Incoming)
    requires Progress.CountersOk(inc) && Progress.WindowsOk(inc) && !inc.waitingForHmu && !Complete(inc)
    requires |inc.entries| <= |inc.parts| && inc.retriesLeft <= MAX_RETRIES
    ensures var x := RequestNext(inc);
      && x.request.Some? && x.request.value.id == inc.header.id
      && (forall m :: m in x.incoming.asked <==> AsksFor(inc, m)) && Progress.Ascending(x.incoming.asked)
      && |x.request.value.wanted| == |x.incoming.asked|
      && (forall k :: 0 <= k < |x.incoming.asked| ==>
            x.incoming.asked[k] < |inc.entries| && x.request.value.wanted[k] == inc.entries[x.incoming.asked[k]])
      && (x.request.value.last.Some? <==> 0 < |inc.entries| < |inc.parts| && MissingIn(inc.parts, 0, |inc.entries|) < inc.window)
      && (x.request.value.last.Some? ==> x.request.value.last.value == inc.entries[|inc.entries| - 1])
  {
    Progress.RequestNextLive(inc);
    var x, i := RequestNext(inc), inc.completed + 1;
    forall m ensures m in x.incoming.asked <==> AsksFor(inc, m) { AskedExactly(inc, m); }
    if i <= |inc.entries| {
      ExhaustedExactly(inc.entries, inc.parts, i, inc.window);
      PrefixHeld(inc.parts, 0, i, |inc.entries|);
    } else {
      PrefixHeld(inc.parts, 0, |inc.entries|, |inc.entries|);
    }
  }

  lemma AskedExactly(inc: Incoming, m: nat)
    requires Progress.CountersOk(inc)
    ensures m in WantFrom(inc.entries, inc.parts, inc.completed + 1, inc.window).positions <==> AsksFor(inc, m)
  {
    var i := inc.completed + 1;
    if i <= m < |inc.parts| && m < |inc.entries| && inc.parts[m].None? {
      WantExactly(inc.entries, inc.parts, i, inc.window, m);
      PrefixHeld(inc.parts, 0, i, m);
    }
  }

  function PartsAt(parts: seq<Part>, positions: seq<nat>): seq<Packet>
    requires forall k :: 0 <= k < |positions| ==> positions[k] < |parts|
  {
    seq(|positions|, k requires 0 <= k < |positions| => PartData(parts[positions[k]]))
  }

  lemma PartsAtSplits(parts: seq<Part>, hs: seq<Hash>, positions: seq<nat>)
    requires |hs| == |parts| && positions != [] && forall k :: 0 <= k < |positions| ==> positions[k] < |parts|
    ensures PartsAt(parts, positions) == [PartData(parts[positions[0]])] + PartsAt(parts, positions[1..])
    ensures Pick(hs, positions) == [hs[positions[0]]] + Pick(hs, positions[1..])
  {
  }

  /** The answer to a request for some positions is their parts, in the order asked. */
  lemma {:induction false} AnswersExactly(env: Env, w: World, r: Ref, positions: seq<nat>)
    requires WorldOk(env, w) && IsRef(w, r) && forall k :: 0 <= k < |positions| ==> positions[k] < |Parts(At(w, r))|
    ensures Answer(Hashes(env, At(w, r)), Parts(At(w, r)), Pick(Hashes(env, At(w, r)), positions))
         == PartsAt(Parts(At(w, r)), positions)
    decreases |positions|
  {
    var hs, parts := Hashes(env, At(w, r)), Parts(At(w, r));
    if positions != [] {
      Proof.PositionOfHash(env, w, r, positions[0]);
      AnswersExactly(env, w, r, positions[1..]);
      PartsAtSplits(parts, hs, positions);
    }
  }

  lemma NextRound(stored: Incoming, rate: Option<real>)
    requires Progress.CountersOk(stored) && Progress.WindowsOk(stored) && !stored.waitingForHmu && !Complete(stored)
    requires |stored.entries| <= |stored.parts| && stored.retriesLeft <= MAX_RETRIES
    ensures var x := RequestNext(Grow(stored, rate));
      && x.request.Some?
      && x.incoming.window == (if stored.window < stored.windowMax then stored.window + 1 else stored.window)
      && forall k :: k in x.incoming.asked <==> AsksFor(x.incoming, k)
  {
    Progress.WindowsStayOk(stored, rate);
    var g := Grow(stored, rate);
    WindowMoves(stored, rate);
    RequestNamesExactly(g);
    forall k ensures AsksFor(RequestNext(g).incoming, k) <==> AsksFor(g, k) {}
  }

  /** A new part in the middle: a round answered in full opens the window and is followed
      by the next request, for exactly what the larger window lacks; otherwise nothing is
      asked and the window stays. */
  lemma RoundAnswered(inc: Incoming, m: nat, p: Part, rate: Option<real>)
    requires Progress.Live(inc) && !inc.waitingForHmu && |inc.entries| <= |inc.parts|
    requires m < |inc.parts| && inc.parts[m].None? && inc.receivedCount + 1 < |inc.parts|
    ensures HeightOk(Store(inc, m, p)) && Store(inc, m, p).retriesLeft == MAX_RETRIES
    ensures var x := AfterStore(Store(inc, m, p), rate);
      && (x.request.Some? <==> inc.outstanding <= 1)
      && x.incoming.window == (if inc.outstanding <= 1 && inc.window < inc.windowMax then inc.window + 1 else inc.window)
      && (inc.outstanding <= 1 ==> forall k :: k in x.incoming.asked <==> AsksFor(x.incoming, k))
  {
    Progress.StoreCounters(inc, m, p);
    if inc.outstanding <= 1 { NextRound(Store(inc, m, p), rate); }
  }

  // ----- rounds -----

  /** After rounds answered in full at these rates. */
  function AfterRounds(inc: Incoming, rates: seq<Option<real>>): Incoming {
    if rates == [] then inc else Grow(AfterRounds(inc, rates[..|rates| - 1]), rates[|rates| - 1])
  }

  function AtMost(a: nat, b: nat): nat { if a <= b then a else b }

  /** A round opens the window by one up to its ceiling and a deadline closes it by one
      down to its floor. */
  lemma WindowMoves(inc: Incoming, rate: Option<real>)
    ensures Grow(inc, rate).window == if inc.window < inc.windowMax then inc.window + 1 else inc.window
    ensures Shrink(inc).window == if inc.window > inc.windowMin then inc.window - 1 else inc.window
  {
  }

  /** The floor follows a growing window three behind. */
  function Floor(window: nat): nat { if window <= WINDOW_MIN + 3 then WINDOW_MIN else window - 3 }

  /** On a fast link the ceiling rises to 75 with the fourth round, and the window
      follows it, one a round. */
  lemma {:induction false} FastRounds(h: Header, n: nat, entries: seq<Hash>, rates: seq<Option<real>>)
    requires forall k :: 0 <= k < |rates| ==> rates[k].Some? && rates[k].value > RATE_FAST
    ensures var inc := AfterRounds(New(h, n, entries), rates);
      && inc.window == AtMost(WINDOW + |rates|, WINDOW_MAX_FAST) && inc.fastRounds == AtMost(|rates|, FAST_RATE_THRESHOLD)
      && inc.windowMax == (if |rates| < FAST_RATE_THRESHOLD then WINDOW_MAX_SLOW else WINDOW_MAX_FAST)
      && inc.windowMin == Floor(inc.window)
    decreases |rates|
  {
    if rates != [] { FastRounds(h, n, entries, rates[..|rates| - 1]); }
  }

  /** At no measured or a middling rate the ceiling stays at 10, and on a very slow link
      it falls to 4 with the second round, which stops the window at 6. */
  lemma {:induction false} OtherRounds(h: Header, n: nat, entries: seq<Hash>, rates: seq<Option<real>>, slow: bool)
    requires forall k :: 0 <= k < |rates| ==>
      if slow then rates[k].Some? && rates[k].value < RATE_VERY_SLOW
      else rates[k].Some? ==> RATE_VERY_SLOW <= rates[k].value <= RATE_FAST
    ensures var inc := AfterRounds(New(h, n, entries), rates);
      && inc.window == AtMost(WINDOW + |rates|, if slow then WINDOW + VERY_SLOW_RATE_THRESHOLD else WINDOW_MAX_SLOW)
      && inc.windowMax == (if slow && |rates| >= VERY_SLOW_RATE_THRESHOLD then WINDOW_MAX_VERY_SLOW else WINDOW_MAX_SLOW)
      && inc.windowMin == Floor(inc.window) && inc.fastRounds == 0 && inc.verySlowRounds == (if slow then AtMost(|rates|, VERY_SLOW_RATE_THRESHOLD) else 0)
    decreases |rates|
  {
    if rates != [] { OtherRounds(h, n, entries, rates[..|rates| - 1], slow); }
  }

  function AfterDeadlines(inc: Incoming, n: nat): Incoming { if n == 0 then inc else Shrink(AfterDeadlines(inc, n - 1)) }

  /** Deadlines close a new window from 4 to 2, and its ceiling with it from 10 to 6. */
  lemma {:induction false} DeadlinesClose(h: Header, n: nat, entries: seq<Hash>, deadlines: nat)
    ensures var inc, closed := AfterDeadlines(New(h, n, entries), deadlines), AtMost(deadlines, 2);
      inc.window == WINDOW - closed && inc.windowMax == WINDOW_MAX_SLOW - 2 * closed && inc.windowMin == WINDOW_MIN
    decreases deadlines
  {
    if deadlines > 0 { DeadlinesClose(h, n, entries, deadlines - 1); }
  }

  // ----- what is refused -----

  /** Nothing is opened under a hash that is not its own. */
  lemma OpenedIsChecked(env: Env, h: Header, cipher: seq<byte>)
    ensures Unseal(env, h, cipher).Opened? ==> env.resourceHash(Unseal(env, h, cipher).plaintext, h.random) == h.id
  {
  }

  /** Whatever the parts are, a segment is proved, counted and emitted only if it opens
      to a plaintext with the advertised hash. */
  lemma OnlyCheckedIsProved(env: Env, rx: Receiver, i: nat, done: Incoming)
    requires i < |rx.table| && AllHeld(done)
    ensures var o := Assemble(env, rx, i, done);
      o.sends != [] || o.rx.emitted != rx.emitted || o.rx.proved != rx.proved ==>
        exists p :: env.resourceHash(p, done.header.random) == done.header.id && o.sends == [Packet.Proof(done.header.id, env.proof(p, done.header.id))]
  {
    OpenedIsChecked(env, done.header, Join(Bodies(done.parts)));
    var u := Unseal(env, done.header, Join(Bodies(done.parts)));
    if u.Opened? { assert env.resourceHash(u.plaintext, done.header.random) == done.header.id; }
  }
}
