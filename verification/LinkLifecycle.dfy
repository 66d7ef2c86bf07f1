/** The link object's lifecycle: its fields, updated in place by the watchdog,
    arriving packets and teardown. */
module LinkLifecycle {
  import opened Bytes
  import L = LinkState

  class Link {
    var status: L.Status
    var initiator: bool
    var requestTime: real
    var establishmentTimeoutMs: real
    var rtt: real
    var activatedAt: real
    var lastInbound: real
    var lastKeepaliveSent: real
    var keepaliveMs: real
    var staleTimeMs: real
    var watchdogTimer: Option<real>
    var teardownReason: L.Reason
    /** The promises waiting, oldest first. */
    var pendingRequests: seq<nat>
    var outgoingResources: seq<nat>
    /** The promises settled so far. */
    var settled: seq<nat>
    var out: seq<L.Packet>

    ghost function State(): L.Link
      reads this
    {
      L.Link(status, initiator, requestTime, establishmentTimeoutMs, rtt, activatedAt, lastInbound, lastKeepaliveSent,
             keepaliveMs, staleTimeMs, watchdogTimer, teardownReason, pendingRequests, outgoingResources, settled, out)
    }

    constructor (initiator: bool, now: real, establishmentTimeoutMs: real)
      ensures State() == L.New(initiator, now, establishmentTimeoutMs)
    {
      status := if initiator then L.Pending else L.Handshake;
      this.initiator := initiator;
      requestTime := now;
      this.establishmentTimeoutMs := establishmentTimeoutMs;
      rtt, activatedAt, lastInbound, lastKeepaliveSent := 0.0, 0.0, 0.0, 0.0;
      keepaliveMs := L.KEEPALIVE_MAX * 1000.0;
      staleTimeMs := L.KEEPALIVE_MAX * 1000.0 * L.STALE_FACTOR;
      watchdogTimer := Some(now + L.Max(establishmentTimeoutMs, 0.0));
      teardownReason := L.NoReason;
      pendingRequests, outgoingResources, settled, out := [], [], [], [];
    }

    method ScheduleWatchdog(now: real, delayMs: real)
      modifies this`watchdogTimer
      ensures State() == L.Schedule(old(State()), now, delayMs)
    {
      watchdogTimer := Some(now + L.Max(delayMs, 0.0));
    }

    method SendKeepalive(now: real)
      modifies this`lastKeepaliveSent, this`out
      ensures lastKeepaliveSent == now && out == old(out) + [L.Keepalive]
    {
      lastKeepaliveSent := now;
      out := out + [L.Keepalive];
    }

    method Teardown()
      modifies this
      ensures State() == L.Teardown(old(State()))
    {
      status := L.Closed;
      watchdogTimer := None;
      for i := 0 to |outgoingResources|
        modifies this`settled
        invariant settled == old(settled) + outgoingResources[..i]
      {
        settled := settled + [outgoingResources[i]];
      }
      assert outgoingResources[..|outgoingResources|] == outgoingResources;
      outgoingResources := [];
      ghost var before := settled;
      for i := 0 to |pendingRequests|
        modifies this`settled
        invariant settled == before + pendingRequests[..i]
      {
        settled := settled + [pendingRequests[i]];
      }
      assert pendingRequests[..|pendingRequests|] == pendingRequests;
      pendingRequests := [];
    }

    method WatchdogTick(now: real)
      modifies this
      ensures State() == L.Tick(old(State()), now)
    {
      if status == L.Closed { return; }
      if status == L.Pending || status == L.Handshake {
        var deadline := requestTime + establishmentTimeoutMs;
        if now >= deadline {
          teardownReason := L.Timeout;
          Teardown();
          return;
        }
        ScheduleWatchdog(now, deadline - now);
        return;
      }
      if status == L.Active {
        ActiveTick(now);
        return;
      }
      teardownReason := L.Timeout;
      out := out + [L.CloseNotice];
      Teardown();
    }

    method ActiveTick(now: real)
      modifies this
      ensures State() == L.ActiveTick(old(State()), now)
    {
      var last := L.Max(lastInbound, activatedAt);
      if now >= last + keepaliveMs {
        if initiator && now >= lastKeepaliveSent + keepaliveMs { SendKeepalive(now); }
        if now >= last + staleTimeMs {
          status := L.Stale;
          ScheduleWatchdog(now, L.GraceMs(rtt));
          return;
        }
        ScheduleWatchdog(now, keepaliveMs);
        return;
      }
      ScheduleWatchdog(now, last + keepaliveMs - now);
    }

    method NoteInbound(now: real)
      modifies this
      ensures State() == L.NoteInbound(old(State()), now)
    {
      if status != L.Active && status != L.Stale { return; }
      lastInbound := now;
      if status == L.Stale { status := L.Active; }
      WatchdogTick(now);
    }

    method UpdateKeepalive()
      modifies this`keepaliveMs, this`staleTimeMs
      ensures keepaliveMs == L.KeepaliveMs(rtt) && staleTimeMs == L.KeepaliveMs(rtt) * L.STALE_FACTOR
    {
      keepaliveMs := L.KeepaliveMs(rtt);
      staleTimeMs := keepaliveMs * L.STALE_FACTOR;
    }

    method ActivateWatchdog(now: real, measured: real)
      modifies this
      ensures State() == L.Activate(old(State()), now, measured)
    {
      rtt := measured;
      status := L.Active;
      activatedAt := now;
      lastInbound := activatedAt;
      UpdateKeepalive();
      ghost var ready := State();
      assert ready == old(State()).(rtt := measured, status := L.Active, activatedAt := now, lastInbound := now,
                                    keepaliveMs := ready.keepaliveMs, staleTimeMs := ready.staleTimeMs);
      WatchdogTick(now);
    }

    /** A valid link proof. */
    method OnProof(now: real)
      modifies this
      ensures State() == L.OnLinkProof(old(State()), now)
    {
      NoteInbound(now);
      if status != L.Pending || !initiator { return; }
      ActivateWatchdog(now, (now - requestTime) / 1000.0);
    }

    method OnRttReport(now: real, reported: real)
      modifies this
      ensures State() == L.OnRttReport(old(State()), now, reported)
    {
      if status == L.Closed { return; }
      NoteInbound(now);
      if status != L.Closed && !initiator {
        ActivateWatchdog(now, L.Max((now - requestTime) / 1000.0, reported));
      }
    }

    method OnCloseNotice(now: real)
      modifies this
      ensures State() == L.OnCloseNotice(old(State()), now)
    {
      if status == L.Closed || status == L.Pending { return; }
      NoteInbound(now);
      Teardown();
    }

    method Close()
      modifies this
      ensures State() == L.Close(old(State()))
    {
      if status == L.Closed { return; }
      if status != L.Pending { out := out + [L.CloseNotice]; }
      teardownReason := L.LocallyClosed;
      Teardown();
    }

    method Request(id: nat)
      modifies this
      ensures State() == L.StartRequest(old(State()), id)
    {
      if status != L.Active {
        settled := settled + [id];
        return;
      }
      pendingRequests := pendingRequests + [id];
    }

    method RegisterSegment(id: nat)
      modifies this
      ensures State() == L.StartSegment(old(State()), id)
    {
      outgoingResources := outgoingResources + [id];
    }

    /** A response, a proof or the promise's own timer. */
    method Settle(id: nat)
      modifies this
      ensures State() == L.Settle(old(State()), id)
    {
      if id in pendingRequests {
        pendingRequests := L.Without(pendingRequests, id);
        settled := settled + [id];
      } else if id in outgoingResources {
        outgoingResources := L.Without(outgoingResources, id);
        settled := settled + [id];
      }
    }
  }
}
