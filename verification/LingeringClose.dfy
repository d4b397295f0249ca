/** The staged close of a connection: flush, half-close, drain the client for a bounded time,
    close. */
module LingeringClose {
  import opened Apr
  import opened Buckets
  import opened FlushRule
  import opened OutputHistory
  import opened OutputSpec
  import opened OutputRuns
  import opened Network
  import opened Connections
  import opened OutputFilter

  const MAX_SECS_TO_LINGER := 30
  const SECONDS_TO_LINGER := 2
  const DUMMY_BUFFER_SIZE := 512

  /** The brigade that ends a connection. */
  function Farewell(flush: bool): seq<Bucket> {
    (if flush then [Meta(Mark(Flush, 0, 0))] else []) + [Meta(Mark(Eoc, 0, 0))]
  }

  lemma FarewellHasNoPayload(flush: bool)
    ensures Farewell(flush)[0..] == Farewell(flush) && Payload(Farewell(flush)) == []
  {
    if flush {
      PayloadTwo(Meta(Mark(Flush, 0, 0)), Meta(Mark(Eoc, 0, 0)));
      assert Farewell(true) == [Meta(Mark(Flush, 0, 0)), Meta(Mark(Eoc, 0, 0))];
    } else {
      PayloadOne(Meta(Mark(Eoc, 0, 0)));
      assert Farewell(false) == [Meta(Mark(Eoc, 0, 0))];
    }
  }

  /** A call without payload submits nothing, and an aborted connection stays as it is. */
  lemma EmptyCall(conf: Config, s: Snapshot, b: seq<Bucket>, t: Snapshot, rv: Status)
    requires Call(conf, s, Some(b), t, rv) && Payload(b) == []
    ensures t.submitted == s.submitted && s.wire <= t.wire
    ensures s.aborted ==> t.aborted && t.wire == s.wire
  {
  }

  lemma FarewellIs(flush: bool)
    ensures Farewell(flush) ==
      if flush then [Meta(Mark(Flush, 0, 0)), Meta(Mark(Eoc, 0, 0))] else [Meta(Mark(Eoc, 0, 0))]
  {
  }

  /** The calls made so far for a brigade that has just been created. */
  ghost function NewLedger(sock: Socket): Ledger
    reads sock`traffic, sock`polls
  {
    Ledger(sock.traffic.writes, sock.traffic.partials, sock.polls, NO_CALLS, 0)
  }

  /** The last brigade goes through the filter, from snapshot `s` to snapshot `t`. */
  ghost predicate Farewells(conf: Config, flush: bool, s: Snapshot, l: Ledger, t: Snapshot, rv: Status, m: Ledger) {
    var input := Some(Farewell(flush));
    && Call(conf, s, input, t, rv)
    && if s.aborted then m == l else Dutiful(conf, true, Offered(s, input).queue, l, t.aborted, t.queue, rv, m)
  }

  /** `ap_shutdown_conn`, with the brigade that it makes. With `flush`, a connection that survives
      has nothing left to send. */
  method ShutdownConn(c: Connection, flush: bool) returns (rv: Status, ghost bb: Brigade)
    requires c.Valid()
    modifies c, c.buffered, c.vec
    modifies c.sock`wire, c.sock`ready, c.sock`traffic, c.sock`interrupts, c.sock`polls, c.sock`timeout
    ensures c.Valid() && (c.vec == old(c.vec) || fresh(c.vec))
    ensures Farewells(c.conf, flush, old(c.Snap(c.buffered.buckets)), old(NewLedger(c.sock)),
                      c.Snap(c.buffered.buckets), rv, LedgerOf(c.sock, bb))
    ensures flush && !c.aborted ==> c.buffered.buckets == [] && c.sock.wire == c.submitted
    ensures old(c.sock.wire) <= c.sock.wire && c.submitted == old(c.submitted)
    ensures old(c.aborted) ==> c.aborted && c.sock.wire == old(c.sock.wire)
    ensures c.sock.timeout == old(c.sock.timeout)
  {
    hide Call, Accounted, Payload, Farewell, Dutiful, Offered;
    ghost var s := c.Snap(c.buffered.buckets);
    FarewellIs(flush);
    FarewellHasNoPayload(flush);
    var last := new Brigade([]);
    bb := last;
    if flush {
      last.buckets := last.buckets + [Meta(Mark(Flush, 0, 0))];
    }
    last.buckets := last.buckets + [Meta(Mark(Eoc, 0, 0))];
    assert last.buckets == Farewell(flush);
    rv := CoreOutputFilter(c, last);
    EmptyCall(c.conf, s, Farewell(flush), c.Snap(c.buffered.buckets), rv);
    if flush && !c.aborted {
      FlushEmpties(c.conf, s, Farewell(true), 0, c.Snap(c.buffered.buckets), rv);
    }
  }

  /** `ap_start_lingering_close`: true tells the caller to close at once. The last brigade goes
      through the filter; then the socket of a live connection, and no other, is half-closed,
      when everything ever submitted is on the wire. */
  method StartLingeringClose(c: Connection) returns (done: bool, ghost rv: Status, ghost bb: Brigade)
    requires c.Valid()
    modifies c, c.buffered, c.vec
    modifies c.sock`wire, c.sock`ready, c.sock`traffic, c.sock`interrupts, c.sock`polls, c.sock`timeout
    modifies c.sock`writeClosed, c.sock`shutdowns
    ensures c.Valid() && (c.vec == old(c.vec) || fresh(c.vec))
    ensures old(c.sock.wire) <= c.sock.wire && c.submitted == old(c.submitted)
    ensures Farewells(c.conf, true, old(c.Snap(c.buffered.buckets)), old(NewLedger(c.sock)),
                      c.Snap(c.buffered.buckets), rv, LedgerOf(c.sock, bb))
    ensures c.sock.shutdowns.calls == old(c.sock.shutdowns.calls) + (if c.aborted then 0 else 1)
    ensures !c.aborted ==> c.buffered.buckets == [] && c.sock.wire == c.submitted
    ensures c.sock.writeClosed <==> old(c.sock.writeClosed) || (!c.aborted && c.sock.shutdowns.last == Success)
    ensures done <==> c.aborted || c.sock.shutdowns.last != Success
    ensures old(c.aborted) ==> c.aborted && c.sock.wire == old(c.sock.wire)
    ensures c.sock.timeout == old(c.sock.timeout)
  {
    hide Call, Accounted, Farewells;
    rv, bb := ShutdownConn(c, true);
    if c.aborted {
      return true, rv, bb;
    }
    var status := c.sock.ShutdownWrite();
    done := status != Success;
  }

  /** The loop of `ap_lingering_close`: reads and discards. It gives up when the client stops
      sending, and otherwise not before the limit, and never much later. */
  method Drain(csd: Socket, short: bool)
    requires csd.timeout == Seconds(SECONDS_TO_LINGER)
    modifies csd`clock, csd`received, csd`room
    ensures csd.room == DUMMY_BUFFER_SIZE
    ensures var limit := Seconds(if short then SECONDS_TO_LINGER else MAX_SECS_TO_LINGER);
      && old(csd.clock) < csd.clock <= old(csd.clock) + limit + 2 * Seconds(SECONDS_TO_LINGER)
      && (csd.received ==> csd.clock >= old(csd.clock) + limit)
  {
    var now, timeup := 0, 0;
    var again := true;
    ghost var limit := Seconds(if short then SECONDS_TO_LINGER else MAX_SECS_TO_LINGER);
    while again
      invariant timeup == 0 ==> again && csd.clock == old(csd.clock)
      invariant !again ==> csd.room == DUMMY_BUFFER_SIZE
      invariant timeup != 0 ==>
        && old(csd.clock) + limit < timeup <= old(csd.clock) + limit + Seconds(SECONDS_TO_LINGER)
        && old(csd.clock) < csd.clock && now == csd.clock < timeup + Seconds(SECONDS_TO_LINGER)
        && (again <==> now < timeup)
      decreases again, timeup == 0, timeup - now
    {
      var rv, nbytes := csd.Receive(DUMMY_BUFFER_SIZE);
      if rv != Success || nbytes == 0 {
        break;
      }
      now := csd.clock;
      if timeup == 0 {
        if short {
          timeup := now + Seconds(SECONDS_TO_LINGER);
        } else {
          timeup := now + Seconds(MAX_SECS_TO_LINGER);
        }
      }
      again := now < timeup;
    }
  }

  /** `ap_lingering_close`: `csd` is the connection's socket, unless a module took it away. What
      ends the connection is half-closed and drained first if it is live and the half-close
      succeeds, and closed last in any case. */
  method Close(c: Connection, csd: Socket?, short: bool) returns (ghost rv: Status, ghost bb: Brigade)
    requires c.Valid() && (csd == null || csd == c.sock)
    modifies c, c.buffered, c.vec, c.sock
    ensures c.Valid()
    ensures csd == null ==> c.aborted && unchanged(c.sock) && c.submitted == old(c.submitted)
    ensures csd != null ==>
      && Farewells(c.conf, true, old(c.Snap(c.buffered.buckets)), old(NewLedger(c.sock)),
                   c.Snap(c.buffered.buckets), rv, LedgerOf(c.sock, bb))
      && c.sock.closes == old(c.sock.closes) + 1
      && c.sock.closedAt == c.sock.clock && c.sock.closedWith == |c.sock.wire|
      && c.sock.shutdowns.calls == old(c.sock.shutdowns.calls) + (if c.aborted then 0 else 1)
      && (!c.aborted ==> c.buffered.buckets == [] && c.sock.wire == c.submitted == old(c.submitted))
      && (c.sock.writeClosed <==> old(c.sock.writeClosed) || (!c.aborted && c.sock.shutdowns.last == Success))
      && (old(c.aborted) ==> c.aborted)
    ensures csd != null && !c.aborted && c.sock.shutdowns.last == Success ==>
      var limit := Seconds(if short then SECONDS_TO_LINGER else MAX_SECS_TO_LINGER);
      && c.sock.timeout == Seconds(SECONDS_TO_LINGER)
      && old(c.sock.clock) < c.sock.clock <= old(c.sock.clock) + limit + 2 * Seconds(SECONDS_TO_LINGER)
      && (c.sock.received ==> c.sock.clock >= old(c.sock.clock) + limit)
    ensures c.aborted || c.sock.shutdowns.last != Success ==>
      c.sock.clock == old(c.sock.clock) && c.sock.timeout == old(c.sock.timeout)
  {
    hide Accounted, Farewells;
    if csd == null {
      ghost var s := c.Snap(c.buffered.buckets);
      StepAccounted(c.conf, s, AbortedElsewhere, s.(aborted := true));
      c.aborted := true;
      rv, bb := ConnAborted, c.buffered;
      return;
    }
    var done;
    done, rv, bb := StartLingeringClose(c);
    if done {
      csd.Close();
      return;
    }
    csd.timeout := Seconds(SECONDS_TO_LINGER);
    Drain(csd, short);
    csd.Close();
  }
}
