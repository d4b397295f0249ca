/** The socket of one connection. Its methods are the calls into the runtime library: each
    body picks any outcome that its contract allows, so what is proved of a caller holds for
    every schedule of partial writes, refusals, errors, interrupts and delays. The socket counts
    the calls and their outcomes, so that what a caller returns can be traced to them. */
module Network {
  import opened Apr
  import opened Buckets

  const MICROS_PER_SEC := 1_000_000

  function Seconds(n: nat): nat { n * MICROS_PER_SEC }

  /** The writes so far; those of them that succeeded without taking all they were given; and how
      long the wire would be if the last one had been taken whole. */
  datatype Traffic = Traffic(writes: Tally, partials: nat, target: nat)

  class Socket {
    /** Every byte the socket has accepted. */
    var wire: seq<Byte>
    /** The last poll reported room, and nothing has been written since. */
    var ready: bool
    /** How many more polls a signal will interrupt. */
    var interrupts: nat
    var timeout: nat
    var writeClosed: bool
    var closes: nat
    /** The clock, in microseconds, and whether the last receive returned data, and how much it
        could have. */
    var clock: nat
    var received: bool
    var room: nat
    var traffic: Traffic
    var polls: Tally
    var shutdowns: Tally
    /** The clock and the length of the wire at the last close. */
    var closedAt: nat
    var closedWith: nat

    constructor (interrupts: nat, clock: nat)
      ensures wire == [] && !ready && !writeClosed && closes == 0
      ensures traffic == Traffic(NO_CALLS, 0, 0) && polls == shutdowns == NO_CALLS
    {
      wire, ready, this.interrupts, timeout := [], false, interrupts, 0;
      writeClosed, closes, this.clock, received := false, 0, clock, false;
      traffic, polls, shutdowns := Traffic(NO_CALLS, 0, 0), NO_CALLS, NO_CALLS;
      closedAt, closedWith, room := 0, 0, 0;
    }

    /** A non-blocking write puts some prefix of `data` on the wire; success, or a refusal
        right after a successful poll, means at least one byte. */
    method Accept(data: seq<Byte>) returns (rv: Status, n: nat)
      requires data != [] && timeout == 0
      modifies `wire, `ready, `traffic
      ensures n <= |data| && wire == old(wire) + data[..n]
      ensures rv == Success || (rv == EAgain && old(ready)) ==> n > 0
      ensures traffic == Traffic(old(traffic.writes).Next(rv, rv == EAgain),
                                 old(traffic.partials) + (if rv == Success && n < |data| then 1 else 0),
                                 old(|wire|) + |data|)
    {
      n :| 0 <= n <= |data|;
      rv := *;
      if n == 0 && (rv == Success || (rv == EAgain && ready)) {
        rv := ConnAborted;
      }
      traffic := Traffic(traffic.writes.Next(rv, rv == EAgain),
                         traffic.partials + (if rv == Success && n < |data| then 1 else 0),
                         |wire| + |data|);
      wire := wire + data[..n];
      assert data[..n] == [] ==> n == 0;
      ready := false;
    }

    /** A non-blocking write of a file. Taking part of it counts as refusing the rest. */
    method AcceptFile(data: seq<Byte>) returns (rv: Status, n: nat)
      requires data != [] && timeout == 0
      modifies `wire, `ready, `traffic
      ensures n <= |data| && wire == old(wire) + data[..n]
      ensures rv == Success || (rv == EAgain && old(ready)) ==> n > 0
      ensures var answer := if rv == Success && n < |data| then EAgain else rv;
        traffic == Traffic(old(traffic.writes).Next(answer, answer == EAgain),
                           old(traffic.partials), old(|wire|) + |data|)
    {
      var before := traffic;
      rv, n := Accept(data);
      if rv == Success && n < |data| {
        traffic := Traffic(before.writes.Next(EAgain, true), before.partials, traffic.target);
      }
    }

    /** Waits until the socket takes output. */
    method Poll() returns (rv: Status)
      modifies `ready, `interrupts, `polls
      ensures rv != EAgain
      ensures rv == Success ==> ready
      ensures rv == EIntr ==> interrupts < old(interrupts)
      ensures polls == old(polls).Next(rv, rv == EIntr)
    {
      rv := *;
      if rv == EAgain || (rv == EIntr && interrupts == 0) {
        rv := TimeUp;
      }
      if rv == Success {
        ready := true;
      } else if rv == EIntr {
        interrupts := interrupts - 1;
      }
      polls := polls.Next(rv, rv == EIntr);
    }

    method ShutdownWrite() returns (rv: Status)
      modifies `writeClosed, `shutdowns
      ensures writeClosed <==> old(writeClosed) || rv == Success
      ensures shutdowns == old(shutdowns).Next(rv, false)
    {
      rv := *;
      shutdowns := shutdowns.Next(rv, false);
      writeClosed := writeClosed || rv == Success;
    }

    /** A receive ends within the timeout, and the clock moves. */
    method Receive(size: nat) returns (rv: Status, n: nat)
      modifies `clock, `received, `room
      requires timeout > 0
      ensures n <= size
      ensures (received <==> rv == Success && n > 0) && room == size
      ensures old(clock) < clock <= old(clock) + timeout
    {
      rv := *;
      n :| 0 <= n <= size;
      received, room := rv == Success && n > 0, size;
      var elapsed :| 0 < elapsed <= timeout;
      clock := clock + elapsed;
    }

    method Close()
      modifies `closes, `closedAt, `closedWith
      ensures closes == old(closes) + 1 && closedAt == clock && closedWith == |wire|
    {
      closes, closedAt, closedWith := closes + 1, clock, |wire|;
    }
  }
}
