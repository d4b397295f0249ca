/** A connection with the context of its core output filter, and the brigades it handles. */
module Connections {
  import opened Apr
  import opened Buckets
  import opened FlushRule
  import opened OutputHistory
  import opened Network

  /** The buckets that a successful read may leave in place of `e`: the bytes that were read,
      now in memory, and what is left of `e`, if anything. A read of no bytes is the end. */
  ghost predicate ReadInto(e: Bucket, pieces: seq<Bucket>) {
    && e.Data?
    && 1 <= |pieces| <= 2
    && pieces[0].Data? && (pieces[0].kind.Memory? || (pieces[0].kind.Mapped? && !e.kind.Morphing?))
    && Payload(pieces) == e.content
    && (e.kind.Memory? || e.kind.Mapped? ==> pieces == [e])
    && (|pieces| == 2 ==>
          && pieces[0].content != []
          && pieces[1].Data? && pieces[1].kind == e.kind
          && (pieces[1].content != [] || e.kind.Morphing?))
  }

  /** A brigade counts the reads of its buckets, those of them that were allowed to wait, and the
      copies made into it. */
  class Brigade {
    var buckets: seq<Bucket>
    var fetches: Tally
    var blocking: nat
    var copies: Tally

    constructor (buckets: seq<Bucket>)
      ensures this.buckets == buckets && fetches == copies == NO_CALLS && blocking == 0
    {
      this.buckets, fetches, blocking, copies := buckets, NO_CALLS, 0, NO_CALLS;
    }

    /** `apr_bucket_copy`, with the copy appended; it may fail. */
    method AppendCopy(e: Bucket) returns (rv: Status)
      modifies `buckets, `copies
      ensures buckets == old(buckets) + (if rv == Success then [e] else [])
      ensures copies == old(copies).Next(rv, false)
    {
      rv := *;
      if rv == Success {
        buckets := buckets + [e];
      }
      copies := copies.Next(rv, false);
    }

    /** `apr_bucket_split` of data bucket `i` after its first `n` bytes. */
    method Split(i: nat, n: nat)
      requires i < |buckets| && buckets[i].Data? && n <= |buckets[i].content|
      modifies `buckets
      ensures var e := old(buckets[i]);
        buckets == Spliced(old(buckets), i, [Data(e.kind, e.content[..n]), Data(e.kind, e.content[n..])])
    {
      var e := buckets[i];
      buckets := Spliced(buckets, i, [Data(e.kind, e.content[..n]), Data(e.kind, e.content[n..])]);
    }

    /** `apr_bucket_read` of bucket `i`. Only a bucket of unknown length can have to be waited
        for, and what is in memory can always be read. */
    method Read(i: nat, wait: bool) returns (rv: Status)
      requires i < |buckets| && buckets[i].Data?
      modifies `buckets, `fetches, `blocking
      ensures fetches == old(fetches).Next(rv, rv == EAgain)
      ensures blocking == old(blocking) + (if wait then 1 else 0)
      ensures wait || old(buckets[i]).Length() != -1 ==> rv != EAgain
      ensures old(buckets[i]).kind.Memory? ==> rv == Success
      ensures rv != Success ==> buckets == old(buckets)
      ensures rv == Success ==>
        exists pieces :: ReadInto(old(buckets[i]), pieces) && buckets == Spliced(old(buckets), i, pieces)
    {
      var e := buckets[i];
      rv := *;
      if e.kind.Memory? {
        rv := Success;
      } else if rv == EAgain && (wait || !e.kind.Morphing?) {
        rv := TimeUp;
      }
      fetches, blocking := fetches.Next(rv, rv == EAgain), blocking + (if wait then 1 else 0);
      if rv == Success {
        var pieces := [e];
        PayloadOne(e);
        if !e.kind.Memory? && !e.kind.Mapped? {
          var n :| 0 <= n <= |e.content| && (n == 0 ==> e.content == []);
          var mapped: bool := *;
          var open: bool := *;
          var first := Data(if mapped && !e.kind.Morphing? then Mapped else Memory, e.content[..n]);
          var rest := Data(e.kind, e.content[n..]);
          PayloadOne(first);
          PayloadTwo(first, rest);
          pieces := if n < |e.content| || (n > 0 && open && e.kind.Morphing?) then [first, rest] else [first];
          assert e.content == first.content + rest.content;
        }
        assert Payload(pieces) == e.content;
        assert ReadInto(e, pieces);
        buckets := Spliced(buckets, i, pieces);
      }
    }
  }

  /** The calls made for a brigade: writes to the socket, of which `partials` took only part of
      what they were given, waits for it, and reads of buckets, of which `blocking` could wait. */
  datatype Ledger = Ledger(writes: Tally, partials: nat, polls: Tally, fetches: Tally, blocking: nat)
  {
    function Failed(): nat {
      writes.failed + polls.failed + fetches.failed
    }

    /** The writes, not counting those that only went on with a partial one. */
    function Rounds(): int {
      writes.calls - partials
    }
  }

  ghost function LedgerOf(sock: Socket, bb: Brigade): Ledger
    reads sock`traffic, sock`polls, bb`fetches, bb`blocking
  {
    Ledger(sock.traffic.writes, sock.traffic.partials, sock.polls, bb.fetches, bb.blocking)
  }

  /** Nothing failed and no write was refused. */
  predicate Smooth(l: Ledger, m: Ledger) {
    m.writes.refused == l.writes.refused && m.Failed() == l.Failed()
  }

  /** A fatal status is that of a call that failed, and no failure goes unreported. A read may wait
      only after one that was refused. */
  predicate Blames(l: Ledger, rv: Status, m: Ledger) {
    && l.writes.failed <= m.writes.failed && l.polls.failed <= m.polls.failed && l.fetches.failed <= m.fetches.failed
    && m.Failed() == l.Failed() + (if Fatal(rv) then 1 else 0)
    && (Fatal(rv) ==>
          || (m.writes.failed > l.writes.failed && m.writes.last == rv)
          || (m.polls.failed > l.polls.failed && m.polls.last == rv)
          || (m.fetches.failed > l.fetches.failed && m.fetches.last == rv))
    && m.blocking - l.blocking <= m.fetches.refused - l.fetches.refused
  }

  /** Part of a pass: it does not wait for the socket, and ends at the first refusal. */
  predicate Answers(l: Ledger, rv: Status, m: Ledger) {
    && m.polls == l.polls
    && m.writes.refused == l.writes.refused + (if rv == EAgain then 1 else 0)
    && Blames(l, rv, m)
  }

  /** Any number of passes: each refusal was answered by a wait, or ended them. */
  predicate Settles(l: Ledger, rv: Status, m: Ledger) {
    && m.writes.refused - l.writes.refused
         == m.polls.Answered() - l.polls.Answered() + (if rv == EAgain then 1 else 0)
    && l.polls.Answered() <= m.polls.Answered()
    && Blames(l, rv, m)
  }

  lemma AnswersSelf(l: Ledger)
    ensures Answers(l, Success, l)
  {
  }

  lemma AnswersOn(l: Ledger, m: Ledger, rv: Status, n: Ledger)
    requires Answers(l, Success, m) && Answers(m, rv, n)
    ensures Answers(l, rv, n)
  {
  }

  /** `NVEC_MIN` and `NVEC_MAX`. */
  function NvecMin(conf: Config): nat { if conf.maxIovec > 16 then 16 else conf.maxIovec }
  function NvecMax(conf: Config): nat { conf.maxIovec }

  /** `conn_rec` with its `core_output_filter_ctx`. An iovec entry is the piece it points to.
      `submitted`, `marks`, `destroyed`, and `waits`, what was in hand at each wait for the socket,
      record history; no branch reads them. */
  class Connection {
    const conf: Config
    const sock: Socket
    const buffered: Brigade

    var aborted: bool
    var dataInOutputFilters: bool
    var bytesWritten: nat
    var vec: array<seq<Byte>>

    var submitted: seq<Byte>
    var marks: seq<Mark>
    var destroyed: seq<Destruction>
    var waits: seq<seq<Bucket>>

    constructor (conf: Config, sock: Socket)
      requires conf.maxIovec >= 1 && sock.wire == []
      ensures this.conf == conf && this.sock == sock && fresh(buffered) && fresh(vec)
      ensures Valid()
      ensures Snap(buffered.buckets) == Snapshot(false, false, [], [], [], [], [])
    {
      this.conf, this.sock := conf, sock;
      buffered := new Brigade([]);
      vec := new seq<Byte>[0];
      aborted, dataInOutputFilters, bytesWritten := false, false, 0;
      submitted, marks, destroyed, waits := [], [], [], [];
    }

    ghost function Snap(queue: seq<Bucket>): Snapshot
      reads this, sock`wire
    {
      Snapshot(aborted, dataInOutputFilters, sock.wire, queue, submitted, marks, destroyed)
    }

    /** The iovec bounds, and the byte counter. */
    ghost predicate Sound()
      reads this, sock`wire, vec
    {
      && conf.maxIovec >= 1
      && vec.Length <= NvecMax(conf)
      && bytesWritten == |sock.wire|
    }

    ghost predicate Valid()
      reads this, sock`wire, vec, buffered`buckets
    {
      Sound() && Accounted(Snap(buffered.buckets))
    }
  }
}
