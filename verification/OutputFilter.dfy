/** The core output filter: a non-blocking writer that keeps a brigade, an iovec and the
    socket in step.

    The source walks a brigade with a pointer to a bucket. Buckets are deleted in front of
    that pointer, so the model holds it as the distance from the end of the brigade: the
    bucket with `todo` buckets from itself to the end is `buckets[|buckets| - todo]`. */
module OutputFilter {
  import opened Apr
  import opened Buckets
  import opened FlushRule
  import opened OutputHistory
  import opened MarkOrder
  import opened OutputSpec
  import opened Network
  import opened Connections

  /** The buckets in front of the cursor, and those from it on. */
  function Front(b: seq<Bucket>, todo: nat): seq<Bucket>
    requires todo <= |b|
  {
    b[..|b| - todo]
  }

  function Tail(b: seq<Bucket>, todo: nat): seq<Bucket>
    requires todo <= |b|
  {
    b[|b| - todo..]
  }

  /** How much payload there is from the cursor on. */
  ghost function Pending(b: seq<Bucket>, todo: nat): nat
    requires todo <= |b|
  {
    |Payload(Tail(b, todo))|
  }

  /** What the pass is about to do to the order of the marks, with the cursor there. */
  ghost predicate FateAt(b: seq<Bucket>, todo: nat)
    requires todo <= |b|
  {
    Fate(Front(b, todo), Tail(b, todo))
  }

  /** Entries `from..nvec` of the iovec are the non-empty buckets of `front`, in order. */
  ghost predicate Lockstep(c: Connection, front: seq<Bucket>, from: nat, nvec: nat)
    reads c, c.vec
  {
    && from <= nvec <= c.vec.Length
    && Settled(front)
    && c.vec[from..nvec] == Filled(front)
  }

  /** When pieces are left, the head of the brigade is empty or is the first piece. */
  lemma FilledHead(front: seq<Bucket>, pieces: seq<seq<Byte>>)
    requires Settled(front) && pieces == Filled(front) && pieces != []
    ensures front != [] && Settled(front[1..])
    ensures Payload(front) == front[0].Bytes() + Payload(front[1..])
    ensures front[0].Length() == 0 ==> front[0].Bytes() == [] && Filled(front[1..]) == pieces
    ensures front[0].Length() != 0 ==>
      && front[0].Length() > 0 && front[0].content == pieces[0] != []
      && Filled(front[1..]) == pieces[1..]
    ensures Late(front[1..]) == Late(front)
  {
    assert front[0] in front;
    FilledIsPayload(front);
    LateHead(front);
  }

  /** `apr_bucket_delete`: the history notes the destruction of metadata. */
  method DeleteBucket(c: Connection, bb: Brigade, i: nat)
    requires i < |bb.buckets|
    modifies bb`buckets, c`destroyed
    ensures c.Snap(bb.buckets) == Deleted(old(c.Snap(bb.buckets)), i)
  {
    if bb.buckets[i].Meta? {
      c.destroyed := c.destroyed + [Destruction(bb.buckets[i].mark, |c.sock.wire|, c.aborted)];
    }
    bb.buckets := Without(bb.buckets, i);
  }

  /** Deletes an empty bucket that has only empty buckets in front of it. */
  method DeleteHollow(c: Connection, bb: Brigade, i: nat, ghost k: nat)
    requires i < |bb.buckets| && bb.buckets[i].Length() == 0
    requires Balanced(c.Snap(bb.buckets), k) && Hollow(bb.buckets[..i])
    modifies bb`buckets, c`destroyed
    ensures bb.buckets == Without(old(bb.buckets), i)
    ensures Balanced(c.Snap(bb.buckets), k) && old(c.destroyed) <= c.destroyed
    ensures if old(bb.buckets[i].Meta? && Marks(bb.buckets[..i]) != [])
            then BreaksOrder(old(c.Snap(bb.buckets)), c.Snap(bb.buckets))
            else KeepsOrder(old(c.Snap(bb.buckets)), c.Snap(bb.buckets))
  {
    hide Payload, Balanced, KeepsOrder, BreaksOrder, Marks;
    ghost var s := c.Snap(bb.buckets);
    HollowHasNoPayload(bb.buckets[..i]);
    DeletedHollow(s, k, i);
    if bb.buckets[i].Meta? && Marks(bb.buckets[..i]) != [] {
      DeletedOutOfOrder(s, i);
    } else {
      DeletedInOrder(s, i);
    }
    DeleteBucket(c, bb, i);
  }

  /** What is left of data bucket `e` without its first `n` bytes. */
  function Remainder(e: Bucket, n: nat): (r: seq<Bucket>)
    requires e.Data? && n <= |e.content|
    ensures AllData(r) && Payload(r) == e.content[n..]
  {
    PayloadOne(Data(e.kind, e.content[n..]));
    if n == |e.content| then [] else [Data(e.kind, e.content[n..])]
  }

  /** Cutting the head of the brigade cuts the first piece. */
  lemma KeptHead(front: seq<Bucket>, n: nat)
    requires Settled(front) && front != [] && front[0].Data? && n < |front[0].content|
    ensures var cut := Remainder(front[0], n) + front[1..];
      && Settled(cut) && cut[0].Length() != 0
      && |Payload(cut)| == |Payload(front)| - n
      && Filled(cut) == [front[0].content[n..]] + Filled(front)[1..]
      && Late(cut) == Late(front[1..])
  {
    var cut := Remainder(front[0], n) + front[1..];
    assert front[0] in front && cut[0] in cut;
    assert cut[1..] == front[1..];
  }

  /** Drops `n` bytes, which are on the wire, of the first bucket that is not empty. */
  method DropBytes(c: Connection, bb: Brigade, i: nat, n: nat, ghost k: nat)
    requires i < |bb.buckets| && bb.buckets[i].Length() > 0 && n <= |bb.buckets[i].content| && n <= k
    requires Balanced(c.Snap(bb.buckets), k) && Hollow(bb.buckets[..i])
    modifies bb`buckets
    ensures bb.buckets == Spliced(old(bb.buckets), i, Remainder(old(bb.buckets[i]), n))
    ensures Balanced(c.Snap(bb.buckets), k - n)
    ensures KeepsOrder(old(c.Snap(bb.buckets)), c.Snap(bb.buckets))
  {
    hide Payload, Balanced, KeepsOrder;
    var e := bb.buckets[i];
    HollowHasNoPayload(bb.buckets[..i]);
    Retired(c.Snap(bb.buckets), k, i, n, Remainder(e, n));
    SentInOrder(c.Snap(bb.buckets), i, Remainder(e, n));
    if n < |e.content| {
      bb.Split(i, n);
    }
    bb.buckets := Without(bb.buckets, i);
    assert bb.buckets == Spliced(old(bb.buckets), i, Remainder(e, n));
  }

  /** Replacing the first bucket changes only what is in front of the cursor. */
  lemma HeadReplaced(b: seq<Bucket>, todo: nat, y: seq<Bucket>)
    requires todo < |b|
    ensures Front(b, todo) != [] && Front(b, todo)[0] == b[0]
    ensures Without(b, 0) == Spliced(b, 0, [])
    ensures var cut := Spliced(b, 0, y);
      && |cut| == |b| - 1 + |y|
      && Front(cut, todo) == y + Front(b, todo)[1..]
      && Tail(cut, todo) == Tail(b, todo)
  {
  }

  /** One round of the inner loop of `writev_nonblocking`: takes the first bucket off the
      brigade if it is empty or fully sent, or else cuts the part that is sent, and stops. */
  method RetireHead(c: Connection, bb: Brigade, todo: nat, nvec: nat, offset: nat, n: nat)
    returns (offset': nat, n': nat, done: bool)
    requires todo <= |bb.buckets| && offset < nvec
    requires Lockstep(c, Front(bb.buckets, todo), offset, nvec)
    requires Balanced(c.Snap(bb.buckets), n)
    modifies bb`buckets, c.vec, c`destroyed
    ensures todo <= |bb.buckets| && Tail(bb.buckets, todo) == old(Tail(bb.buckets, todo))
    ensures offset <= offset' && Lockstep(c, Front(bb.buckets, todo), offset', nvec)
    ensures Balanced(c.Snap(bb.buckets), n') && old(c.destroyed) <= c.destroyed
    ensures |Payload(Front(bb.buckets, todo))| - n' == old(|Payload(Front(bb.buckets, todo))|) - n
    ensures if done then n' == 0 && todo < |bb.buckets| && bb.buckets[0].Length() != 0
            else |bb.buckets| < old(|bb.buckets|)
    ensures KeepsOrder(old(c.Snap(bb.buckets)), c.Snap(bb.buckets))
    ensures Late(Front(bb.buckets, todo)) == old(Late(Front(bb.buckets, todo)))
  {
    hide Balanced, Payload, Filled, Front, Tail, Spliced, Without, Remainder, KeepsOrder, BreaksOrder, Late;
    ghost var b := bb.buckets;
    KeepsOrderSelf(c.Snap(b));
    ghost var front := Front(b, todo);
    FilledHead(front, c.vec[offset..nvec]);
    FrontIsShort(b, todo);
    HeadReplaced(b, todo, []);
    offset', n', done := offset, n, false;
    if bb.buckets[0].Length() == 0 {
      DeleteHollow(c, bb, 0, n);
      assert [] + front[1..] == front[1..];
    } else if n >= |c.vec[offset]| {
      DropBytes(c, bb, 0, |c.vec[offset]|, n);
      AllSent(b[0]);
      n', offset' := n - |c.vec[offset]|, offset + 1;
      assert [] + front[1..] == front[1..];
      assert c.vec[offset..nvec][1..] == c.vec[offset + 1..nvec];
    } else {
      if n > 0 {
        KeptHead(front, n);
        HeadReplaced(b, todo, Remainder(b[0], n));
        DropBytes(c, bb, 0, n, n);
        c.vec[offset] := c.vec[offset][n..];
        HeadReplacedFront(bb.buckets, todo);
      }
      n', done := 0, true;
    }
  }

  lemma AllSent(e: Bucket)
    requires e.Data?
    ensures Remainder(e, |e.content|) == []
  {
  }

  lemma HeadReplacedFront(b: seq<Bucket>, todo: nat)
    requires todo <= |b| && Front(b, todo) != []
    ensures b != [] && b[0] == Front(b, todo)[0]
  {
  }

  lemma FrontIsShort(b: seq<Bucket>, todo: nat)
    requires todo <= |b|
    ensures |Front(b, todo)| == |b| - todo
    ensures Hollow(b[..0]) && Marks(b[..0]) == []
  {
    assert b[..0] == [];
  }

  /** The inner loop of `writev_nonblocking`: with `sent` more bytes on the wire, drops what
      they cover from the front of the brigade and of the iovec. */
  method RetireSent(c: Connection, bb: Brigade, todo: nat, nvec: nat, start: nat, sent: nat)
    returns (offset: nat)
    requires todo <= |bb.buckets|
    requires Lockstep(c, Front(bb.buckets, todo), start, nvec)
    requires Balanced(c.Snap(bb.buckets), sent)
    requires sent <= |Payload(Front(bb.buckets, todo))|
    modifies bb`buckets, c.vec, c`destroyed
    ensures todo <= |bb.buckets| && Tail(bb.buckets, todo) == old(Tail(bb.buckets, todo))
    ensures start <= offset && Lockstep(c, Front(bb.buckets, todo), offset, nvec)
    ensures Balanced(c.Snap(bb.buckets), 0) && old(c.destroyed) <= c.destroyed
    ensures |Payload(Front(bb.buckets, todo))| == old(|Payload(Front(bb.buckets, todo))|) - sent
    ensures offset < nvec ==> todo < |bb.buckets| && bb.buckets[0].Length() != 0
    ensures KeepsOrder(old(c.Snap(bb.buckets)), c.Snap(bb.buckets))
    ensures Late(Front(bb.buckets, todo)) == old(Late(Front(bb.buckets, todo)))
  {
    hide Balanced, Payload, Filled, KeepsOrder, Late, Lockstep, Front, Tail;
    ghost var before := c.Snap(bb.buckets);
    KeepsOrderSelf(before);
    var n: nat := sent;
    offset := start;
    var done := false;
    while offset < nvec && !done
      invariant todo <= |bb.buckets| && Tail(bb.buckets, todo) == old(Tail(bb.buckets, todo))
      invariant start <= offset && Lockstep(c, Front(bb.buckets, todo), offset, nvec)
      invariant Balanced(c.Snap(bb.buckets), n) && old(c.destroyed) <= c.destroyed
      invariant |Payload(Front(bb.buckets, todo))| - n == old(|Payload(Front(bb.buckets, todo))|) - sent
      invariant done ==> n == 0 && todo < |bb.buckets| && bb.buckets[0].Length() != 0
      invariant KeepsOrder(before, c.Snap(bb.buckets))
      invariant Late(Front(bb.buckets, todo)) == old(Late(Front(bb.buckets, todo)))
      decreases !done, |bb.buckets|
    {
      ghost var here := c.Snap(bb.buckets);
      offset, n, done := RetireHead(c, bb, todo, nvec, offset, n);
      KeepsOrderOn(before, here, c.Snap(bb.buckets));
    }
    if !done {
      NothingLeft(c, Front(bb.buckets, todo), offset, nvec);
    }
  }

  lemma NothingLeft(c: Connection, front: seq<Bucket>, from: nat, nvec: nat)
    requires Lockstep(c, front, from, nvec) && from >= nvec
    ensures from == nvec && Payload(front) == []
  {
    FilledIsPayload(front);
  }

  /** The first `nvec` iovec entries are the non-empty buckets in front of the cursor, which
      hold `nbytes` bytes; the accounting of the connection is exact. */
  ghost predicate Gathered(c: Connection, bb: Brigade, todo: nat, nvec: nat, nbytes: nat)
    reads c, c.sock`wire, c.sock`timeout, c.vec, bb`buckets
  {
    && c.Sound() && c.sock.timeout == 0
    && todo <= |bb.buckets|
    && Lockstep(c, Front(bb.buckets, todo), 0, nvec)
    && nbytes == |Payload(Front(bb.buckets, todo))|
    && Balanced(c.Snap(bb.buckets), 0)
  }

  lemma FrontOfPayload(b: seq<Bucket>, todo: nat)
    requires todo <= |b|
    ensures Payload(b) == Payload(Front(b, todo)) + Payload(Tail(b, todo))
  {
    PayloadConcat(Front(b, todo), Tail(b, todo));
    assert b == Front(b, todo) + Tail(b, todo);
  }

  /** One write answers for itself. */
  lemma Wrote(l: Ledger, rv: Status, m: Ledger)
    requires m == l.(writes := l.writes.Next(rv, rv == EAgain), partials := m.partials)
    ensures Answers(l, rv, m)
  {
  }

  /** `writev_nonblocking`: sends the gathered entries, in as many pieces as the socket takes.
      Brigade and iovec end at the same unsent suffix, and no bucket from the cursor on is
      touched. */
  method WriteV(c: Connection, bb: Brigade, todo: nat, bytesToWrite: nat, nvec: nat)
    returns (rv: Status)
    requires Gathered(c, bb, todo, nvec, bytesToWrite) && nvec > 0
    modifies bb`buckets, c.vec, c.sock`wire, c.sock`ready, c.sock`traffic, c`bytesWritten, c`destroyed
    ensures c.Sound() && Balanced(c.Snap(bb.buckets), 0)
    ensures old(c.sock.wire) <= c.sock.wire && old(c.destroyed) <= c.destroyed
    ensures todo <= |bb.buckets| && Tail(bb.buckets, todo) == old(Tail(bb.buckets, todo))
    ensures |c.sock.wire| - old(|c.sock.wire|) + |Payload(Front(bb.buckets, todo))| == bytesToWrite
    ensures exists offset: nat :: Lockstep(c, Front(bb.buckets, todo), offset, nvec)
    ensures var front := Front(bb.buckets, todo);
      (rv == Success ==> Hollow(front)) && (Hollow(front) || front[0].Length() != 0)
    ensures rv == EAgain && old(c.sock.ready) ==> |c.sock.wire| > old(|c.sock.wire|)
    ensures KeepsOrder(old(c.Snap(bb.buckets)), c.Snap(bb.buckets))
    ensures Late(Front(bb.buckets, todo)) == old(Late(Front(bb.buckets, todo)))
    ensures Answers(old(LedgerOf(c.sock, bb)), rv, LedgerOf(c.sock, bb))
    ensures LedgerOf(c.sock, bb).Rounds() == old(LedgerOf(c.sock, bb).Rounds()) + 1
    ensures c.sock.traffic.target == old(|c.sock.wire|) + bytesToWrite
  {
    hide Payload, Filled, Flat, Balanced, KeepsOrder, Late, Answers;
    ghost var start := c.Snap(bb.buckets);
    ghost var ledger := LedgerOf(c.sock, bb);
    AnswersSelf(ledger);
    KeepsOrderSelf(start);
    rv := Success;
    var bytesWritten, offset := 0, 0;
    var again := true;
    FilledIsPayload(Front(bb.buckets, todo));
    while again
      invariant todo <= |bb.buckets| && Tail(bb.buckets, todo) == old(Tail(bb.buckets, todo))
      invariant 0 <= offset && Lockstep(c, Front(bb.buckets, todo), offset, nvec)
      invariant Balanced(c.Snap(bb.buckets), 0)
      invariant old(c.sock.wire) <= c.sock.wire && old(c.destroyed) <= c.destroyed
      invariant |c.sock.wire| == old(|c.sock.wire|) + bytesWritten == c.bytesWritten + bytesWritten
      invariant bytesWritten + |Payload(Front(bb.buckets, todo))| == bytesToWrite
      invariant again <==> rv == Success && bytesWritten < bytesToWrite
      invariant bytesWritten == 0 && again ==> c.sock.ready == old(c.sock.ready)
      invariant rv == EAgain && old(c.sock.ready) ==> bytesWritten > 0
      invariant !again ==> offset < nvec ==> todo < |bb.buckets| && bb.buckets[0].Length() != 0
      invariant KeepsOrder(start, c.Snap(bb.buckets))
      invariant Late(Front(bb.buckets, todo)) == old(Late(Front(bb.buckets, todo)))
      invariant Answers(ledger, rv, LedgerOf(c.sock, bb))
      invariant LedgerOf(c.sock, bb).Rounds() == ledger.Rounds() + (if again then 0 else 1)
      invariant !again ==> c.sock.traffic.target == old(|c.sock.wire|) + bytesToWrite
      decreases bytesToWrite - bytesWritten, again
    {
      FilledIsPayload(Front(bb.buckets, todo));
      FrontOfPayload(bb.buckets, todo);
      ghost var before, made := c.Snap(bb.buckets), LedgerOf(c.sock, bb);
      var n;
      rv, n := c.sock.Accept(Flat(c.vec[offset..nvec]));
      Wrote(made, rv, LedgerOf(c.sock, bb));
      AnswersOn(ledger, made, rv, LedgerOf(c.sock, bb));
      bytesWritten := bytesWritten + n;
      Emitted(before, Flat(c.vec[offset..nvec])[..n]);
      OrderOfWire(before, c.sock.wire);
      KeepsOrderOn(start, before, c.Snap(bb.buckets));
      ghost var sent := c.Snap(bb.buckets);
      offset := RetireSent(c, bb, todo, nvec, offset, n);
      KeepsOrderOn(start, sent, c.Snap(bb.buckets));
      again := rv == Success && bytesWritten < bytesToWrite;
    }
    FilledIsPayload(Front(bb.buckets, todo));
    c.bytesWritten := c.bytesWritten + bytesWritten;
    assert Lockstep(c, Front(bb.buckets, todo), offset, nvec);
  }

  /** `sendfile_nonblocking`: a partial write that succeeds counts as a refusal. */
  method SendFile(c: Connection, bb: Brigade, i: nat) returns (rv: Status)
    requires c.Sound() && c.sock.timeout == 0 && Balanced(c.Snap(bb.buckets), 0)
    requires i < |bb.buckets| && bb.buckets[i].CanSendfile() && Hollow(bb.buckets[..i])
    modifies bb`buckets, c.sock`wire, c.sock`ready, c.sock`traffic, c`bytesWritten
    ensures c.Sound() && Balanced(c.Snap(bb.buckets), 0)
    ensures old(c.sock.wire) <= c.sock.wire
    ensures var n := |c.sock.wire| - old(|c.sock.wire|);
      && n <= |old(bb.buckets[i]).content|
      && bb.buckets == Spliced(old(bb.buckets), i, Remainder(old(bb.buckets[i]), n))
    ensures rv == Success ==>
      bb.buckets == Without(old(bb.buckets), i) && |c.sock.wire| == old(|c.sock.wire|) + |old(bb.buckets[i]).content|
    ensures rv == EAgain && old(c.sock.ready) ==> |c.sock.wire| > old(|c.sock.wire|)
    ensures KeepsOrder(old(c.Snap(bb.buckets)), c.Snap(bb.buckets))
    ensures Answers(old(LedgerOf(c.sock, bb)), rv, LedgerOf(c.sock, bb))
    ensures c.sock.traffic.target == old(|c.sock.wire|) + |old(bb.buckets[i]).content|
  {
    hide Payload, Balanced, KeepsOrder, Answers;
    ghost var ledger := LedgerOf(c.sock, bb);
    var size := |bb.buckets[i].content|;
    var bytesWritten;
    ghost var before := c.Snap(bb.buckets);
    HollowHasNoPayload(bb.buckets[..i]);
    PayloadAround(bb.buckets, i);
    rv, bytesWritten := c.sock.AcceptFile(bb.buckets[i].content);
    Emitted(before, bb.buckets[i].content[..bytesWritten]);
    c.bytesWritten := c.bytesWritten + bytesWritten;
    OrderOfWire(before, c.sock.wire);
    ghost var sent := c.Snap(bb.buckets);
    DropBytes(c, bb, i, bytesWritten, bytesWritten);
    KeepsOrderOn(before, sent, c.Snap(bb.buckets));
    if 0 < bytesWritten < size && rv == Success {
      rv := EAgain;
    }
    Wrote(ledger, rv, LedgerOf(c.sock, bb));
  }

  /** Doubles the iovec within its bounds and keeps the entries in use. */
  method GrowVec(c: Connection, nvec: nat)
    requires c.Sound() && nvec == c.vec.Length < NvecMax(c.conf)
    modifies c`vec
    ensures c.Sound() && fresh(c.vec)
    ensures nvec < c.vec.Length && c.vec[..nvec] == old(c.vec[..])
    ensures if 2 * nvec < NvecMin(c.conf) then c.vec.Length == NvecMin(c.conf)
            else if 2 * nvec > NvecMax(c.conf) then c.vec.Length == NvecMax(c.conf)
            else c.vec.Length == 2 * nvec
  {
    var newn := nvec * 2;
    if newn < NvecMin(c.conf) {
      newn := NvecMin(c.conf);
    } else if newn > NvecMax(c.conf) {
      newn := NvecMax(c.conf);
    }
    var newvec := new seq<Byte>[newn];
    forall i | 0 <= i < nvec {
      newvec[i] := c.vec[i];
    }
    c.vec := newvec;
  }

  /** Sends what is gathered, so that gathering can start afresh at the cursor. */
  method FlushGathered(c: Connection, bb: Brigade, todo: nat, nvec: nat, nbytes: nat)
    returns (rv: Status)
    requires Gathered(c, bb, todo, nvec, nbytes) && nvec > 0
    requires todo > 0 ==> bb.buckets[|bb.buckets| - todo].Length() != 0
    modifies bb`buckets, c.vec, c.sock`wire, c.sock`ready, c.sock`traffic, c`bytesWritten, c`destroyed
    ensures c.Sound() && Balanced(c.Snap(bb.buckets), 0)
    ensures old(c.sock.wire) <= c.sock.wire && old(c.destroyed) <= c.destroyed
    ensures todo <= |bb.buckets| && Tail(bb.buckets, todo) == old(Tail(bb.buckets, todo))
    ensures rv == Success ==> Gathered(c, bb, todo, 0, 0) && |c.sock.wire| > old(|c.sock.wire|)
    ensures rv == EAgain && old(c.sock.ready) ==> |c.sock.wire| > old(|c.sock.wire|)
    ensures KeepsOrder(old(c.Snap(bb.buckets)), c.Snap(bb.buckets))
    ensures rv == Success ==>
      KeepsCourse(old(c.Snap(bb.buckets)), old(FateAt(bb.buckets, todo)), c.Snap(bb.buckets), FateAt(bb.buckets, todo))
    ensures Answers(old(LedgerOf(c.sock, bb)), rv, LedgerOf(c.sock, bb))
    ensures LedgerOf(c.sock, bb).Rounds() == old(LedgerOf(c.sock, bb).Rounds()) + 1
    ensures c.sock.traffic.target == old(|c.sock.wire|) + nbytes
  {
    hide Payload, Filled, Balanced, KeepsOrder, Late, Fate, Answers;
    ghost var b := bb.buckets;
    FilledIsPayload(Front(b, todo));
    rv := WriteV(c, bb, todo, nbytes, nvec);
    FilledIsPayload(Front(bb.buckets, todo));
    if rv == Success {
      FateFlushed(Front(b, todo), Front(bb.buckets, todo), Tail(b, todo));
      TailMembers(b, todo);
    }
  }

  lemma TailMembers(b: seq<Bucket>, todo: nat)
    requires todo <= |b|
    ensures NoMorphing(b) ==> NoMorphing(Tail(b, todo))
  {
  }

  /** What a successful read leaves from the cursor on. */
  lemma ReadShrinks(tail: seq<Bucket>, pieces: seq<Bucket>)
    requires tail != [] && ReadInto(tail[0], pieces)
    ensures AllData(pieces) && pieces[0].Length() >= 0
    ensures var rest := |Payload(pieces[1..] + tail[1..])|;
      rest < |Payload(tail)| || (rest == |Payload(tail)| && |pieces| == 1)
  {
    PayloadConcat(pieces[1..], tail[1..]);
    if |pieces| == 2 {
      PayloadOne(pieces[1]);
      PayloadTwo(pieces[0], pieces[1]);
      assert pieces == [pieces[0], pieces[1]] && pieces[1..] == [pieces[1]];
    } else {
      assert pieces[1..] == [];
    }
  }

  /** Replacing the bucket at the cursor, which stays on the first piece. */
  lemma CursorSpliced(b: seq<Bucket>, todo: nat, pieces: seq<Bucket>)
    requires 0 < todo <= |b| && pieces != []
    ensures b[|b| - todo] == Tail(b, todo)[0] && Tail(b, todo) == [Tail(b, todo)[0]] + Tail(b, todo)[1..]
    ensures var i := |b| - todo;
      var read := Spliced(b, i, pieces);
      var todo' := |read| - i;
      && todo' == todo + |pieces| - 1 && i < |read| && read[i] == pieces[0]
      && (pieces == [b[i]] ==> read == b)
      && Front(read, todo') == Front(b, todo)
      && Tail(read, todo') == pieces + Tail(b, todo)[1..]
      && Tail(read, todo' - 1) == pieces[1..] + Tail(b, todo)[1..]
  {
  }

  /** One read of the bucket at the cursor. The cursor stays on it; what the read splits off
      follows it. */
  method ReadCursor(c: Connection, bb: Brigade, todo: nat, wait: bool, ghost nvec: nat, ghost nbytes: nat)
    returns (rv: Status, todo': nat)
    requires Gathered(c, bb, todo, nvec, nbytes)
    requires 0 < todo && bb.buckets[|bb.buckets| - todo].Length() != 0
    requires !bb.buckets[|bb.buckets| - todo].CanSendfile()
    modifies bb
    ensures Gathered(c, bb, todo', nvec, nbytes)
    ensures wait ==> rv != EAgain
    ensures bb.fetches == old(bb.fetches).Next(rv, rv == EAgain)
    ensures bb.blocking == old(bb.blocking) + (if wait then 1 else 0)
    ensures old(bb.buckets[|bb.buckets| - todo].InMemory()) ==>
      rv == Success && bb.buckets == old(bb.buckets) && todo' == todo
    ensures rv != Success ==> bb.buckets == old(bb.buckets)
    ensures 0 < todo' && |bb.buckets| - todo' == old(|bb.buckets|) - todo
    ensures rv != Success ==> todo' == todo
    ensures rv == Success ==>
      && bb.buckets[|bb.buckets| - todo'].Length() >= 0 && !bb.buckets[|bb.buckets| - todo'].CanSendfile()
      && (Pending(bb.buckets, todo' - 1) < old(Pending(bb.buckets, todo))
          || (Pending(bb.buckets, todo' - 1) == old(Pending(bb.buckets, todo)) && todo' == todo))
    ensures KeepsCourse(old(c.Snap(bb.buckets)), old(FateAt(bb.buckets, todo)),
                        c.Snap(bb.buckets), FateAt(bb.buckets, todo'))
  {
    hide Payload, Filled, Balanced, Marks, KeepsOrder, Fate, Front, Tail, Spliced, Lockstep;
    ghost var before := c.Snap(bb.buckets);
    var i := |bb.buckets| - todo;
    ghost var tail := Tail(bb.buckets, todo);
    rv := bb.Read(i, wait);
    todo' := todo;
    if rv == Success {
      ghost var pieces :| ReadInto(before.queue[i], pieces) && bb.buckets == Spliced(before.queue, i, pieces);
      CursorSpliced(before.queue, todo, pieces);
      todo' := |bb.buckets| - i;
      ReadShrinks(tail, pieces);
      ReadPieces(tail[0], pieces);
      Reread(before, i, pieces);
      ReadInOrder(before, i, pieces);
      FateRead(Front(before.queue, todo), tail[0], pieces, tail[1..]);
      assert before.queue[i] in before.queue;
    } else {
      KeepsOrderSelf(before);
    }
  }

  /** A read that does not wait answers for itself, unless it is refused. */
  lemma ReadOnce(l: Ledger, rv: Status, m: Ledger)
    requires m == l.(fetches := l.fetches.Next(rv, rv == EAgain))
    ensures Answers(l, if rv == EAgain then Success else rv, m)
  {
  }

  /** A read that waits, after one that was refused. */
  lemma ReadAgain(l: Ledger, m: Ledger, rv: Status, n: Ledger)
    requires Answers(l, Success, m) && m.blocking == l.blocking && m.fetches.refused > l.fetches.refused
    requires rv != EAgain && n == m.(fetches := m.fetches.Next(rv, false), blocking := m.blocking + 1)
    ensures Answers(l, rv, n)
  {
  }

  /** Reads the bucket at the cursor, which is not empty: first without blocking, and if that
      is refused, again after sending what is gathered. The cursor stays on the bucket; what
      the read split off follows it. */
  method Fetch(c: Connection, bb: Brigade, todo: nat, nvec: nat, nbytes: nat)
    returns (rv: Status, todo': nat, nvec': nat, nbytes': nat)
    requires Gathered(c, bb, todo, nvec, nbytes)
    requires 0 < todo && bb.buckets[|bb.buckets| - todo].Length() != 0
    requires !bb.buckets[|bb.buckets| - todo].CanSendfile()
    modifies bb, c.vec, c.sock`wire, c.sock`ready, c.sock`traffic, c`bytesWritten, c`destroyed
    ensures c.Sound() && Balanced(c.Snap(bb.buckets), 0)
    ensures old(c.sock.wire) <= c.sock.wire && old(c.destroyed) <= c.destroyed
    ensures rv == Success ==>
      && 0 < todo' && Gathered(c, bb, todo', nvec', nbytes')
      && bb.buckets[|bb.buckets| - todo'].Length() >= 0 && !bb.buckets[|bb.buckets| - todo'].CanSendfile()
      && (Pending(bb.buckets, todo' - 1) < old(Pending(bb.buckets, todo))
          || (Pending(bb.buckets, todo' - 1) == old(Pending(bb.buckets, todo)) && todo' == todo))
    ensures rv == Success && nvec == 0 ==>
      c.sock.wire == old(c.sock.wire) && nvec' == 0 && |bb.buckets| - todo' == old(|bb.buckets|) - todo
    ensures rv == EAgain && old(c.sock.ready) ==> |c.sock.wire| > old(|c.sock.wire|)
    ensures rv == Success && |c.sock.wire| == old(|c.sock.wire|) ==> c.sock.ready == old(c.sock.ready)
    ensures KeepsOrder(old(c.Snap(bb.buckets)), c.Snap(bb.buckets))
    ensures rv == Success ==>
      KeepsCourse(old(c.Snap(bb.buckets)), old(FateAt(bb.buckets, todo)), c.Snap(bb.buckets), FateAt(bb.buckets, todo'))
    ensures Answers(old(LedgerOf(c.sock, bb)), rv, LedgerOf(c.sock, bb))
    ensures bb.blocking > old(bb.blocking) ==> nvec' == 0 && bb.fetches.refused > old(bb.fetches.refused)
    ensures rv == Success && bb.fetches.refused > old(bb.fetches.refused) ==> bb.blocking > old(bb.blocking)
    ensures old(bb.buckets[|bb.buckets| - todo].InMemory()) ==>
      && rv == Success && bb.buckets == old(bb.buckets) && c.sock.traffic == old(c.sock.traffic)
      && todo' == todo && nvec' == nvec && nbytes' == nbytes
  {
    hide Payload, Filled, Balanced, KeepsOrder, FateAt, Gathered, Front, Tail, Without, Answers;
    ghost var ledger := LedgerOf(c.sock, bb);
    GatheredBounds(c, bb, todo, nvec, nbytes);
    CursorDeleted(bb.buckets, todo);
    ghost var before, f := c.Snap(bb.buckets), FateAt(bb.buckets, todo);
    nvec', nbytes' := nvec, nbytes;
    rv, todo' := ReadCursor(c, bb, todo, false, nvec, nbytes);
    ReadOnce(ledger, rv, LedgerOf(c.sock, bb));
    if rv == EAgain {
      ghost var refused := LedgerOf(c.sock, bb);
      AnswersSelf(refused);
      if nvec > 0 {
        rv := FlushGathered(c, bb, todo, nvec, nbytes);
        AnswersOn(ledger, refused, rv, LedgerOf(c.sock, bb));
        if rv != Success {
          return;
        }
        CursorDeleted(bb.buckets, todo);
        nvec', nbytes' := 0, 0;
      }
      ghost var here, g, flushed := c.Snap(bb.buckets), FateAt(bb.buckets, todo), LedgerOf(c.sock, bb);
      rv, todo' := ReadCursor(c, bb, todo, true, nvec', nbytes');
      ReadAgain(ledger, flushed, rv, LedgerOf(c.sock, bb));
      CourseOn(before, f, here, g, c.Snap(bb.buckets), FateAt(bb.buckets, todo'));
    }
    GatheredBounds(c, bb, todo', nvec', nbytes');
  }

  /** Moving the cursor over one bucket. */
  lemma CursorMoves(b: seq<Bucket>, todo: nat)
    requires 0 < todo <= |b|
    ensures var e := b[|b| - todo];
      && Payload(Front(b, todo - 1)) == Payload(Front(b, todo)) + e.Bytes()
      && Filled(Front(b, todo - 1)) == Filled(Front(b, todo)) + (if e.Length() != 0 then [e.Bytes()] else [])
      && (Settled(Front(b, todo)) && e.Length() >= 0 ==> Settled(Front(b, todo - 1)))
  {
    var e := b[|b| - todo];
    assert Front(b, todo - 1) == Front(b, todo) + [e];
    PayloadConcat(Front(b, todo), [e]);
    FilledConcat(Front(b, todo), [e]);
    PayloadOne(e);
    assert [e][1..] == [];
  }

  /** The bucket at the cursor heads the payload from the cursor on. */
  lemma CursorAt(b: seq<Bucket>, todo: nat)
    requires 0 < todo <= |b|
    ensures Pending(b, todo) == |b[|b| - todo].Bytes()| + Pending(b, todo - 1)
  {
    assert Tail(b, todo)[1..] == Tail(b, todo - 1);
  }

  /** Deleting the bucket at the cursor moves the cursor to the next. */
  lemma CursorDeleted(b: seq<Bucket>, todo: nat)
    requires 0 < todo <= |b|
    ensures b[|b| - todo] == Tail(b, todo)[0] && b[..|b| - todo] == Front(b, todo)
    ensures Tail(b, todo) == [Tail(b, todo)[0]] + Tail(b, todo)[1..]
    ensures Tail(b, todo - 1) == Tail(b, todo)[1..]
    ensures var rest := Without(b, |b| - todo);
      |rest| == |b| - 1 && Front(rest, todo - 1) == Front(b, todo) && Tail(rest, todo - 1) == Tail(b, todo)[1..]
  {
  }

  lemma NoneGathered(c: Connection, bb: Brigade, todo: nat, nbytes: nat)
    requires Gathered(c, bb, todo, 0, nbytes)
    ensures c.Sound() && c.sock.timeout == 0 && Balanced(c.Snap(bb.buckets), 0)
    ensures todo <= |bb.buckets| && Hollow(Front(bb.buckets, todo)) && nbytes == 0
  {
    FilledIsPayload(Front(bb.buckets, todo));
  }

  lemma HollowGathered(c: Connection, bb: Brigade, todo: nat)
    requires c.Sound() && c.sock.timeout == 0 && Balanced(c.Snap(bb.buckets), 0)
    requires todo <= |bb.buckets| && Hollow(Front(bb.buckets, todo))
    ensures Gathered(c, bb, todo, 0, 0)
  {
    FilledIsPayload(Front(bb.buckets, todo));
  }

  /** Sends the file bucket at the cursor with sendfile, after everything gathered. */
  method SendFileStep(c: Connection, bb: Brigade, todo: nat, nvec: nat, nbytes: nat) returns (rv: Status)
    requires Gathered(c, bb, todo, nvec, nbytes)
    requires 0 < todo && bb.buckets[|bb.buckets| - todo].CanSendfile()
    modifies bb`buckets, c.vec, c.sock`wire, c.sock`ready, c.sock`traffic, c`bytesWritten, c`destroyed
    ensures c.Sound() && Balanced(c.Snap(bb.buckets), 0)
    ensures old(c.sock.wire) <= c.sock.wire && old(c.destroyed) <= c.destroyed
    ensures rv == Success ==>
      && Gathered(c, bb, todo - 1, 0, 0)
      && Tail(bb.buckets, todo - 1) == old(Tail(bb.buckets, todo - 1))
      && Pending(bb.buckets, todo - 1) == old(Pending(bb.buckets, todo - 1))
      && |c.sock.wire| > old(|c.sock.wire|)
    ensures rv == EAgain && old(c.sock.ready) ==> |c.sock.wire| > old(|c.sock.wire|)
    ensures KeepsOrder(old(c.Snap(bb.buckets)), c.Snap(bb.buckets))
    ensures rv == Success ==>
      KeepsCourse(old(c.Snap(bb.buckets)), old(FateAt(bb.buckets, todo)),
                  c.Snap(bb.buckets), FateAt(bb.buckets, todo - 1))
    ensures Answers(old(LedgerOf(c.sock, bb)), rv, LedgerOf(c.sock, bb))
  {
    hide Payload, Filled, Balanced, KeepsOrder, Fate, Gathered, Front, Tail, Without, Spliced, Answers;
    ghost var ledger := LedgerOf(c.sock, bb);
    AnswersSelf(ledger);
    GatheredBounds(c, bb, todo, nvec, nbytes);
    ghost var before := c.Snap(bb.buckets);
    ghost var tail := Tail(bb.buckets, todo);
    KeepsOrderSelf(before);
    CursorDeleted(bb.buckets, todo);
    if nvec > 0 {
      rv := FlushGathered(c, bb, todo, nvec, nbytes);
      if rv != Success {
        return;
      }
      CursorDeleted(bb.buckets, todo);
    }
    NoneGathered(c, bb, todo, 0);
    ghost var here := c.Snap(bb.buckets);
    ghost var flushed := LedgerOf(c.sock, bb);
    rv := SendFile(c, bb, |bb.buckets| - todo);
    AnswersOn(ledger, flushed, rv, LedgerOf(c.sock, bb));
    KeepsOrderOn(before, here, c.Snap(bb.buckets));
    if rv == Success {
      HollowGathered(c, bb, todo - 1);
      FateSendfile(Front(here.queue, todo), tail[0], tail[1..]);
    }
  }

  /** Passes over the empty bucket at the cursor. It is deleted at once only when nothing is
      gathered; otherwise it waits for the entries in front of it. */
  method PassHollow(c: Connection, bb: Brigade, todo: nat, nvec: nat, nbytes: nat)
    requires Gathered(c, bb, todo, nvec, nbytes)
    requires 0 < todo && bb.buckets[|bb.buckets| - todo].Length() == 0
    modifies bb`buckets, c`destroyed
    ensures Gathered(c, bb, todo - 1, nvec, nbytes) && old(c.destroyed) <= c.destroyed
    ensures Tail(bb.buckets, todo - 1) == old(Tail(bb.buckets, todo - 1))
    ensures nvec == 0 ==> |bb.buckets| == old(|bb.buckets|) - 1
    ensures nvec > 0 ==> bb.buckets == old(bb.buckets) && c.destroyed == old(c.destroyed)
    ensures Advances(old(c.Snap(bb.buckets)), old(FateAt(bb.buckets, todo)),
                     c.Snap(bb.buckets), FateAt(bb.buckets, todo - 1))
  {
    hide Payload, Filled, Balanced, Marks, KeepsOrder, BreaksOrder, Fate, Gathered, Front, Tail, Without, Hollow;
    GatheredBounds(c, bb, todo, nvec, nbytes);
    ghost var front := Front(bb.buckets, todo);
    ghost var tail := Tail(bb.buckets, todo);
    CursorDeleted(bb.buckets, todo);
    if nvec == 0 {
      NoneGathered(c, bb, todo, nbytes);
      FateDeleted(front, tail[0], tail[1..]);
      DeleteHollow(c, bb, |bb.buckets| - todo, 0);
      HollowGathered(c, bb, todo - 1);
    } else {
      KeepsOrderSelf(c.Snap(bb.buckets));
      PassedOver(c, bb, todo, nvec, nbytes);
      FatePassed(front, tail[0], tail[1..]);
    }
  }

  /** An empty bucket behind gathered entries needs no entry. */
  lemma PassedOver(c: Connection, bb: Brigade, todo: nat, nvec: nat, nbytes: nat)
    requires Gathered(c, bb, todo, nvec, nbytes) && nvec > 0
    requires 0 < todo && bb.buckets[|bb.buckets| - todo].Length() == 0
    ensures Gathered(c, bb, todo - 1, nvec, nbytes)
    ensures !Hollow(Front(bb.buckets, todo))
    ensures Front(bb.buckets, todo - 1) == Front(bb.buckets, todo) + [bb.buckets[|bb.buckets| - todo]]
  {
    hide Payload, Filled;
    CursorMoves(bb.buckets, todo);
    FilledIsPayload(Front(bb.buckets, todo));
    assert bb.buckets[|bb.buckets| - todo].Bytes() == [];
  }

  /** What is gathered must go out before the bucket that comes next. */
  predicate Heavy(conf: Config, tail: seq<Bucket>, nbytes: nat) {
    nbytes > conf.flushMaxThreshold && tail != [] && tail[0].Length() != 0 && !tail[0].InMemory()
  }

  /** Makes sure that one more entry fits: by sending what is gathered when the iovec has its
      full size, by growing it otherwise. */
  method MakeRoom(c: Connection, bb: Brigade, todo: nat, nvec: nat, nbytes: nat)
    returns (rv: Status, nvec': nat, nbytes': nat)
    requires Gathered(c, bb, todo, nvec, nbytes)
    requires 0 < todo && bb.buckets[|bb.buckets| - todo].Length() != 0
    modifies bb`buckets, c.vec, c.sock`wire, c.sock`ready, c.sock`traffic, c`bytesWritten, c`destroyed, c`vec
    ensures c.Sound() && Balanced(c.Snap(bb.buckets), 0) && (c.vec == old(c.vec) || fresh(c.vec))
    ensures old(c.sock.wire) <= c.sock.wire && old(c.destroyed) <= c.destroyed
    ensures rv == Success ==>
      && Gathered(c, bb, todo, nvec', nbytes') && nvec' < c.vec.Length
      && Tail(bb.buckets, todo) == old(Tail(bb.buckets, todo))
    ensures rv == EAgain && old(c.sock.ready) ==> |c.sock.wire| > old(|c.sock.wire|)
    ensures rv == Success && |c.sock.wire| == old(|c.sock.wire|) ==> c.sock.ready == old(c.sock.ready)
    ensures KeepsOrder(old(c.Snap(bb.buckets)), c.Snap(bb.buckets))
    ensures rv == Success ==>
      KeepsCourse(old(c.Snap(bb.buckets)), old(FateAt(bb.buckets, todo)), c.Snap(bb.buckets), FateAt(bb.buckets, todo))
    ensures Answers(old(LedgerOf(c.sock, bb)), rv, LedgerOf(c.sock, bb))
    ensures if nvec == NvecMax(c.conf) then
        && LedgerOf(c.sock, bb).Rounds() == old(LedgerOf(c.sock, bb).Rounds()) + 1
        && c.sock.traffic.target == old(|c.sock.wire|) + nbytes
        && nvec' == nbytes' == 0
      else
        && rv == Success && nvec' == nvec && nbytes' == nbytes
        && bb.buckets == old(bb.buckets) && c.sock.traffic == old(c.sock.traffic)
  {
    hide Payload, Filled, Balanced, KeepsOrder, Fate, Answers;
    KeepsOrderSelf(c.Snap(bb.buckets));
    AnswersSelf(LedgerOf(c.sock, bb));
    rv, nvec', nbytes' := Success, nvec, nbytes;
    if nvec == c.vec.Length {
      if nvec == NvecMax(c.conf) {
        rv := FlushGathered(c, bb, todo, nvec, nbytes);
        nvec', nbytes' := 0, 0;
      } else {
        GrowVec(c, nvec);
      }
    }
  }

  /** Takes the bucket at the cursor, which has been read, into the iovec. */
  method GatherStep(c: Connection, bb: Brigade, todo: nat, nvec: nat, nbytes: nat)
    returns (rv: Status, nvec': nat, nbytes': nat)
    requires Gathered(c, bb, todo, nvec, nbytes)
    requires 0 < todo && bb.buckets[|bb.buckets| - todo].Length() > 0
    requires !bb.buckets[|bb.buckets| - todo].CanSendfile()
    modifies bb`buckets, c.vec, c.sock`wire, c.sock`ready, c.sock`traffic, c`bytesWritten, c`destroyed, c`vec
    ensures c.Sound() && Balanced(c.Snap(bb.buckets), 0) && (c.vec == old(c.vec) || fresh(c.vec))
    ensures old(c.sock.wire) <= c.sock.wire && old(c.destroyed) <= c.destroyed
    ensures rv == Success ==>
      && Gathered(c, bb, todo - 1, nvec', nbytes')
      && Tail(bb.buckets, todo - 1) == old(Tail(bb.buckets, todo - 1))
    ensures rv == EAgain && old(c.sock.ready) ==> |c.sock.wire| > old(|c.sock.wire|)
    ensures rv == Success && |c.sock.wire| == old(|c.sock.wire|) ==> c.sock.ready == old(c.sock.ready)
    ensures KeepsOrder(old(c.Snap(bb.buckets)), c.Snap(bb.buckets))
    ensures rv == Success ==>
      KeepsCourse(old(c.Snap(bb.buckets)), old(FateAt(bb.buckets, todo)),
                  c.Snap(bb.buckets), FateAt(bb.buckets, todo - 1))
    ensures Answers(old(LedgerOf(c.sock, bb)), rv, LedgerOf(c.sock, bb))
    ensures nvec == NvecMax(c.conf) ==>
      && LedgerOf(c.sock, bb).Rounds() == old(LedgerOf(c.sock, bb).Rounds()) + 1
      && c.sock.traffic.target == old(|c.sock.wire|) + nbytes
      && (rv == Success ==> nvec' == 1)
    ensures nvec < NvecMax(c.conf) ==>
      && rv == Success && nvec' == nvec + 1
      && bb.buckets == old(bb.buckets) && c.sock.traffic == old(c.sock.traffic)
      && nbytes' == nbytes + |old(bb.buckets[|bb.buckets| - todo]).Bytes()|
  {
    hide Payload, Filled, Balanced, KeepsOrder, Fate, Answers;
    ghost var tail := Tail(bb.buckets, todo);
    rv, nvec', nbytes' := MakeRoom(c, bb, todo, nvec, nbytes);
    if rv != Success {
      return;
    }
    assert bb.buckets[|bb.buckets| - todo] == tail[0] && tail == [tail[0]] + tail[1..];
    CursorMoves(bb.buckets, todo);
    FateGathered(Front(bb.buckets, todo), tail[0], tail[1..]);
    assert Front(bb.buckets, todo - 1) == Front(bb.buckets, todo) + [tail[0]];
    var data := bb.buckets[|bb.buckets| - todo].content;
    nbytes' := nbytes' + |data|;
    c.vec[nvec'] := data;
    nvec' := nvec' + 1;
    assert c.vec[0..nvec'] == c.vec[0..nvec' - 1] + [data];
    assert Tail(bb.buckets, todo - 1) == Tail(bb.buckets, todo)[1..];
  }

  /** A file bucket, or a fetched one, is not met when no payload is queued. */
  lemma NothingQueued(b: seq<Bucket>, todo: nat)
    requires 0 < todo <= |b| && |Payload(b)| == 0
    ensures b[|b| - todo].Bytes() == [] && !b[|b| - todo].CanSendfile()
  {
    hide Payload;
    PayloadAround(b, |b| - todo);
  }

  /** The payload in hand shrinks by what goes on the wire. */
  lemma QueuedIsTheRest(s: Snapshot, t: Snapshot)
    requires Balanced(s, 0) && Balanced(t, 0) && s.submitted == t.submitted
    ensures |Payload(s.queue)| == |t.wire| - |s.wire| + |Payload(t.queue)|
  {
    hide Payload, Placed, Marks;
    assert |s.wire[..|s.wire|]| == |s.wire| && |t.wire[..|t.wire|]| == |t.wire|;
  }

  /** Flushes above the threshold, unless the next bucket can go out in the same write. */
  method FlushLarge(c: Connection, bb: Brigade, todo: nat, nvec: nat, nbytes: nat)
    returns (rv: Status, nvec': nat, nbytes': nat)
    requires Gathered(c, bb, todo, nvec, nbytes)
    modifies bb`buckets, c.vec, c.sock`wire, c.sock`ready, c.sock`traffic, c`bytesWritten, c`destroyed
    ensures c.Sound() && Balanced(c.Snap(bb.buckets), 0)
    ensures old(c.sock.wire) <= c.sock.wire && old(c.destroyed) <= c.destroyed
    ensures rv == Success ==>
      Gathered(c, bb, todo, nvec', nbytes') && Tail(bb.buckets, todo) == old(Tail(bb.buckets, todo))
    ensures rv == EAgain && old(c.sock.ready) ==> |c.sock.wire| > old(|c.sock.wire|)
    ensures rv == Success && |c.sock.wire| == old(|c.sock.wire|) ==> c.sock.ready == old(c.sock.ready)
    ensures if old(Heavy(c.conf, Tail(bb.buckets, todo), nbytes)) then
        && LedgerOf(c.sock, bb).Rounds() == old(LedgerOf(c.sock, bb).Rounds()) + 1
        && c.sock.traffic.target == old(|c.sock.wire|) + nbytes
        && nvec' == nbytes' == 0
      else
        && rv == Success && nvec' == nvec && nbytes' == nbytes
        && bb.buckets == old(bb.buckets) && c.sock.traffic == old(c.sock.traffic)
    ensures Answers(old(LedgerOf(c.sock, bb)), rv, LedgerOf(c.sock, bb))
    ensures KeepsOrder(old(c.Snap(bb.buckets)), c.Snap(bb.buckets))
    ensures rv == Success ==>
      KeepsCourse(old(c.Snap(bb.buckets)), old(FateAt(bb.buckets, todo)), c.Snap(bb.buckets), FateAt(bb.buckets, todo))
  {
    hide Payload, Filled, Balanced, KeepsOrder, Fate, Answers;
    KeepsOrderSelf(c.Snap(bb.buckets));
    AnswersSelf(LedgerOf(c.sock, bb));
    rv, nvec', nbytes' := Success, nvec, nbytes;
    if nbytes > c.conf.flushMaxThreshold && todo > 0
       && bb.buckets[|bb.buckets| - todo].Length() != 0 && !bb.buckets[|bb.buckets| - todo].InMemory()
    {
      FilledIsPayload(Front(bb.buckets, todo));
      rv := FlushGathered(c, bb, todo, nvec, nbytes);
      nvec', nbytes' := 0, 0;
    }
  }

  lemma GatheredBounds(c: Connection, bb: Brigade, todo: nat, nvec: nat, nbytes: nat)
    requires Gathered(c, bb, todo, nvec, nbytes)
    ensures c.Sound() && Balanced(c.Snap(bb.buckets), 0)
    ensures todo <= |bb.buckets|
    ensures todo == |bb.buckets| ==> nvec == 0
    ensures nvec == 0 ==> nbytes == 0
  {
    FilledIsPayload(Front(bb.buckets, todo));
  }

  /** Takes the bucket at the cursor, which has been read, and moves the cursor. */
  method TakeBucket(c: Connection, bb: Brigade, todo: nat, nvec: nat, nbytes: nat)
    returns (rv: Status, nvec': nat, nbytes': nat)
    requires Gathered(c, bb, todo, nvec, nbytes)
    requires 0 < todo && bb.buckets[|bb.buckets| - todo].Length() >= 0
    requires !bb.buckets[|bb.buckets| - todo].CanSendfile()
    modifies bb`buckets, c.vec, c.sock`wire, c.sock`ready, c.sock`traffic, c`bytesWritten, c`destroyed, c`vec
    ensures c.Sound() && Balanced(c.Snap(bb.buckets), 0) && (c.vec == old(c.vec) || fresh(c.vec))
    ensures old(c.sock.wire) <= c.sock.wire && old(c.destroyed) <= c.destroyed
    ensures rv == Success ==>
      && Gathered(c, bb, todo - 1, nvec', nbytes')
      && Tail(bb.buckets, todo - 1) == old(Tail(bb.buckets, todo - 1))
    ensures rv == Success ==> Pending(bb.buckets, todo - 1) == old(Pending(bb.buckets, todo - 1))
    ensures nvec == 0 && old(bb.buckets)[old(|bb.buckets|) - todo].Length() == 0 && rv == Success ==>
      |bb.buckets| == old(|bb.buckets|) - 1
    ensures rv == EAgain && old(c.sock.ready) ==> |c.sock.wire| > old(|c.sock.wire|)
    ensures rv == Success && |c.sock.wire| == old(|c.sock.wire|) ==> c.sock.ready == old(c.sock.ready)
    ensures Moves(old(c.Snap(bb.buckets)), old(FateAt(bb.buckets, todo)), c.Snap(bb.buckets))
    ensures rv == Success ==>
      Advances(old(c.Snap(bb.buckets)), old(FateAt(bb.buckets, todo)), c.Snap(bb.buckets), FateAt(bb.buckets, todo - 1))
    ensures Answers(old(LedgerOf(c.sock, bb)), rv, LedgerOf(c.sock, bb))
    ensures rv == Success ==> !Heavy(c.conf, Tail(bb.buckets, todo - 1), nbytes')
    ensures var e := old(bb.buckets[|bb.buckets| - todo]);
      && (e.Length() == 0 || nvec < NvecMax(c.conf))
      && !old(Heavy(c.conf, Tail(bb.buckets, todo - 1), nbytes + |e.Bytes()|))
      ==> rv == Success && nvec' == nvec + (if e.Length() == 0 then 0 else 1) && c.sock.traffic == old(c.sock.traffic)
  {
    hide Payload, Filled, Balanced, Lockstep, KeepsOrder, BreaksOrder, Fate, Answers;
    ghost var ledger := LedgerOf(c.sock, bb);
    AnswersSelf(ledger);
    ghost var before, f := c.Snap(bb.buckets), FateAt(bb.buckets, todo);
    rv, nvec', nbytes' := Success, nvec, nbytes;
    if bb.buckets[|bb.buckets| - todo].Length() == 0 {
      PassHollow(c, bb, todo, nvec, nbytes);
    } else {
      rv, nvec', nbytes' := GatherStep(c, bb, todo, nvec, nbytes);
      if rv != Success {
        return;
      }
    }
    GatheredBounds(c, bb, todo - 1, nvec', nbytes');
    ghost var here, g, taken := c.Snap(bb.buckets), FateAt(bb.buckets, todo - 1), LedgerOf(c.sock, bb);
    rv, nvec', nbytes' := FlushLarge(c, bb, todo - 1, nvec', nbytes');
    AnswersOn(ledger, taken, rv, LedgerOf(c.sock, bb));
    MovesOn(before, f, here, g, c.Snap(bb.buckets));
    if rv == Success {
      AdvancesOn(before, f, here, g, c.Snap(bb.buckets), FateAt(bb.buckets, todo - 1));
    }
  }

  /** The buckets are in memory, and join `nvec` entries in the iovec. */
  ghost predicate Fits(conf: Config, b: seq<Bucket>, nvec: nat) {
    && (forall e <- b :: e.Length() == 0 || e.InMemory())
    && nvec + |Filled(b)| <= NvecMax(conf)
  }

  lemma FitsNext(conf: Config, b: seq<Bucket>, nvec: nat)
    requires Fits(conf, b, nvec) && b != []
    ensures b[0].Length() == 0 || (b[0].InMemory() && nvec < NvecMax(conf))
    ensures !b[0].CanSendfile()
    ensures forall nbytes :: !Heavy(conf, b[1..], nbytes)
    ensures Fits(conf, b[1..], nvec + if b[0].Length() == 0 then 0 else 1)
  {
    hide Filled;
    FilledCons(b);
    assert b[0] in b && (b[1..] != [] ==> b[1..][0] in b);
  }

  /** Reads the bucket at the cursor, which is not for sendfile, unless it is empty. */
  method ReadNext(c: Connection, bb: Brigade, todo: nat, nvec: nat, nbytes: nat)
    returns (rv: Status, todo': nat, nvec': nat, nbytes': nat)
    requires Gathered(c, bb, todo, nvec, nbytes)
    requires 0 < todo && !bb.buckets[|bb.buckets| - todo].CanSendfile()
    modifies bb, c.vec, c.sock`wire, c.sock`ready, c.sock`traffic, c`bytesWritten, c`destroyed
    ensures c.Sound() && Balanced(c.Snap(bb.buckets), 0)
    ensures old(c.sock.wire) <= c.sock.wire && old(c.destroyed) <= c.destroyed
    ensures rv == Success ==>
      && 0 < todo' && Gathered(c, bb, todo', nvec', nbytes') && todo' <= |bb.buckets|
      && bb.buckets[|bb.buckets| - todo'].Length() >= 0 && !bb.buckets[|bb.buckets| - todo'].CanSendfile()
      && (Pending(bb.buckets, todo' - 1) < old(Pending(bb.buckets, todo))
          || (Pending(bb.buckets, todo' - 1) == old(Pending(bb.buckets, todo)) && todo' == todo))
    ensures rv == Success && nvec == 0 ==>
      c.sock.wire == old(c.sock.wire) && nvec' == 0 && |bb.buckets| - todo' == old(|bb.buckets|) - todo
    ensures rv == EAgain && old(c.sock.ready) ==> |c.sock.wire| > old(|c.sock.wire|)
    ensures rv == Success && |c.sock.wire| == old(|c.sock.wire|) ==> c.sock.ready == old(c.sock.ready)
    ensures Moves(old(c.Snap(bb.buckets)), old(FateAt(bb.buckets, todo)), c.Snap(bb.buckets))
    ensures rv == Success ==>
      Advances(old(c.Snap(bb.buckets)), old(FateAt(bb.buckets, todo)), c.Snap(bb.buckets), FateAt(bb.buckets, todo'))
    ensures Answers(old(LedgerOf(c.sock, bb)), rv, LedgerOf(c.sock, bb))
    ensures old(bb.buckets[|bb.buckets| - todo].Length() == 0 || bb.buckets[|bb.buckets| - todo].InMemory()) ==>
      && rv == Success && bb.buckets == old(bb.buckets) && c.sock.traffic == old(c.sock.traffic)
      && todo' == todo && nvec' == nvec && nbytes' == nbytes
  {
    hide Payload, Filled, Balanced, Gathered, Front, Tail, Pending, KeepsOrder, BreaksOrder, FateAt, Answers,
         Moves, Advances, KeepsCourse;
    AnswersSelf(LedgerOf(c.sock, bb));
    ghost var before := c.Snap(bb.buckets);
    GatheredBounds(c, bb, todo, nvec, nbytes);
    ghost var f := FateAt(bb.buckets, todo);
    AdvancesFrom(before, f);
    AdvanceMoves(before, f);
    CursorAt(bb.buckets, todo);
    rv, todo', nvec', nbytes' := Success, todo, nvec, nbytes;
    if bb.buckets[|bb.buckets| - todo].Length() != 0 {
      rv, todo', nvec', nbytes' := Fetch(c, bb, todo, nvec, nbytes);
      OrderMoves(before, f, c.Snap(bb.buckets));
      if rv == Success {
        GatheredBounds(c, bb, todo', nvec', nbytes');
        CourseAdvances(before, f, c.Snap(bb.buckets), FateAt(bb.buckets, todo'));
      }
    }
  }

  /** Takes the bucket at the cursor, which is not for sendfile: reads it unless it is empty,
      gathers it, and flushes above the threshold unless the next bucket can join the write. */
  method GatherNext(c: Connection, bb: Brigade, todo: nat, nvec: nat, nbytes: nat)
    returns (rv: Status, todo': nat, nvec': nat, nbytes': nat)
    requires Gathered(c, bb, todo, nvec, nbytes)
    requires 0 < todo && !bb.buckets[|bb.buckets| - todo].CanSendfile()
    modifies bb, c.vec, c.sock`wire, c.sock`ready, c.sock`traffic, c`bytesWritten, c`destroyed, c`vec
    ensures c.Sound() && Balanced(c.Snap(bb.buckets), 0) && (c.vec == old(c.vec) || fresh(c.vec))
    ensures old(c.sock.wire) <= c.sock.wire && old(c.destroyed) <= c.destroyed
    ensures rv == Success ==> Gathered(c, bb, todo', nvec', nbytes') && todo' <= |bb.buckets|
    ensures rv == Success ==>
      || Pending(bb.buckets, todo') < old(Pending(bb.buckets, todo))
      || (Pending(bb.buckets, todo') == old(Pending(bb.buckets, todo)) && todo' < todo)
    ensures rv == EAgain && old(c.sock.ready) ==> |c.sock.wire| > old(|c.sock.wire|)
    ensures rv == Success && |c.sock.wire| == old(|c.sock.wire|) ==> c.sock.ready == old(c.sock.ready)
    ensures rv == Success && old(|Payload(bb.buckets)|) == 0 && todo == old(|bb.buckets|) ==>
      todo' == |bb.buckets|
    ensures Moves(old(c.Snap(bb.buckets)), old(FateAt(bb.buckets, todo)), c.Snap(bb.buckets))
    ensures rv == Success ==>
      Advances(old(c.Snap(bb.buckets)), old(FateAt(bb.buckets, todo)), c.Snap(bb.buckets), FateAt(bb.buckets, todo'))
    ensures Answers(old(LedgerOf(c.sock, bb)), rv, LedgerOf(c.sock, bb))
    ensures rv == Success ==> !Heavy(c.conf, Tail(bb.buckets, todo'), nbytes')
    ensures old(Fits(c.conf, Tail(bb.buckets, todo), nvec)) ==>
      rv == Success && c.sock.traffic == old(c.sock.traffic) && Fits(c.conf, Tail(bb.buckets, todo'), nvec')
  {
    hide Payload, Filled, Balanced, Gathered, Front, Tail, Pending, KeepsOrder, BreaksOrder, FateAt, Answers,
         Without, Fits, Heavy, Moves, Advances;
    ghost var ledger, before := LedgerOf(c.sock, bb), c.Snap(bb.buckets);
    GatheredBounds(c, bb, todo, nvec, nbytes);
    CursorDeleted(bb.buckets, todo);
    if Fits(c.conf, Tail(bb.buckets, todo), nvec) {
      FitsNext(c.conf, Tail(bb.buckets, todo), nvec);
    }
    ghost var f := FateAt(bb.buckets, todo);
    rv, todo', nvec', nbytes' := ReadNext(c, bb, todo, nvec, nbytes);
    if rv != Success {
      return;
    }
    if |Payload(before.queue)| == 0 && todo == |before.queue| {
      QueuedIsTheRest(before, c.Snap(bb.buckets));
      NothingQueued(bb.buckets, todo');
    }
    ghost var here, g, fetched := c.Snap(bb.buckets), FateAt(bb.buckets, todo'), LedgerOf(c.sock, bb);
    rv, nvec', nbytes' := TakeBucket(c, bb, todo', nvec', nbytes');
    AnswersOn(ledger, fetched, rv, LedgerOf(c.sock, bb));
    todo' := todo' - 1;
    MovesOn(before, f, here, g, c.Snap(bb.buckets));
    if rv == Success {
      GatheredBounds(c, bb, todo', nvec', nbytes');
      AdvancesOn(before, f, here, g, c.Snap(bb.buckets), FateAt(bb.buckets, todo'));
    }
  }

  /** One round of the pass, for the bucket at the cursor. */
  method SendNext(c: Connection, bb: Brigade, todo: nat, nvec: nat, nbytes: nat)
    returns (rv: Status, todo': nat, nvec': nat, nbytes': nat)
    requires Gathered(c, bb, todo, nvec, nbytes)
    requires 0 < todo
    modifies bb, c.vec, c.sock`wire, c.sock`ready, c.sock`traffic, c`bytesWritten, c`destroyed, c`vec
    ensures c.Sound() && Balanced(c.Snap(bb.buckets), 0) && (c.vec == old(c.vec) || fresh(c.vec))
    ensures old(c.sock.wire) <= c.sock.wire && old(c.destroyed) <= c.destroyed
    ensures rv == Success ==> Gathered(c, bb, todo', nvec', nbytes') && todo' <= |bb.buckets|
    ensures rv == Success ==>
      || Pending(bb.buckets, todo') < old(Pending(bb.buckets, todo))
      || (Pending(bb.buckets, todo') == old(Pending(bb.buckets, todo)) && todo' < todo)
    ensures rv == EAgain && old(c.sock.ready) ==> |c.sock.wire| > old(|c.sock.wire|)
    ensures rv == Success && |c.sock.wire| == old(|c.sock.wire|) ==> c.sock.ready == old(c.sock.ready)
    ensures rv == Success && old(|Payload(bb.buckets)|) == 0 && todo == old(|bb.buckets|) ==>
      todo' == |bb.buckets|
    ensures Moves(old(c.Snap(bb.buckets)), old(FateAt(bb.buckets, todo)), c.Snap(bb.buckets))
    ensures rv == Success ==>
      Advances(old(c.Snap(bb.buckets)), old(FateAt(bb.buckets, todo)), c.Snap(bb.buckets), FateAt(bb.buckets, todo'))
    ensures Answers(old(LedgerOf(c.sock, bb)), rv, LedgerOf(c.sock, bb))
    ensures rv == Success ==> !Heavy(c.conf, Tail(bb.buckets, todo'), nbytes')
    ensures old(Fits(c.conf, Tail(bb.buckets, todo), nvec)) ==>
      rv == Success && c.sock.traffic == old(c.sock.traffic) && Fits(c.conf, Tail(bb.buckets, todo'), nvec')
  {
    hide Payload, Filled, Balanced, Gathered, Front, Tail, Pending, KeepsOrder, BreaksOrder, FateAt, Answers,
         Without, Fits;
    GatheredBounds(c, bb, todo, nvec, nbytes);
    CursorAt(bb.buckets, todo);
    CursorDeleted(bb.buckets, todo);
    if Fits(c.conf, Tail(bb.buckets, todo), nvec) {
      FitsNext(c.conf, Tail(bb.buckets, todo), nvec);
    }
    if bb.buckets[|bb.buckets| - todo].CanSendfile() {
      if |Payload(bb.buckets)| == 0 {
        NothingQueued(bb.buckets, todo);
      }
      rv := SendFileStep(c, bb, todo, nvec, nbytes);
      nvec', nbytes', todo' := 0, 0, todo - 1;
      if rv == Success {
        GatheredBounds(c, bb, todo', nvec', nbytes');
      }
    } else {
      rv, todo', nvec', nbytes' := GatherNext(c, bb, todo, nvec, nbytes);
    }
  }

  /** Sends what is gathered when the pass has come to the end. */
  method FinishPass(c: Connection, bb: Brigade, nvec: nat, nbytes: nat) returns (rv: Status)
    requires Gathered(c, bb, 0, nvec, nbytes)
    modifies bb`buckets, c.vec, c.sock`wire, c.sock`ready, c.sock`traffic, c`bytesWritten, c`destroyed
    ensures c.Sound() && Balanced(c.Snap(bb.buckets), 0)
    ensures old(c.sock.wire) <= c.sock.wire && old(c.destroyed) <= c.destroyed
    ensures rv == Success ==> Hollow(bb.buckets)
    ensures old(bb.buckets) == [] ==> rv == Success && bb.buckets == []
    ensures rv == EAgain && old(c.sock.ready) ==> |c.sock.wire| > old(|c.sock.wire|)
    ensures Moves(old(c.Snap(bb.buckets)), old(FateAt(bb.buckets, 0)), c.Snap(bb.buckets))
    ensures rv == Success ==>
      Advances(old(c.Snap(bb.buckets)), old(FateAt(bb.buckets, 0)), c.Snap(bb.buckets), false)
    ensures Answers(old(LedgerOf(c.sock, bb)), rv, LedgerOf(c.sock, bb))
    ensures LedgerOf(c.sock, bb).Rounds() <= old(LedgerOf(c.sock, bb).Rounds()) + 1
  {
    hide Payload, Filled, Balanced, Gathered, Front, Tail, KeepsOrder, BreaksOrder, FateAt, Answers;
    GatheredBounds(c, bb, 0, nvec, nbytes);
    AnswersSelf(LedgerOf(c.sock, bb));
    KeepsOrderSelf(c.Snap(bb.buckets));
    rv := Success;
    if nvec > 0 {
      rv := FlushGathered(c, bb, 0, nvec, nbytes);
    }
    if rv == Success {
      AllGathered(c, bb);
    }
  }

  /** `send_brigade_nonblocking`: one pass over the brigade. After a pass that succeeds, only
      buckets without bytes are left, and none at all if there was no payload to send. A mark
      is destroyed before an earlier one only if the pass overtakes one. What is in memory goes
      out in one write, as long as the iovec has room. */
  method SendBrigade(c: Connection, bb: Brigade) returns (rv: Status)
    requires c.Sound() && c.sock.timeout == 0 && Balanced(c.Snap(bb.buckets), 0)
    modifies bb, c.vec, c.sock`wire, c.sock`ready, c.sock`traffic, c`bytesWritten, c`destroyed, c`vec
    ensures c.Sound() && Balanced(c.Snap(bb.buckets), 0) && (c.vec == old(c.vec) || fresh(c.vec))
    ensures old(c.sock.wire) <= c.sock.wire && old(c.destroyed) <= c.destroyed
    ensures rv == Success ==> Hollow(bb.buckets)
    ensures rv == Success && old(Payload(bb.buckets)) == [] ==> bb.buckets == []
    ensures rv == EAgain && old(c.sock.ready) ==> |c.sock.wire| > old(|c.sock.wire|)
    ensures Moves(old(c.Snap(bb.buckets)), Overtakes(false, false, old(bb.buckets)), c.Snap(bb.buckets))
    ensures rv == Success ==>
      Advances(old(c.Snap(bb.buckets)), Overtakes(false, false, old(bb.buckets)), c.Snap(bb.buckets), false)
    ensures Answers(old(LedgerOf(c.sock, bb)), rv, LedgerOf(c.sock, bb))
    ensures old(Fits(c.conf, bb.buckets, 0)) ==>
      LedgerOf(c.sock, bb).Rounds() <= old(LedgerOf(c.sock, bb).Rounds()) + 1
  {
    hide Payload, Filled, Balanced, Gathered, Front, Tail, Pending, KeepsOrder, BreaksOrder, FateAt, Overtakes,
         Moves, Advances, Answers, Fits, Heavy;
    ghost var ledger := LedgerOf(c.sock, bb);
    AnswersSelf(ledger);
    rv := Success;
    var nvec: nat, nbytes: nat := 0, 0;
    var todo: nat := |bb.buckets|;
    ghost var before := c.Snap(bb.buckets);
    ghost var f := Overtakes(false, false, before.queue);
    NothingGathered(c, bb);
    AdvancesFrom(before, f);
    while todo > 0
      invariant Gathered(c, bb, todo, nvec, nbytes) && (c.vec == old(c.vec) || fresh(c.vec))
      invariant todo <= |bb.buckets| && Advances(before, f, c.Snap(bb.buckets), FateAt(bb.buckets, todo))
      invariant old(c.sock.wire) <= c.sock.wire && old(c.destroyed) <= c.destroyed
      invariant |c.sock.wire| == old(|c.sock.wire|) ==> c.sock.ready == old(c.sock.ready)
      invariant |Payload(before.queue)| == 0 ==> todo == |bb.buckets|
      invariant Answers(ledger, Success, LedgerOf(c.sock, bb))
      invariant Fits(c.conf, before.queue, 0) ==>
        c.sock.traffic == old(c.sock.traffic) && Fits(c.conf, Tail(bb.buckets, todo), nvec)
      decreases Pending(bb.buckets, todo), todo
    {
      GatheredBounds(c, bb, todo, nvec, nbytes);
      QueuedIsTheRest(before, c.Snap(bb.buckets));
      ghost var here, g, made := c.Snap(bb.buckets), FateAt(bb.buckets, todo), LedgerOf(c.sock, bb);
      rv, todo, nvec, nbytes := SendNext(c, bb, todo, nvec, nbytes);
      AnswersOn(ledger, made, rv, LedgerOf(c.sock, bb));
      MovesOn(before, f, here, g, c.Snap(bb.buckets));
      if rv != Success {
        return;
      }
      AdvancesOn(before, f, here, g, c.Snap(bb.buckets), FateAt(bb.buckets, todo));
    }
    ghost var here, g, made := c.Snap(bb.buckets), FateAt(bb.buckets, 0), LedgerOf(c.sock, bb);
    rv := FinishPass(c, bb, nvec, nbytes);
    AnswersOn(ledger, made, rv, LedgerOf(c.sock, bb));
    MovesOn(before, f, here, g, c.Snap(bb.buckets));
    if rv == Success {
      AdvancesOn(before, f, here, g, c.Snap(bb.buckets), false);
    }
  }

  lemma NothingGathered(c: Connection, bb: Brigade)
    requires c.Sound() && c.sock.timeout == 0 && Balanced(c.Snap(bb.buckets), 0)
    ensures Gathered(c, bb, |bb.buckets|, 0, 0)
    ensures FateAt(bb.buckets, |bb.buckets|) == Overtakes(false, false, bb.buckets)
    ensures Tail(bb.buckets, |bb.buckets|) == bb.buckets
  {
    LateNone();
    assert Front(bb.buckets, |bb.buckets|) == [] && Tail(bb.buckets, |bb.buckets|) == bb.buckets;
  }

  lemma AllGathered(c: Connection, bb: Brigade)
    requires Gathered(c, bb, 0, 0, 0)
    ensures Hollow(bb.buckets) && !FateAt(bb.buckets, 0)
  {
    assert Front(bb.buckets, 0) == bb.buckets;
    FilledIsPayload(bb.buckets);
  }

  /** Polls until the socket takes output or the wait fails; interrupted polls are repeated. */
  method AwaitWritable(sock: Socket) returns (rv: Status)
    modifies sock`ready, sock`interrupts, sock`polls
    ensures rv != EAgain && rv != EIntr && (rv == Success ==> sock.ready)
    ensures sock.polls.last == rv && sock.polls.Answered() == old(sock.polls.Answered()) + 1
    ensures sock.polls.failed == old(sock.polls.failed) + (if rv == Success then 0 else 1)
  {
    rv := sock.Poll();
    while rv == EIntr
      invariant rv != EAgain && (rv == Success ==> sock.ready) && sock.polls.last == rv
      invariant sock.polls.Answered() == old(sock.polls.Answered()) + (if rv == EIntr then 0 else 1)
      invariant sock.polls.failed == old(sock.polls.failed) + (if rv == EIntr || rv == Success then 0 else 1)
      decreases rv == EIntr, sock.interrupts
    {
      rv := sock.Poll();
    }
  }

  lemma BalancedIsNumbered(s: Snapshot)
    requires Balanced(s, 0)
    ensures Numbered(s.marks, 0)
  {
  }

  lemma SettlesSelf(l: Ledger)
    ensures Settles(l, Success, l)
  {
  }

  lemma WaitedSelf(conf: Config, waits: seq<seq<Bucket>>, l: Ledger)
    ensures Waited(conf, waits, l, waits, l)
  {
  }

  lemma SettlesOn(l: Ledger, m: Ledger, rv: Status, n: Ledger)
    requires Settles(l, Success, m) && Settles(m, rv, n)
    ensures Settles(l, rv, n)
    ensures Smooth(l, n) ==> Smooth(l, m) && Smooth(m, n)
  {
  }

  /** A pass settles as it answers. */
  lemma SettlesByPass(l: Ledger, rv: Status, m: Ledger)
    requires Answers(l, rv, m)
    ensures Settles(l, rv, m) && m.polls == l.polls
    ensures Smooth(l, m) ==> rv == Success
  {
  }

  /** A wait settles a refusal. */
  lemma SettlesByWait(l: Ledger, m: Ledger, rv: Status, n: Ledger)
    requires Settles(l, EAgain, m) && n == m.(polls := n.polls) && rv != EAgain && rv != EIntr
    requires n.polls.last == rv && n.polls.Answered() == m.polls.Answered() + 1
    requires n.polls.failed == m.polls.failed + (if rv == Success then 0 else 1)
    ensures Settles(l, rv, n) && !Smooth(l, n)
  {
  }

  lemma WaitedOn(conf: Config, before: seq<seq<Bucket>>, l: Ledger, waits: seq<seq<Bucket>>, m: Ledger,
                 after: seq<seq<Bucket>>, n: Ledger)
    requires Waited(conf, before, l, waits, m) && Waited(conf, waits, m, after, n)
    ensures Waited(conf, before, l, after, n)
  {
  }

  lemma WaitedStill(conf: Config, before: seq<seq<Bucket>>, l: Ledger, m: Ledger)
    ensures forall waits, n: Ledger ::
      Waited(conf, before, l, waits, n) && n.polls.Answered() == m.polls.Answered() ==>
        Waited(conf, before, l, waits, m)
  {
  }

  lemma WaitedNext(conf: Config, waits: seq<seq<Bucket>>, l: Ledger, held: seq<Bucket>, m: Ledger)
    requires MustFlush(held, conf) && m.polls.Answered() == l.polls.Answered() + 1
    ensures Waited(conf, waits, l, waits + [held], m)
  {
  }

  /** One round of the output loop: a pass, and a wait if it was refused and a rule obliges the
      filter to flush what is left. */
  method SendRound(c: Connection, bb: Brigade, isNew: bool) returns (rv: Status)
    requires c.Sound() && c.sock.timeout == 0 && Balanced(c.Snap(bb.buckets), 0)
    modifies bb, c.vec, c`bytesWritten, c`destroyed, c`vec, c`waits
    modifies c.sock`wire, c.sock`ready, c.sock`traffic, c.sock`interrupts, c.sock`polls
    ensures c.Sound() && Balanced(c.Snap(bb.buckets), 0) && (c.vec == old(c.vec) || fresh(c.vec))
    ensures old(c.sock.wire) <= c.sock.wire && old(c.destroyed) <= c.destroyed
    ensures Settles(old(LedgerOf(c.sock, bb)), rv, LedgerOf(c.sock, bb))
    ensures !isNew ==> c.sock.polls == old(c.sock.polls)
    ensures Waited(c.conf, old(c.waits), old(LedgerOf(c.sock, bb)), c.waits, LedgerOf(c.sock, bb))
    ensures rv == EAgain && isNew ==> !MustFlush(bb.buckets, c.conf)
    ensures Moves(old(c.Snap(bb.buckets)), Overtakes(false, false, old(bb.buckets)), c.Snap(bb.buckets))
    ensures Smooth(old(LedgerOf(c.sock, bb)), LedgerOf(c.sock, bb)) ==>
      && rv == Success && Hollow(bb.buckets)
      && Advances(old(c.Snap(bb.buckets)), Overtakes(false, false, old(bb.buckets)), c.Snap(bb.buckets), false)
    ensures rv == Success && bb.buckets != [] ==>
      || |Payload(bb.buckets)| < old(|Payload(bb.buckets)|)
      || (|Payload(bb.buckets)| == old(|Payload(bb.buckets)|) && c.sock.ready && !old(c.sock.ready))
  {
    hide Payload, Balanced, MustFlush, Moves, Advances, Hollow, Answers, Settles, Smooth, Waited, Overtakes;
    ghost var before, ledger := c.Snap(bb.buckets), LedgerOf(c.sock, bb);
    rv := SendBrigade(c, bb);
    ghost var sent := LedgerOf(c.sock, bb);
    SettlesByPass(ledger, rv, sent);
    WaitedSelf(c.conf, c.waits, ledger);
    WaitedStill(c.conf, c.waits, ledger, sent);
    QueuedIsTheRest(before, c.Snap(bb.buckets));
    if isNew && rv == EAgain {
      var _, flush := ShouldSendBrigade(bb.buckets, c.conf);
      if flush {
        WaitedNext(c.conf, c.waits, ledger, bb.buckets, sent.(polls := sent.polls.Next(Success, false)));
        c.waits := c.waits + [bb.buckets];
        rv := AwaitWritable(c.sock);
        SettlesByWait(ledger, sent, rv, LedgerOf(c.sock, bb));
        WaitedStill(c.conf, old(c.waits), ledger, LedgerOf(c.sock, bb));
      }
    } else if rv == Success {
      HollowHasNoPayload(bb.buckets);
    }
  }

  /** The output loop of `ap_core_output_filter`. A refusal ends it only when nothing obliges
      the filter to flush; otherwise it waits for the socket and tries again. Each successful
      wait lets a byte through, and two successful passes empty the brigade, so it ends. */
  method SendAll(c: Connection, bb: Brigade, isNew: bool) returns (rv: Status)
    requires c.Sound() && Balanced(c.Snap(bb.buckets), 0)
    modifies bb, c.vec, c`bytesWritten, c`destroyed, c`vec, c`waits
    modifies c.sock`wire, c.sock`ready, c.sock`traffic, c.sock`interrupts, c.sock`polls, c.sock`timeout
    ensures c.Sound() && Balanced(c.Snap(bb.buckets), 0) && (c.vec == old(c.vec) || fresh(c.vec))
    ensures Settles(old(LedgerOf(c.sock, bb)), rv, LedgerOf(c.sock, bb))
    ensures !isNew ==> c.sock.polls == old(c.sock.polls)
    ensures Waited(c.conf, old(c.waits), old(LedgerOf(c.sock, bb)), c.waits, LedgerOf(c.sock, bb))
    ensures Smooth(old(LedgerOf(c.sock, bb)), LedgerOf(c.sock, bb)) ==>
      rv == Success && ExactOrder(old(c.Snap(bb.buckets)), c.Snap(bb.buckets))
    ensures Progress(old(c.Snap(bb.buckets)), c.Snap(bb.buckets))
    ensures c.sock.timeout == old(c.sock.timeout)
    ensures rv == Success ==> bb.buckets == []
    ensures rv == EAgain && isNew ==> !MustFlush(bb.buckets, c.conf)
  {
    hide Payload, Balanced, MustFlush, Progress, ExactOrder, Moves, Advances, Hollow, Settles, Smooth, Waited,
         Overtakes;
    ghost var ledger, start := LedgerOf(c.sock, bb), c.Snap(bb.buckets);
    SettlesSelf(ledger);
    WaitedSelf(c.conf, c.waits, ledger);
    ProgressSelf(start);
    BalancedIsNumbered(start);
    var timeout := c.sock.timeout;
    c.sock.timeout := 0;
    var again := true;
    rv := Success;
    while again
      invariant c.Sound() && Balanced(c.Snap(bb.buckets), 0) && (c.vec == old(c.vec) || fresh(c.vec))
      invariant Progress(start, c.Snap(bb.buckets))
      invariant c.sock.timeout == 0
      invariant (!again && rv == Success ==> bb.buckets == []) && (again ==> rv == Success)
      invariant !again && rv == EAgain && isNew ==> !MustFlush(bb.buckets, c.conf)
      invariant Settles(ledger, rv, LedgerOf(c.sock, bb))
      invariant !isNew ==> c.sock.polls == old(c.sock.polls)
      invariant Waited(c.conf, old(c.waits), ledger, c.waits, LedgerOf(c.sock, bb))
      invariant Smooth(ledger, LedgerOf(c.sock, bb)) ==>
        && rv == Success
        && ((again && c.Snap(bb.buckets) == start) || (ExactOrder(start, c.Snap(bb.buckets)) && Hollow(bb.buckets)))
      decreases again, |Payload(bb.buckets)|, !c.sock.ready, |bb.buckets|
    {
      ghost var before, made, waits := c.Snap(bb.buckets), LedgerOf(c.sock, bb), c.waits;
      rv := SendRound(c, bb, isNew);
      ghost var after, sent := c.Snap(bb.buckets), LedgerOf(c.sock, bb);
      SettlesOn(ledger, made, rv, sent);
      WaitedOn(c.conf, old(c.waits), ledger, waits, made, c.waits, sent);
      ProgressByPass(start, before, after);
      if Smooth(ledger, sent) {
        if before == start {
          PassIsExact(start, after);
        } else {
          NextPassIsExact(start, before, after);
        }
      }
      again := rv == Success && bb.buckets != [];
    }
    c.sock.timeout := timeout;
  }

  /** `apr_brigade_cleanup` on an aborted connection: everything is destroyed, in order. */
  method Cleanup(c: Connection, bb: Brigade)
    requires c.aborted
    modifies bb`buckets, c`destroyed
    ensures bb.buckets == []
    ensures c.destroyed == old(c.destroyed) + Casualties(Marks(old(bb.buckets)), |c.sock.wire|)
  {
    ghost var n := |c.sock.wire|;
    while bb.buckets != []
      invariant c.destroyed + Casualties(Marks(bb.buckets), n)
             == old(c.destroyed) + Casualties(Marks(old(bb.buckets)), n)
      decreases |bb.buckets|
    {
      assert Without(bb.buckets, 0) == bb.buckets[1..];
      ghost var rest := Marks(bb.buckets[1..]);
      assert forall m :: Casualties([m] + rest, n) == [Destruction(m, n, true)] + Casualties(rest, n);
      DeleteBucket(c, bb, 0);
    }
  }

  /** Marks the connection as aborted, and destroys what is in hand. */
  method BreakOff(c: Connection, bb: Brigade)
    requires bb == c.buffered || c.buffered.buckets == []
    modifies bb`buckets, c`destroyed, c`aborted
    ensures bb.buckets == [] && c.buffered.buckets == [] && c.aborted
    ensures Dropped(old(c.Snap(bb.buckets)), c.Snap(c.buffered.buckets))
  {
    hide Marks, Casualties;
    c.aborted := true;
    Cleanup(c, bb);
  }

  /** `setaside_remaining_output`: leading empty buckets are done with; the rest is kept in the
      connection's own brigade, and the connection is flagged if there is any. */
  method SetAside(c: Connection, bb: Brigade) returns (ghost k: nat)
    requires Balanced(c.Snap(bb.buckets), 0)
    requires bb == c.buffered || c.buffered.buckets == []
    modifies bb`buckets, c.buffered`buckets, c`destroyed, c`dataInOutputFilters
    ensures Balanced(c.Snap(c.buffered.buckets), 0) && Accounted(c.Snap(c.buffered.buckets))
    ensures old(c.destroyed) <= c.destroyed
    ensures k <= |old(bb.buckets)| && c.buffered.buckets == old(bb.buckets)[k..]
    ensures bb != c.buffered ==> bb.buckets == []
    ensures KeepsOrder(old(c.Snap(bb.buckets)), c.Snap(c.buffered.buckets))
  {
    hide Balanced, Payload, KeepsOrder, BreaksOrder;
    ghost var start := c.Snap(bb.buckets);
    KeepsOrderSelf(start);
    k := 0;
    while bb.buckets != [] && (bb.buckets[0].Meta? || bb.buckets[0].Length() == 0)
      invariant bb == c.buffered || c.buffered.buckets == []
      invariant 0 <= k <= |old(bb.buckets)| && bb.buckets == old(bb.buckets)[k..]
      invariant Balanced(c.Snap(bb.buckets), 0) && old(c.destroyed) <= c.destroyed
      invariant KeepsOrder(start, c.Snap(bb.buckets))
      decreases |bb.buckets|
    {
      assert bb.buckets[..0] == [];
      ghost var here := c.Snap(bb.buckets);
      DeleteHollow(c, bb, 0, 0);
      KeepsOrderOn(start, here, c.Snap(bb.buckets));
      k := k + 1;
    }
    Reflagged(c.Snap(bb.buckets), bb.buckets != []);
    OrderOfFlag(start, c.Snap(bb.buckets), bb.buckets != []);
    c.dataInOutputFilters := false;
    if bb.buckets != [] {
      c.dataInOutputFilters := true;
      if bb != c.buffered {
        assert c.buffered.buckets + bb.buckets == bb.buckets;
        c.buffered.buckets := c.buffered.buckets + bb.buckets;
        bb.buckets := [];
      }
    }
  }

  /** The flag does not enter the accounting between bytes and buckets. */
  lemma Reflagged(s: Snapshot, flag: bool)
    requires Balanced(s, 0)
    requires flag <==> s.queue != []
    requires s.queue != [] ==> s.queue[0].Data? && s.queue[0].Length() != 0
    ensures Balanced(s.(flagged := flag), 0) && Accounted(s.(flagged := flag))
  {
  }

  /** Notes what a caller hands over: its bytes, and the offset and number of its metadata. */
  method Submit(c: Connection, bb: Brigade)
    requires bb != c.buffered
    modifies bb`buckets, c`submitted, c`marks
    ensures bb.buckets == Stamped(old(bb.buckets), |old(c.submitted)|, |old(c.marks)|)
    ensures c.Snap(c.buffered.buckets + bb.buckets)
         == Offered(old(c.Snap(c.buffered.buckets)), Some(old(bb.buckets)))
  {
    var stamped := Stamped(bb.buckets, |c.submitted|, |c.marks|);
    c.submitted := c.submitted + Payload(bb.buckets);
    c.marks := c.marks + Marks(stamped);
    bb.buckets := stamped;
  }

  ghost function Handed(bb: Brigade?): Option<seq<Bucket>>
    reads bb
  {
    if bb == null then None else Some(bb.buckets)
  }

  lemma {:induction false} FilesWeigh(b: seq<Bucket>, k: nat)
    requires k < |b| && b[k].CanSendfile()
    ensures FileBytes(b) > 0
  {
    if k > 0 {
      FilesWeigh(b[1..], k - 1);
    }
  }

  /** A brigade without file bytes is not tangled, so keeping it for later is exact. */
  lemma KeptUntangled(s: Snapshot)
    requires FileBytes(s.queue) == 0
    ensures ExactOrder(s, s)
  {
    hide Tangled, FileBytes;
    TangledHasFile(s.queue);
    if k :| 0 <= k < |s.queue| && s.queue[k].CanSendfile() {
      FilesWeigh(s.queue, k);
    }
    KeepsOrderSelf(s);
    UntangledIsExact(s, s);
  }

  lemma NothingToFlush(conf: Config)
    ensures !MustFlush([], conf)
  {
  }

  lemma SmoothSucceeds(l: Ledger, rv: Status, m: Ledger)
    requires Settles(l, rv, m)
    ensures Smooth(l, m) ==> rv == Success
  {
  }

  /** Sends the brigade in hand if a rule calls for it, or if it is only being retried. */
  method SendOutput(c: Connection, bb: Brigade, isNew: bool) returns (rv: Status)
    requires c.Sound() && Balanced(c.Snap(bb.buckets), 0)
    modifies bb, c.vec, c`bytesWritten, c`destroyed, c`vec, c`waits
    modifies c.sock`wire, c.sock`ready, c.sock`traffic, c.sock`interrupts, c.sock`polls, c.sock`timeout
    ensures c.Sound() && Balanced(c.Snap(bb.buckets), 0) && (c.vec == old(c.vec) || fresh(c.vec))
    ensures Settles(old(LedgerOf(c.sock, bb)), rv, LedgerOf(c.sock, bb))
    ensures !isNew ==> c.sock.polls == old(c.sock.polls)
    ensures Waited(c.conf, old(c.waits), old(LedgerOf(c.sock, bb)), c.waits, LedgerOf(c.sock, bb))
    ensures Smooth(old(LedgerOf(c.sock, bb)), LedgerOf(c.sock, bb)) ==>
      ExactOrder(old(c.Snap(bb.buckets)), c.Snap(bb.buckets))
    ensures Progress(old(c.Snap(bb.buckets)), c.Snap(bb.buckets))
    ensures c.sock.timeout == old(c.sock.timeout)
    ensures isNew && (rv == Success || rv == EAgain) ==> !MustFlush(bb.buckets, c.conf)
    ensures if isNew && !WorthSending(old(bb.buckets), c.conf) then
        rv == Success && c.sock.wire == old(c.sock.wire) && LedgerOf(c.sock, bb) == old(LedgerOf(c.sock, bb))
      else
        Smooth(old(LedgerOf(c.sock, bb)), LedgerOf(c.sock, bb)) ==> bb.buckets == []
  {
    hide Payload, Balanced, MustFlush, FileBytes, NonFileBytes, Progress, ExactOrder, Settles, Smooth, Waited;
    SettlesSelf(LedgerOf(c.sock, bb));
    WaitedSelf(c.conf, c.waits, LedgerOf(c.sock, bb));
    var send, flush := true, false;
    rv := Success;
    if isNew {
      send, flush := ShouldSendBrigade(bb.buckets, c.conf);
    }
    if send {
      ghost var ledger := LedgerOf(c.sock, bb);
      rv := SendAll(c, bb, isNew);
      SmoothSucceeds(ledger, rv, LedgerOf(c.sock, bb));
      NothingToFlush(c.conf);
    } else {
      ProgressSelf(c.Snap(bb.buckets));
      KeptUntangled(c.Snap(bb.buckets));
    }
  }

  /** The part of `ap_core_output_filter` that runs with a non-empty brigade in hand. */
  method SendOrKeep(c: Connection, bb: Brigade, isNew: bool) returns (rv: Status)
    requires c.Sound() && Balanced(c.Snap(bb.buckets), 0)
    requires bb == c.buffered || c.buffered.buckets == []
    modifies bb, c.buffered`buckets, c.vec, c
    modifies c.sock`wire, c.sock`ready, c.sock`traffic, c.sock`interrupts, c.sock`polls, c.sock`timeout
    ensures c.Sound() && c.sock.timeout == old(c.sock.timeout) && (c.vec == old(c.vec) || fresh(c.vec))
    ensures bb != c.buffered ==> bb.buckets == []
    ensures c.submitted == old(c.submitted) && c.marks == old(c.marks)
    ensures !c.aborted ==>
      && rv == Success
      && var t := c.Snap(c.buffered.buckets);
         && Progress(old(c.Snap(bb.buckets)), t) && Accounted(t)
         && (isNew ==> !MustFlush(t.queue, c.conf))
         && (isNew && !WorthSending(old(bb.buckets), c.conf) ==> t.wire == old(c.sock.wire))
    ensures Dutiful(c.conf, isNew, old(bb.buckets), old(LedgerOf(c.sock, bb)),
                    c.aborted, c.buffered.buckets, rv, LedgerOf(c.sock, bb))
    ensures Waited(c.conf, old(c.waits), old(LedgerOf(c.sock, bb)), c.waits, LedgerOf(c.sock, bb))
    ensures Smooth(old(LedgerOf(c.sock, bb)), LedgerOf(c.sock, bb)) ==>
      ExactOrder(old(c.Snap(bb.buckets)), c.Snap(c.buffered.buckets))
    ensures c.aborted ==>
      rv != Success && rv != EAgain && Lost(old(c.Snap(bb.buckets)), c.Snap(c.buffered.buckets))
  {
    hide Payload, Balanced, Accounted, Marks, Casualties, MustFlush, WorthSending, Progress,
         ExactOrder, KeepsOrder, Lost, Dropped, Settles, Smooth, Waited;
    ghost var ledger := LedgerOf(c.sock, bb);
    ghost var start := c.Snap(bb.buckets);
    rv := SendOutput(c, bb, isNew);
    ghost var sent := c.Snap(bb.buckets);
    BalancedIsLive(sent);
    if rv != Success && rv != EAgain {
      BreakOff(c, bb);
      LostFrom(start, sent, c.Snap(c.buffered.buckets));
      NotSmooth(ledger, rv, LedgerOf(c.sock, bb));
      return;
    }
    ghost var k := SetAside(c, bb);
    ProgressOn(start, sent, c.Snap(c.buffered.buckets));
    if Smooth(ledger, LedgerOf(c.sock, bb)) {
      StaysExact(start, sent, c.Snap(c.buffered.buckets));
    }
    if isNew {
      SuffixNeedsNoMore(sent.queue, k, c.conf);
    }
    rv := Success;
  }

  lemma NotSmooth(l: Ledger, rv: Status, m: Ledger)
    requires Settles(l, rv, m) && Fatal(rv)
    ensures !Smooth(l, m)
  {
  }

  lemma BalancedIsLive(s: Snapshot)
    requires Balanced(s, 0)
    ensures !s.aborted
  {
  }

  lemma NothingIsExact(s: Snapshot)
    requires s.queue == []
    ensures ExactOrder(s, s.(flagged := false))
  {
    KeepsOrderSelf(s);
    OrderOfFlag(s, s, false);
  }

  /** The brigade that a call works on. */
  ghost function InHand(c: Connection, newBB: Brigade?): Brigade {
    if newBB == null then c.buffered else newBB
  }

  /** `ap_core_output_filter`. A null brigade asks the filter to retry what it has buffered. */
  method CoreOutputFilter(c: Connection, newBB: Brigade?) returns (rv: Status)
    requires c.Valid() && newBB != c.buffered
    modifies newBB, c, c.buffered, c.vec
    modifies c.sock`wire, c.sock`ready, c.sock`traffic, c.sock`interrupts, c.sock`polls, c.sock`timeout
    ensures c.Valid() && (c.vec == old(c.vec) || fresh(c.vec))
    ensures Call(c.conf, old(c.Snap(c.buffered.buckets)), old(Handed(newBB)), c.Snap(c.buffered.buckets), rv)
    ensures var l, m := old(LedgerOf(c.sock, InHand(c, newBB))), LedgerOf(c.sock, InHand(c, newBB));
      && Waited(c.conf, old(c.waits), l, c.waits, m)
      && if old(c.aborted) then m == l else
           var o := Offered(old(c.Snap(c.buffered.buckets)), old(Handed(newBB)));
           && Dutiful(c.conf, newBB != null, o.queue, l, c.aborted, c.buffered.buckets, rv, m)
           && (Smooth(l, m) ==> ExactOrder(o, c.Snap(c.buffered.buckets)))
    ensures newBB != null ==> newBB.buckets == []
    ensures c.sock.timeout == old(c.sock.timeout)
  {
    hide Payload, Balanced, Marks, Call, Stamped, Casualties, Progress, Dropped, ExactOrder, FileBytes,
         Settles, Smooth, Waited, WorthSending;
    SettlesSelf(LedgerOf(c.sock, InHand(c, newBB)));
    WaitedSelf(c.conf, c.waits, LedgerOf(c.sock, InHand(c, newBB)));
    ghost var s := c.Snap(c.buffered.buckets);
    ghost var input := Handed(newBB);
    if newBB != null {
      Submit(c, newBB);
    }
    ghost var o := Offered(s, input);
    if c.aborted {
      if newBB != null {
        ghost var stamped := newBB.buckets;
        Cleanup(c, newBB);
        assert o.queue[|s.queue|..] == stamped;
      } else {
        NoCasualties(s);
      }
      RefusedCall(c.conf, s, input, c.Snap(c.buffered.buckets));
      return ConnAborted;
    }
    OfferedBalanced(s, input);
    var bb := newBB;
    if c.buffered.buckets != [] {
      if newBB != null {
        newBB.buckets := c.buffered.buckets + newBB.buckets;
        c.buffered.buckets := [];
      } else {
        bb := c.buffered;
      }
    } else if newBB == null {
      ProgressSelf(s);
      NothingIsExact(s);
      c.dataInOutputFilters := false;
      ServedCall(c.conf, s, input, c.Snap(c.buffered.buckets));
      return Success;
    } else {
      assert c.buffered.buckets + newBB.buckets == newBB.buckets;
    }
    rv := SendOrKeep(c, bb, newBB != null);
    ghost var t := c.Snap(c.buffered.buckets);
    if c.aborted {
      ghost var u :| Progress(o, u) && u.flagged == o.flagged && Dropped(u, t);
      BrokenCall(c.conf, s, input, u, t, rv);
    } else {
      ServedCall(c.conf, s, input, t);
    }
  }
}
