/** The core input filter: greedy and speculative reads from a pending brigade that ends in the
    network bucket. The content of that bucket is what the client is going to send. */
module InputFilter {
  import opened Apr
  import opened Buckets
  import opened OutputHistory
  import opened Connections

  datatype Mode = ReadBytes | Speculative

  /** The network bucket, and what reads of it leave behind: bytes in memory. */
  ghost predicate Plain(b: seq<Bucket>) {
    forall e :: e in b ==> e.Data? && (e.kind.Memory? || e.kind.Morphing?)
  }

  /** The bytes in front of the first bucket of unknown length. */
  function Known(b: seq<Bucket>): nat {
    if b == [] || b[0].Length() == -1 then 0 else |b[0].Bytes()| + Known(b[1..])
  }

  /** Only the last bucket may be of unknown length: the network bucket. */
  ghost predicate NetworkLast(b: seq<Bucket>) {
    forall i :: 0 <= i < |b| - 1 ==> b[i].Length() != -1
  }

  /** The brigade without the buckets that `BRIGADE_NORMALIZE` deletes. */
  function Dense(b: seq<Bucket>): seq<Bucket> {
    if b == [] then []
    else (if b[0].Data? && b[0].Length() == 0 then [] else [b[0]]) + Dense(b[1..])
  }

  /** Normalizing keeps the bytes, how many of them are at hand, and in which buckets they are; it
      keeps the metadata, and leaves no empty data bucket. */
  lemma {:induction false} DenseKeeps(b: seq<Bucket>)
    ensures Filled(Dense(b)) == Filled(b) && Marks(Dense(b)) == Marks(b)
    ensures forall e <- Dense(b) :: !IsEmpty(e)
    ensures Payload(Dense(b)) == Payload(b)
    ensures Known(Dense(b)) == Known(b)
  {
    if b != [] {
      var rest := Dense(b[1..]);
      DenseKeeps(b[1..]);
      if b[0].Data? && b[0].Length() == 0 {
        assert Dense(b) == rest;
      } else {
        assert Dense(b) == [b[0]] + rest && ([b[0]] + rest)[1..] == rest;
      }
    }
  }

  /** Of a brigade of data, normalizing leaves the buckets that are not empty. */
  lemma {:induction false} DenseMembers(b: seq<Bucket>)
    requires Plain(b)
    ensures Plain(Dense(b)) && forall e <- Dense(b) :: e.Length() != 0
    ensures NetworkLast(b) ==> NetworkLast(Dense(b))
    ensures |Dense(b)| <= |b|
  {
    if b != [] {
      assert b[0] in b && forall i :: 0 <= i < |b[1..]| ==> b[1..][i] == b[i + 1];
      DenseMembers(b[1..]);
    }
  }

  predicate IsEmpty(e: Bucket) {
    e.Data? && e.Length() == 0
  }

  lemma {:induction false} DenseWithout(b: seq<Bucket>, i: nat)
    requires i < |b| && IsEmpty(b[i])
    ensures Dense(Without(b, i)) == Dense(b)
  {
    if i == 0 {
      assert Without(b, 0) == b[1..];
    } else {
      assert Without(b, i)[1..] == Without(b[1..], i - 1);
      DenseWithout(b[1..], i - 1);
    }
  }

  lemma {:induction false} DenseFull(b: seq<Bucket>)
    requires forall i :: 0 <= i < |b| ==> !IsEmpty(b[i])
    ensures Dense(b) == b
  {
    if b != [] {
      DenseFull(b[1..]);
    }
  }

  lemma {:induction false} KnownConcat(a: seq<Bucket>, b: seq<Bucket>)
    requires Settled(a)
    ensures Known(a + b) == |Payload(a)| + Known(b)
  {
    if a == [] {
      assert a + b == b;
    } else {
      assert (a + b)[1..] == a[1..] + b && a[0] in a;
      KnownConcat(a[1..], b);
    }
  }

  /** `BRIGADE_NORMALIZE`, on a brigade that is not empty. */
  method Normalize(bb: Brigade)
    requires bb.buckets != []
    modifies bb`buckets
    ensures bb.buckets == Dense(old(bb.buckets))
  {
    hide Dense;
    var i := 0;
    var again := true;
    while again
      invariant 0 <= i <= |bb.buckets|
      invariant Dense(bb.buckets) == Dense(old(bb.buckets))
      invariant forall j :: 0 <= j < i ==> !IsEmpty(bb.buckets[j])
      invariant again <==> i != |bb.buckets|
      decreases |bb.buckets| - i
    {
      if bb.buckets[i].Length() == 0 && bb.buckets[i].Data? {
        DenseWithout(bb.buckets, i);
        bb.buckets := Without(bb.buckets, i);
      } else {
        i := i + 1;
      }
      again := bb.buckets != [] && i != |bb.buckets|;
    }
    DenseFull(bb.buckets);
  }

  /** `apr_brigade_partition`: makes a bucket boundary after the first `point` bytes, which lie
      in buckets of known length, and returns its position. */
  method Partition(bb: Brigade, point: nat) returns (k: nat)
    requires point <= Known(bb.buckets) && Plain(bb.buckets)
    modifies bb`buckets
    ensures k <= |bb.buckets| && Plain(bb.buckets)
    ensures Payload(bb.buckets) == old(Payload(bb.buckets))
    ensures Known(bb.buckets) == old(Known(bb.buckets))
    ensures old(NetworkLast(bb.buckets)) ==> NetworkLast(bb.buckets)
    ensures Settled(bb.buckets[..k]) && |Payload(bb.buckets[..k])| == point
    ensures point == 0 ==> k == 0
  {
    hide Payload, Known;
    k := 0;
    var left: nat := point;
    ghost var b := bb.buckets;
    PayloadNone();
    assert b[..0] == [] && b[0..] == b;
    while left > 0
      invariant 0 <= k <= |b| && bb.buckets == b && (point == 0 ==> k == 0)
      invariant Settled(b[..k])
      invariant |Payload(b[..k])| + left == point && left <= Known(b[k..])
      decreases left, |b| - k
    {
      KnownHead(b[k..]);
      assert b[k] == b[k..][0] && b[k..][1..] == b[k + 1..];
      assert b[..k + 1] == b[..k] + [b[k]];
      PayloadConcat(b[..k], [b[k]]);
      PayloadOne(b[k]);
      if left < |bb.buckets[k].content| {
        SplitKeeps(b, k, left);
        bb.Split(k, left);
        k := k + 1;
        return;
      }
      left := left - |bb.buckets[k].content|;
      k := k + 1;
    }
  }

  lemma KnownHead(b: seq<Bucket>)
    requires Plain(b) && Known(b) > 0
    ensures b != [] && b[0].Data? && b[0].Length() == |b[0].content| >= 0
    ensures Known(b) == |b[0].content| + Known(b[1..])
  {
  }

  lemma KnownCons(e: Bucket, rest: seq<Bucket>)
    ensures Known([e] + rest) == if e.Length() == -1 then 0 else |e.Bytes()| + Known(rest)
  {
  }

  /** Splitting a bucket of known length. */
  lemma SplitKeeps(b: seq<Bucket>, k: nat, n: nat)
    requires Plain(b) && k < |b| && b[k].Data? && b[k].Length() >= 0 && n <= |b[k].content|
    requires Settled(b[..k])
    ensures var e := b[k];
      var x, y := Data(e.kind, e.content[..n]), Data(e.kind, e.content[n..]);
      var cut := Spliced(b, k, [x, y]);
      && Plain(cut)
      && Payload(cut) == Payload(b) && Known(cut) == Known(b)
      && (NetworkLast(b) ==> NetworkLast(cut))
      && cut[..k + 1] == b[..k] + [x]
      && Settled(cut[..k + 1])
      && |Payload(cut[..k + 1])| == |Payload(b[..k])| + n
  {
    hide Payload, Known;
    var e := b[k];
    var x, y := Data(e.kind, e.content[..n]), Data(e.kind, e.content[n..]);
    var cut := Spliced(b, k, [x, y]);
    PayloadTwo(x, y);
    assert e.content == x.content + y.content;
    SplicedPayload(b, k, 0, [x, y]);
    assert cut[..k + 1] == b[..k] + [x];
    PayloadConcat(b[..k], [x]);
    PayloadOne(x);
    assert b == b[..k] + ([e] + b[k + 1..]);
    assert cut == b[..k] + ([x] + ([y] + b[k + 1..]));
    KnownConcat(b[..k], [e] + b[k + 1..]);
    KnownConcat(b[..k], [x] + ([y] + b[k + 1..]));
    KnownCons(e, b[k + 1..]);
    KnownCons(x, [y] + b[k + 1..]);
    KnownCons(y, b[k + 1..]);
  }

  /** What a successful read of the first bucket does to the rest of a brigade. */
  lemma ReadKeepsKnown(e: Bucket, rest: seq<Bucket>, pieces: seq<Bucket>)
    requires ReadInto(e, pieces) && Plain([e] + rest)
    ensures Plain(pieces + rest) && (pieces + rest)[0].Length() >= 0
    ensures Payload(pieces + rest) == Payload([e] + rest)
    ensures Known(pieces + rest) >= Known([e] + rest)
    ensures var after := |Payload((pieces + rest)[1..])|;
      after < |Payload([e] + rest)| || (after == |Payload([e] + rest)| && |pieces| == 1)
  {
    hide Payload, Known;
    assert ([e] + rest)[0] == e;
    PayloadConcat(pieces, rest);
    PayloadConcat([e], rest);
    PayloadOne(e);
    KnownCons(e, rest);
    if |pieces| == 2 {
      assert pieces == [pieces[0], pieces[1]];
      PayloadTwo(pieces[0], pieces[1]);
      assert pieces + rest == [pieces[0]] + ([pieces[1]] + rest);
      KnownCons(pieces[0], [pieces[1]] + rest);
      KnownCons(pieces[1], rest);
      assert (pieces + rest)[1..] == [pieces[1]] + rest;
      PayloadConcat([pieces[1]], rest);
      PayloadOne(pieces[1]);
    } else {
      assert pieces == [pieces[0]];
      PayloadOne(pieces[0]);
      KnownCons(pieces[0], rest);
      assert (pieces + rest)[1..] == rest;
    }
  }

  lemma EmptyRead(e: Bucket, pieces: seq<Bucket>)
    requires ReadInto(e, pieces)
    ensures pieces[0].content == [] ==> |pieces| == 1 && e.content == []
  {
    if |pieces| == 1 {
      assert pieces == [pieces[0]];
      PayloadOne(pieces[0]);
    }
  }

  lemma PiecesAt(b: seq<Bucket>, i: nat, pieces: seq<Bucket>)
    requires i < |b| && pieces != []
    ensures b[i..] == [b[i]] + b[i + 1..]
    ensures var read := Spliced(b, i, pieces);
      && i < |read| && read[i..] == pieces + b[i + 1..]
      && read[i + 1..] == (pieces + b[i + 1..])[1..]
      && read[..i] == b[..i]
  {
  }

  /** `apr_bucket_read` of bucket `i` of a brigade of data. */
  method ReadBucket(bb: Brigade, i: nat, wait: bool) returns (rv: Status, len: nat)
    requires i < |bb.buckets| && Plain(bb.buckets)
    modifies bb`buckets, bb`fetches, bb`blocking
    ensures bb.fetches == old(bb.fetches).Next(rv, rv == EAgain)
    ensures bb.blocking == old(bb.blocking) + (if wait then 1 else 0)
    ensures wait ==> rv != EAgain
    ensures old(bb.buckets[i]).Length() != -1 ==> rv == Success
    ensures rv != Success ==> bb.buckets == old(bb.buckets)
    ensures i < |bb.buckets| && Plain(bb.buckets) && bb.buckets[..i] == old(bb.buckets)[..i]
    ensures Payload(bb.buckets) == old(Payload(bb.buckets))
    ensures Known(bb.buckets[i..]) >= old(Known(bb.buckets[i..]))
    ensures old(NetworkLast(bb.buckets)) ==> NetworkLast(bb.buckets)
    ensures rv == Success ==>
      && bb.buckets[i].Length() == |bb.buckets[i].content| == len
      && (len == 0 ==> old(bb.buckets[i]).Bytes() == [] && |bb.buckets| == old(|bb.buckets|))
      && (|Payload(bb.buckets[i + 1..])| < old(|Payload(bb.buckets[i..])|)
          || (|Payload(bb.buckets[i + 1..])| == old(|Payload(bb.buckets[i..])|)
              && |bb.buckets| == old(|bb.buckets|)))
  {
    hide Payload, Known;
    ghost var b := bb.buckets;
    assert b[i] in b;
    rv := bb.Read(i, wait);
    len := 0;
    if rv == Success {
      ghost var pieces :| ReadInto(b[i], pieces) && bb.buckets == Spliced(b, i, pieces);
      ghost var rest := b[i + 1..];
      ReadKeepsKnown(b[i], rest, pieces);
      EmptyRead(b[i], pieces);
      SplicedPayload(b, i, 0, pieces);
      PiecesAt(b, i, pieces);
      len := |bb.buckets[i].content|;
    }
  }

  /** Some reads were made, perhaps none. */
  predicate ReadOn(l: Tally, m: Tally) {
    && l.calls <= m.calls && l.refused <= m.refused && l.failed <= m.failed
    && (m.calls == l.calls ==> m == l)
    && (m.calls > l.calls && m.last != Success ==> m.refused > l.refused || m.failed > l.failed)
  }

  /** The last of these reads did not succeed. */
  predicate Stopped(l: Tally, m: Tally) {
    m.calls > l.calls && m.last != Success
  }

  /** The greedy loop: counts what is at hand, without waiting for more. */
  method BeGreedy(bb: Brigade, first: nat, readbytes: nat) returns (len: nat)
    requires bb.buckets != [] && Plain(bb.buckets)
    requires bb.buckets[0].Length() == |bb.buckets[0].content| == first
    modifies bb`buckets, bb`fetches, bb`blocking
    ensures Plain(bb.buckets) && Payload(bb.buckets) == old(Payload(bb.buckets))
    ensures old(NetworkLast(bb.buckets)) ==> NetworkLast(bb.buckets)
    ensures first <= len <= Known(bb.buckets)
    ensures len >= readbytes || len >= old(Known(bb.buckets))
    ensures bb.blocking == old(bb.blocking) && ReadOn(old(bb.fetches), bb.fetches)
    ensures len >= readbytes || len == |Payload(bb.buckets)| || Stopped(old(bb.fetches), bb.fetches)
    ensures first >= readbytes ==> bb.fetches == old(bb.fetches) && bb.buckets == old(bb.buckets)
  {
    hide Payload, Known;
    len := first;
    ghost var known := Known(bb.buckets);
    var i := 1;
    PrefixOfOne(bb.buckets);
    var rv := Success;
    while len < readbytes && rv == Success && i < |bb.buckets|
      invariant 1 <= i <= |bb.buckets| && Plain(bb.buckets)
      invariant Payload(bb.buckets) == old(Payload(bb.buckets))
      invariant old(NetworkLast(bb.buckets)) ==> NetworkLast(bb.buckets)
      invariant Settled(bb.buckets[..i]) && len == |Payload(bb.buckets[..i])| >= first
      invariant known <= len + Known(bb.buckets[i..])
      invariant rv != Success ==> Known(bb.buckets[i..]) == 0
      invariant bb.blocking == old(bb.blocking) && ReadOn(old(bb.fetches), bb.fetches)
      invariant rv != Success ==> Stopped(old(bb.fetches), bb.fetches)
      invariant first >= readbytes ==> bb.fetches == old(bb.fetches) && bb.buckets == old(bb.buckets)
      decreases rv == Success, |Payload(bb.buckets[i..])|, |bb.buckets| - i
    {
      ghost var before := bb.buckets;
      SuffixHead(bb.buckets, i);
      if bb.buckets[i].Length() != -1 {
        PrefixGrows(bb.buckets, i);
        len := len + bb.buckets[i].Length();
        i := i + 1;
      } else {
        var bucketLen;
        rv, bucketLen := ReadBucket(bb, i, false);
        if rv == Success {
          PrefixGrows(bb.buckets, i);
          SuffixHead(bb.buckets, i);
          len := len + bucketLen;
          i := i + 1;
        }
      }
    }
    SuffixOfAll(bb.buckets, i);
    assert i == |bb.buckets| ==> bb.buckets[..i] == bb.buckets;
  }

  lemma PrefixOfOne(b: seq<Bucket>)
    requires b != [] && b[0].Data? && b[0].Length() >= 0
    ensures Settled(b[..1]) && |Payload(b[..1])| == |b[0].content|
    ensures Known(b) == |b[0].content| + Known(b[1..])
  {
  }

  lemma PrefixGrows(b: seq<Bucket>, i: nat)
    requires i < |b| && Settled(b[..i]) && b[i].Length() >= 0
    ensures Settled(b[..i + 1]) && |Payload(b[..i + 1])| == |Payload(b[..i])| + |b[i].Bytes()|
  {
    assert b[..i + 1] == b[..i] + [b[i]];
    PayloadConcat(b[..i], [b[i]]);
    PayloadOne(b[i]);
  }

  lemma SuffixHead(b: seq<Bucket>, i: nat)
    requires i < |b| && Plain(b)
    ensures b[i].Data?
    ensures Known(b[i..]) == if b[i].Length() == -1 then 0 else |b[i].Bytes()| + Known(b[i + 1..])
    ensures |Payload(b[i..])| == |b[i].Bytes()| + |Payload(b[i + 1..])|
  {
  }

  lemma SuffixOfAll(b: seq<Bucket>, i: nat)
    requires i <= |b| && Settled(b[..i])
    ensures Known(b) == |Payload(b[..i])| + Known(b[i..])
    ensures i == |b| ==> Known(b[i..]) == 0
  {
    assert b == b[..i] + b[i..];
    KnownConcat(b[..i], b[i..]);
  }

  /** `core_ctx_t`: the pending brigade and the one that bytes are put aside in, with what reads
      have delivered so far, how many calls got as far as splitting the pending brigade, how many
      of them failed to copy a bucket, the reads of pending buckets, and how many of those were
      allowed to wait. No branch looks at the last five. */
  datatype InputState = InputState(
    delivered: seq<Byte>,
    pending: seq<Bucket>,
    aside: seq<Bucket>,
    splits: nat,
    failedCopies: nat,
    fetches: Tally,
    blocking: nat)
  {
    /** All the bytes that there still are, in order. */
    function Total(): seq<Byte> {
      delivered + Payload(pending) + Payload(aside)
    }

    /** When bytes are put aside, others are at hand in front of them. */
    ghost predicate Backed() {
      Payload(aside) != [] ==> Known(pending) > 0
    }
  }

  /** What is handed over comes off the front of what is pending, and is no more than asked for.
      A read takes it; a speculative read takes nothing, unless a copy fails, which leaves what
      was pending in two parts. */
  ghost predicate Handed(s: InputState, mode: Mode, readbytes: nat, got: seq<Byte>, t: InputState) {
    && |got| <= readbytes && got <= Payload(s.pending)
    && t.delivered == s.delivered + (if mode.ReadBytes? then got else [])
    && (mode.ReadBytes? ==> Payload(s.pending) == got + Payload(t.pending))
    && (mode.Speculative? ==>
          Payload(s.pending) == Payload(t.pending) + (if t.failedCopies > s.failedCopies then Payload(t.aside) else []))
  }

  /** A call takes all that is at hand, up to the limit, and succeeds if there is anything. A
      blocking call that succeeds with nothing marks the end of the stream, and only that. */
  ghost predicate Greedy(s: InputState, mode: Mode, blocking: bool, readbytes: nat, got: seq<Byte>,
                         t: InputState, rv: Status) {
    && (rv == Success ==> |got| == readbytes || |got| >= Known(s.pending))
    && (rv == Success && mode.Speculative? ==> Known(t.pending) >= |got|)
    && (Known(s.pending) > 0 && t.failedCopies == s.failedCopies ==> rv == Success && got != [])
    && (blocking && rv == Success && got == [] ==> Payload(s.pending) == [])
  }

  /** A call that splits the pending brigade drops what was put aside before, and no other byte
      is ever dropped. Bytes are left aside only by a copy that fails: those behind what the call
      would have shown. */
  ghost predicate Kept(s: InputState, mode: Mode, readbytes: nat, t: InputState, rv: Status) {
    && s.splits <= t.splits <= s.splits + 1
    && s.failedCopies <= t.failedCopies <= s.failedCopies + (t.splits - s.splits)
    && (Known(s.pending) > 0 ==> t.splits > s.splits)
    && t.Total() == (if t.splits > s.splits then s.delivered + Payload(s.pending) else s.Total())
    && (if t.failedCopies > s.failedCopies then
          && mode.Speculative? && rv != Success
          && 0 < Known(t.pending) == |Payload(t.pending)| <= readbytes
          && (|Payload(t.pending)| == readbytes || |Payload(t.pending)| >= Known(s.pending))
        else t.aside == if t.splits > s.splits then [] else s.aside)
  }

  /** A call reads, and waits only if it may. Without reading, it finds that there is nothing left to
      read. If nothing is handed over, its one read met the end, or its status is that of the
      read, a refusal counting as success. If it hands over less than was asked for, that is all
      there is, or a read has stopped it. It fails then only if a copy does. */
  ghost predicate Attempted(s: InputState, blocking: bool, readbytes: nat, got: seq<Byte>, t: InputState, rv: Status) {
    var l, m := s.fetches, t.fetches;
    && ReadOn(l, m) && t.blocking == s.blocking + (if blocking && m != l then 1 else 0)
    && (m == l ==> rv == EndOfFile && t.splits == s.splits && Payload(s.pending) == [])
    && (t.splits == s.splits ==> got == [])
    && (t.splits == s.splits && m != l ==>
          && m == l.Next(m.last, m.last == EAgain)
          && (m.last == Success ==> blocking && Payload(s.pending) == [])
          && rv == (if m.last == EAgain then Success else m.last))
    && (t.splits > s.splits && t.failedCopies == s.failedCopies ==> rv == Success)
    && (t.splits > s.splits && rv == Success ==>
          |got| == readbytes || |got| == |Payload(s.pending)| || Stopped(l, m))
  }

  /** `ap_core_input_filter` from state `s` to state `t`, handing over `got`. */
  ghost predicate InputCall(s: InputState, mode: Mode, blocking: bool, readbytes: nat, got: seq<Byte>,
                            t: InputState, rv: Status) {
    && Handed(s, mode, readbytes, got, t)
    && Greedy(s, mode, blocking, readbytes, got, t, rv)
    && Kept(s, mode, readbytes, t, rv)
    && Attempted(s, blocking, readbytes, got, t, rv)
  }

  /** When no read is refused and nothing fails, a call hands over all that it was asked for, or all
      that there is. */
  lemma DeliversAll(s: InputState, mode: Mode, blocking: bool, readbytes: nat, got: seq<Byte>,
                    t: InputState, rv: Status)
    requires InputCall(s, mode, blocking, readbytes, got, t, rv)
    requires t.fetches.refused == s.fetches.refused && t.fetches.failed == s.fetches.failed
    requires t.failedCopies == s.failedCopies
    ensures var all := Payload(s.pending);
      got == if readbytes < |all| then all[..readbytes] else all
    ensures Payload(s.pending) != [] ==> rv == Success
  {
    hide Payload, Known;
    var all := Payload(s.pending);
    assert got == all[..|got|];
    assert all[..|all|] == all;
  }

  /** Nothing is put aside, and nothing of the stream is lost. */
  ghost predicate Whole(s: InputState, stream: seq<Byte>) {
    s.aside == [] && s.Total() == stream
  }

  /** As long as no copy fails, the stream stays whole. */
  lemma WholeUnlessCopyFails(s: InputState, mode: Mode, blocking: bool, readbytes: nat, got: seq<Byte>,
                             t: InputState, rv: Status, stream: seq<Byte>)
    requires InputCall(s, mode, blocking, readbytes, got, t, rv) && Whole(s, stream)
    ensures t.Total() == stream
    ensures t.failedCopies == s.failedCopies ==> Whole(t, stream)
  {
    hide Known;
    assert s.delivered + Payload(s.pending) + [] == s.delivered + Payload(s.pending);
  }

  /** Reads deliver what they hand over, and failures are never forgotten. */
  lemma DeliveredNext(s: InputState, mode: Mode, blocking: bool, readbytes: nat, got: seq<Byte>,
                      t: InputState, rv: Status)
    requires InputCall(s, mode, blocking, readbytes, got, t, rv)
    ensures t.delivered == s.delivered + if mode.ReadBytes? then got else []
    ensures s.failedCopies <= t.failedCopies
  {
  }

  /** With bytes put aside, others stay at hand in front of them. */
  lemma StaysBacked(s: InputState, mode: Mode, blocking: bool, readbytes: nat, got: seq<Byte>,
                    t: InputState, rv: Status)
    requires InputCall(s, mode, blocking, readbytes, got, t, rv) && s.Backed()
    ensures t.Backed()
  {
    hide Known;
    PayloadNone();
  }

  /** A call keeps every byte if and only if none is put aside when it is made. Otherwise it loses
      exactly what is. */
  lemma LossExactly(s: InputState, mode: Mode, blocking: bool, readbytes: nat, got: seq<Byte>,
                    t: InputState, rv: Status)
    requires InputCall(s, mode, blocking, readbytes, got, t, rv) && s.Backed()
    ensures t.Total() == s.Total() <==> Payload(s.aside) == []
    ensures t.Total() + Payload(s.aside) == s.Total()
  {
    hide Payload, Known;
    assert s.delivered + Payload(s.pending) + [] == s.delivered + Payload(s.pending);
    assert s.Total() + [] == s.Total();
  }

  /** After a copy has failed, the next call loses what it put aside, whatever its mode. */
  lemma FailedCopyThenLoss(s: InputState, b1: bool, n1: nat, got1: seq<Byte>, t: InputState, rv1: Status,
                           mode: Mode, b2: bool, n2: nat, got2: seq<Byte>, u: InputState, rv2: Status)
    requires InputCall(s, Speculative, b1, n1, got1, t, rv1) && t.failedCopies > s.failedCopies
    requires InputCall(t, mode, b2, n2, got2, u, rv2)
    ensures u.Total() + Payload(t.aside) == t.Total()
    ensures Payload(t.aside) != [] ==> u.Total() != t.Total()
  {
    hide Payload, Known;
    LossExactly(t, mode, b2, n2, got2, u, rv2);
  }

  /** A speculative read that succeeds, then a read of at least its size: the second starts with
      what the first one showed, and cannot fail if that was anything. */
  lemma ReadAfterPeek(s: InputState, b1: bool, n1: nat, shown: seq<Byte>, t: InputState,
                      b2: bool, n2: nat, got: seq<Byte>, u: InputState, rv: Status)
    requires InputCall(s, Speculative, b1, n1, shown, t, Success)
    requires InputCall(t, ReadBytes, b2, n2, got, u, rv) && n1 <= n2
    ensures shown <= got
    ensures shown != [] ==> rv == Success
  {
    hide Payload, Known;
    assert t.failedCopies == s.failedCopies;
    assert Payload(t.pending) == Payload(s.pending);
  }

  /** The two brigades and the history of an input filter. `stream` is all that the client is
      going to send. */
  class InputContext {
    const stream: seq<Byte>
    const b: Brigade
    const tmpbb: Brigade
    var delivered: seq<Byte>
    var splits: nat
    var failedCopies: nat

    constructor (stream: seq<Byte>)
      ensures this.stream == stream && fresh(b) && fresh(tmpbb)
      ensures Valid() && b != tmpbb && Whole(State(), stream) && delivered == [] && splits == failedCopies == 0
    {
      this.stream := stream;
      delivered, splits, failedCopies := [], 0, 0;
      b := new Brigade([Data(Morphing, stream)]);
      tmpbb := new Brigade([]);
      new;
      PayloadOne(Data(Morphing, stream));
    }

    ghost function State(): InputState
      reads this, b, tmpbb
    {
      InputState(delivered, b.buckets, tmpbb.buckets, splits, failedCopies, b.fetches, b.blocking)
    }

    /** What is delivered, pending and put aside is, in this order, a prefix of the stream. */
    ghost predicate Valid()
      reads this, b, tmpbb
    {
      && b != tmpbb
      && Plain(b.buckets) && Plain(tmpbb.buckets) && NetworkLast(b.buckets)
      && State().Total() <= stream && State().Backed()
    }

    lemma DeliveredSoFar()
      requires Valid()
      ensures delivered <= stream
      ensures Whole(State(), stream) ==> delivered + Payload(b.buckets) == stream
    {
    }
  }

  const EOS := Meta(Mark(Eos, 0, 0))

  datatype Fill = Finished(rv: Status) | AtEnd | Ready(n: nat)

  /** The first half of a read: fills the pending brigade with up to `readbytes` bytes. With any
      byte at hand, it cannot fail. */
  method FillBrigade(bb: Brigade, blocking: bool, readbytes: nat) returns (fill: Fill)
    requires readbytes > 0 && Plain(bb.buckets) && NetworkLast(bb.buckets)
    modifies bb`buckets, bb`fetches, bb`blocking
    ensures Plain(bb.buckets) && NetworkLast(bb.buckets)
    ensures Payload(bb.buckets) == old(Payload(bb.buckets))
    ensures old(Known(bb.buckets)) > 0 ==> fill.Ready? && fill.n > 0
    ensures fill.Finished? && blocking ==> fill.rv != Success
    ensures fill.AtEnd? ==> blocking && bb.buckets == [] && old(Payload(bb.buckets)) == []
    ensures fill.Ready? ==>
      && fill.n <= readbytes && fill.n <= Known(bb.buckets)
      && (fill.n == readbytes || fill.n >= old(Known(bb.buckets)))
      && (blocking ==> fill.n > 0)
    ensures var l, m := old(bb.fetches), bb.fetches;
      && ReadOn(l, m) && bb.blocking == old(bb.blocking) + (if blocking && m != l then 1 else 0)
      && match fill
         case Finished(rv) =>
           if m == l then rv == EndOfFile && bb.buckets == []
           else
             && m.last != Success && m == l.Next(m.last, m.last == EAgain)
             && rv == (if m.last == EAgain then Success else m.last)
         case AtEnd => m == l.Next(Success, false)
         case Ready(n) => m != l && (n == readbytes || n == |Payload(bb.buckets)| || Stopped(l, m))
  {
    hide Payload, Known, Dense;
    KnownNone();
    if bb.buckets == [] {
      return Finished(EndOfFile);
    }
    DenseKeeps(bb.buckets);
    DenseMembers(bb.buckets);
    Normalize(bb);
    if bb.buckets == [] {
      return Finished(EndOfFile);
    }
    ghost var head := bb.buckets;
    assert head[0..] == head && head[0] in head;
    FirstKnown(head);
    var rv, len := ReadBucket(bb, 0, blocking);
    assert bb.buckets[0..] == bb.buckets;
    if rv == EAgain && !blocking {
      return Finished(Success);
    } else if rv != Success {
      return Finished(rv);
    } else if blocking && len == 0 {
      assert head[0].Length() == -1 && |head| == 1;
      assert bb.buckets == [bb.buckets[0]];
      PayloadOne(bb.buckets[0]);
      PayloadNone();
      bb.buckets := bb.buckets[1..];
      return AtEnd;
    }
    assert bb.buckets[0] in bb.buckets;
    len := BeGreedy(bb, len, readbytes);
    fill := Ready(if len < readbytes then len else readbytes);
  }

  lemma KnownNone()
    ensures Known([]) == 0
  {
  }

  lemma FirstKnown(b: seq<Bucket>)
    requires b != []
    ensures Known(b) > 0 ==> b[0].Length() != -1
  {
  }

  /** Appends copies of the buckets of `from`, up to one whose copy fails. */
  method CopyInto(from: Brigade, out: Brigade) returns (rv: Status)
    requires out != from
    modifies out`buckets, out`copies
    ensures exists k: nat :: k <= |from.buckets| && out.buckets == old(out.buckets) + from.buckets[..k]
    ensures rv == Success ==> out.buckets == old(out.buckets) + from.buckets
    ensures from.buckets == [] ==> rv == Success
    ensures out.copies.failed == old(out.copies.failed) + (if rv == Success then 0 else 1)
    ensures rv != Success ==> out.copies.last == rv
  {
    var i := 0;
    rv := Success;
    while i < |from.buckets|
      invariant 0 <= i <= |from.buckets|
      invariant out.buckets == old(out.buckets) + from.buckets[..i]
      invariant rv == Success && out.copies.failed == old(out.copies.failed)
    {
      rv := out.AppendCopy(from.buckets[i]);
      if rv != Success {
        return;
      }
      i := i + 1;
    }
    assert from.buckets[..i] == from.buckets;
  }

  /** What a read appended to the caller's brigade. */
  function Appended(before: seq<Bucket>, after: seq<Bucket>): seq<Byte>
    requires |before| <= |after|
  {
    Payload(after[|before|..])
  }

  /** What the second half of a read does with `n` bytes at hand. */
  ghost predicate HandedOver(s: InputState, mode: Mode, n: nat, got: seq<Byte>, t: InputState, rv: Status) {
    && Handed(s, mode, n, got, t)
    && t.splits == s.splits + 1 && t.failedCopies == s.failedCopies + (if rv == Success then 0 else 1)
    && t.fetches == s.fetches && t.blocking == s.blocking
    && t.Total() == s.delivered + Payload(s.pending)
    && (if rv == Success then
          |got| == n && t.aside == [] && (mode.Speculative? ==> Known(t.pending) >= n)
        else
          mode.Speculative? && 0 < Known(t.pending) == |Payload(t.pending)| == n)
  }

  /** A call whose first half found what to hand over. */
  lemma CallReady(s: InputState, mode: Mode, blocking: bool, readbytes: nat, n: nat, got: seq<Byte>,
                  m: InputState, t: InputState, rv: Status)
    requires m == s.(pending := m.pending, fetches := m.fetches, blocking := m.blocking)
    requires Payload(m.pending) == Payload(s.pending)
    requires ReadOn(s.fetches, m.fetches) && m.fetches != s.fetches
    requires m.blocking == s.blocking + if blocking then 1 else 0
    requires n == readbytes || n == |Payload(s.pending)| || Stopped(s.fetches, m.fetches)
    requires n <= readbytes && (n == readbytes || n >= Known(s.pending))
    requires (blocking || Known(s.pending) > 0) ==> n > 0
    requires HandedOver(m, mode, n, got, t, rv)
    ensures InputCall(s, mode, blocking, readbytes, got, t, rv)
    ensures rv == Success ==> |got| == n
  {
    hide Payload, Known;
  }

  /** A call whose first half found nothing. */
  lemma CallEnds(s: InputState, mode: Mode, blocking: bool, readbytes: nat, t: InputState, rv: Status)
    requires t == s.(pending := t.pending, fetches := t.fetches, blocking := t.blocking)
    requires Payload(t.pending) == Payload(s.pending) && Attempted(s, blocking, readbytes, [], t, rv)
    requires Known(s.pending) == 0 && (blocking && rv == Success ==> Payload(s.pending) == [])
    ensures InputCall(s, mode, blocking, readbytes, [], t, rv)
  {
    hide Payload, Known;
    assert s.delivered + [] == s.delivered;
    assert [] + Payload(t.pending) == Payload(t.pending) && Payload(t.pending) + [] == Payload(t.pending);
  }

  /** Copies that failed are counted, and their status is returned. */
  predicate CopiesReported(failed: nat, before: Tally, rv: Status, failed': nat, after: Tally) {
    && failed' - failed == after.failed - before.failed >= 0
    && (failed' > failed ==> rv == after.last != Success)
  }

  /** The second half of a read: hands `n` bytes over, or copies of them. */
  method HandOver(ctx: InputContext, out: Brigade, mode: Mode, n: nat) returns (rv: Status)
    requires ctx.Valid() && out != ctx.b && out != ctx.tmpbb && n <= Known(ctx.b.buckets)
    modifies ctx`delivered, ctx`splits, ctx`failedCopies, ctx.b`buckets, ctx.tmpbb`buckets, out`buckets, out`copies
    ensures ctx.Valid() && old(out.buckets) <= out.buckets
    ensures CopiesReported(old(ctx.failedCopies), old(out.copies), rv, ctx.failedCopies, out.copies)
    ensures HandedOver(old(ctx.State()), mode, n, Appended(old(out.buckets), out.buckets), ctx.State(), rv)
  {
    hide Payload, Known;
    ghost var pending := Payload(ctx.b.buckets);
    ghost var stream, taken := ctx.stream, ctx.delivered;
    ctx.splits := ctx.splits + 1;
    StreamPrefix(taken, pending, Payload(ctx.tmpbb.buckets), stream);
    var k := Partition(ctx.b, n);
    ghost var all := ctx.b.buckets;
    ghost var head, tail := all[..k], all[k..];
    Parted(all, k);
    // apr_brigade_split_ex empties its third argument first: what was put aside is gone.
    ctx.tmpbb.buckets := ctx.b.buckets[k..];
    ctx.b.buckets := ctx.b.buckets[..k];
    ghost var before := out.buckets;
    PayloadNone();
    Associative(taken, Payload(head), Payload(tail));
    if mode.ReadBytes? {
      out.buckets := out.buckets + ctx.b.buckets;
      ctx.delivered := ctx.delivered + Payload(ctx.b.buckets);
      ctx.b.buckets := [];
      rv := Success;
      assert out.buckets[|before|..] == head;
      assert [] + tail == tail;
    } else {
      rv := CopyInto(ctx.b, out);
      ghost var j: nat :| j <= k && out.buckets == before + head[..j];
      assert out.buckets[|before|..] == head[..j];
      PayloadPrefix(head, j);
      if rv != Success {
        ctx.failedCopies := ctx.failedCopies + 1;
        return;
      }
      assert out.buckets[|before|..] == head;
      assert head + tail == all;
    }
    ctx.b.buckets := ctx.b.buckets + ctx.tmpbb.buckets;
    ctx.tmpbb.buckets := [];
  }

  lemma Parted(b: seq<Bucket>, k: nat)
    requires k <= |b| && Plain(b) && NetworkLast(b) && Settled(b[..k])
    ensures b[..k] + b[k..] == b
    ensures Payload(b) == Payload(b[..k]) + Payload(b[k..])
    ensures Plain(b[..k]) && Plain(b[k..]) && NetworkLast(b[k..]) && NetworkLast(b[..k])
    ensures Known(b) >= |Payload(b[..k])| == Known(b[..k])
  {
    assert b[..k] + b[k..] == b && b[..k] + [] == b[..k];
    PayloadConcat(b[..k], b[k..]);
    KnownConcat(b[..k], b[k..]);
    KnownConcat(b[..k], []);
    assert forall i :: 0 <= i < k ==> b[..k][i] in b[..k];
  }

  lemma PayloadPrefix(b: seq<Bucket>, j: nat)
    requires j <= |b|
    ensures Payload(b[..j]) <= Payload(b)
  {
    hide Payload;
    assert b == b[..j] + b[j..];
    PayloadConcat(b[..j], b[j..]);
  }

  lemma StreamPrefix(a: seq<Byte>, b: seq<Byte>, c: seq<Byte>, stream: seq<Byte>)
    requires a + b + c <= stream
    ensures a + b <= stream
  {
  }

  /** `ap_core_input_filter` in its two byte modes. */
  method CoreInputFilter(ctx: InputContext, out: Brigade, mode: Mode, blocking: bool, readbytes: nat)
    returns (rv: Status)
    requires ctx.Valid() && out != ctx.b && out != ctx.tmpbb && readbytes > 0
    modifies ctx`delivered, ctx`splits, ctx`failedCopies, ctx.b, ctx.tmpbb, out
    ensures ctx.Valid() && old(out.buckets) <= out.buckets
    ensures InputCall(old(ctx.State()), mode, blocking, readbytes,
                      Appended(old(out.buckets), out.buckets), ctx.State(), rv)
    ensures CopiesReported(old(ctx.failedCopies), old(out.copies), rv, ctx.failedCopies, out.copies)
    ensures blocking && rv == Success && Appended(old(out.buckets), out.buckets) == [] ==>
      out.buckets == old(out.buckets) + (if mode.ReadBytes? then [EOS] else [])
  {
    hide Payload, Known, InputCall, HandedOver;
    ghost var s := ctx.State();
    ghost var before := out.buckets;
    PayloadNone();
    KnownNone();
    assert out.buckets[|before|..] == [];
    var fill := FillBrigade(ctx.b, blocking, readbytes);
    match fill {
      case Finished(status) =>
        rv := status;
        CallEnds(s, mode, blocking, readbytes, ctx.State(), rv);
      case AtEnd =>
        if mode.ReadBytes? {
          out.buckets := out.buckets + [EOS];
          assert out.buckets[|before|..] == [EOS];
          PayloadOne(EOS);
        }
        rv := Success;
        CallEnds(s, mode, blocking, readbytes, ctx.State(), rv);
      case Ready(n) =>
        ghost var m := ctx.State();
        rv := HandOver(ctx, out, mode, n);
        CallReady(s, mode, blocking, readbytes, n, Appended(before, out.buckets), m, ctx.State(), rv);
    }
  }

  datatype Request = Request(mode: Mode, blocking: bool, readbytes: nat)

  /** The calls that `requests` make lead from state to state. */
  ghost predicate Calls(states: seq<InputState>, requests: seq<Request>, results: seq<seq<Bucket>>,
                        statuses: seq<Status>) {
    && |states| == |requests| + 1 && |results| == |statuses| == |requests|
    && forall k :: 0 <= k < |requests| ==>
         InputCall(states[k], requests[k].mode, requests[k].blocking, requests[k].readbytes,
                   Payload(results[k]), states[k + 1], statuses[k])
  }

  /** At every one of the calls, nothing was put aside. */
  ghost predicate NeverAside(states: seq<InputState>) {
    forall k :: 0 <= k < |states| - 1 ==> Payload(states[k].aside) == []
  }

  /** Over any calls, the stream is kept if and only if none of them found bytes put aside. */
  lemma {:induction false} SessionKeepsIff(states: seq<InputState>, requests: seq<Request>,
                                           results: seq<seq<Bucket>>, statuses: seq<Status>)
    requires Calls(states, requests, results, statuses) && states[0].Backed()
    ensures states[|requests|].Backed() && states[|requests|].Total() <= states[0].Total()
    ensures states[|requests|].Total() == states[0].Total() <==> NeverAside(states)
  {
    hide InputCall, InputState.Backed, Payload;
    var n := |requests| - 1;
    if n >= 0 {
      SessionKeepsIff(states[..n + 1], requests[..n], results[..n], statuses[..n]);
      var q := requests[n];
      StaysBacked(states[n], q.mode, q.blocking, q.readbytes, Payload(results[n]), states[n + 1], statuses[n]);
      LossExactly(states[n], q.mode, q.blocking, q.readbytes, Payload(results[n]), states[n + 1], statuses[n]);
      LossIsFinal(states[0].Total(), states[n].Total(), states[n + 1].Total(), Payload(states[n].aside));
      assert NeverAside(states) <==> NeverAside(states[..n + 1]) && Payload(states[n].aside) == [];
    }
  }

  lemma LossIsFinal(first: seq<Byte>, before: seq<Byte>, after: seq<Byte>, lost: seq<Byte>)
    requires before <= first && after + lost == before
    ensures after <= first
    ensures after == first <==> before == first && lost == []
  {
    assert |after| + |lost| == |before|;
  }

  lemma CallsExtend(states: seq<InputState>, requests: seq<Request>, results: seq<seq<Bucket>>,
                    statuses: seq<Status>, q: Request, result: seq<Bucket>, rv: Status, t: InputState)
    requires Calls(states, requests, results, statuses)
    requires InputCall(states[|requests|], q.mode, q.blocking, q.readbytes, Payload(result), t, rv)
    ensures Calls(states + [t], requests + [q], results + [result], statuses + [rv])
  {
    hide InputCall, Payload;
  }

  /** Any sequence of reads, each into a brigade of its own. The bytes that plain reads return
      are, in order, a prefix of what the client sends. What they returned, what is pending and
      what is put aside make up the stream if and only if no call found bytes put aside, and so
      as long as no copy fails. */
  method Session(stream: seq<Byte>, requests: seq<Request>)
    returns (ctx: InputContext, results: seq<seq<Bucket>>, statuses: seq<Status>, ghost states: seq<InputState>)
    requires forall q <- requests :: q.readbytes > 0
    ensures ctx.Valid() && ctx.stream == stream
    ensures Calls(states, requests, results, statuses)
    ensures Whole(states[0], stream) && states[|requests|] == ctx.State()
    ensures ctx.delivered == Returned(requests, results) && ctx.delivered <= stream
    ensures ctx.State().Total() == stream <==> NeverAside(states)
    ensures ctx.failedCopies == 0 ==> Returned(requests, results) + Payload(ctx.b.buckets) == stream
  {
    hide Payload, Known, Returned, InputCall, Whole, Calls, NeverAside, InputContext.Valid;
    ctx := new InputContext(stream);
    ReturnedNothing();
    results, statuses, states := [], [], [ctx.State()];
    NoCalls(states);
    for k := 0 to |requests|
      invariant fresh(ctx) && fresh(ctx.b) && fresh(ctx.tmpbb) && ctx.Valid() && ctx.stream == stream
      invariant ctx.b != ctx.tmpbb && |results| == |statuses| == k && |states| == k + 1
      invariant Calls(states, requests[..k], results, statuses) && Whole(states[0], stream)
      invariant states[k] == ctx.State()
      invariant ctx.failedCopies == 0 ==> Whole(ctx.State(), stream)
      invariant ctx.delivered == Returned(requests[..k], results)
    {
      var out := new Brigade([]);
      var q := requests[k];
      ghost var s := ctx.State();
      var rv := CoreInputFilter(ctx, out, q.mode, q.blocking, q.readbytes);
      assert out.buckets[0..] == out.buckets;
      DeliveredNext(s, q.mode, q.blocking, q.readbytes, Payload(out.buckets), ctx.State(), rv);
      if ctx.failedCopies == 0 {
        WholeUnlessCopyFails(s, q.mode, q.blocking, q.readbytes, Payload(out.buckets), ctx.State(), rv, stream);
      }
      ReturnedNext(requests[..k], results, q, out.buckets);
      CallsExtend(states, requests[..k], results, statuses, q, out.buckets, rv, ctx.State());
      assert requests[..k + 1] == requests[..k] + [q];
      results, statuses, states := results + [out.buckets], statuses + [rv], states + [ctx.State()];
    }
    assert requests[..|requests|] == requests;
    ctx.DeliveredSoFar();
    BeganWhole(states, stream);
    SessionKeepsIff(states, requests, results, statuses);
  }

  lemma NoCalls(states: seq<InputState>)
    requires |states| == 1
    ensures Calls(states, [], [], [])
  {
  }

  lemma BeganWhole(states: seq<InputState>, stream: seq<Byte>)
    requires states != [] && Whole(states[0], stream)
    ensures states[0].Backed() && states[0].Total() == stream
  {
  }

  /** The bytes that the plain reads among `requests` returned. */
  function Returned(requests: seq<Request>, results: seq<seq<Bucket>>): seq<Byte>
    requires |requests| == |results|
  {
    if requests == [] then []
    else
      var n := |requests| - 1;
      Returned(requests[..n], results[..n])
        + if requests[n].mode.ReadBytes? then Payload(results[n]) else []
  }

  lemma ReturnedNothing()
    ensures Returned([], []) == []
  {
  }

  lemma ReturnedNext(requests: seq<Request>, results: seq<seq<Bucket>>, q: Request, result: seq<Bucket>)
    requires |requests| == |results|
    ensures Returned(requests + [q], results + [result])
         == Returned(requests, results) + if q.mode.ReadBytes? then Payload(result) else []
  {
    assert (requests + [q])[..|requests|] == requests;
    assert (results + [result])[..|results|] == results;
  }

  /** A speculative read, then a read of at least its size, each blocking or not. */
  method PeekThenRead(ctx: InputContext, peeked: Brigade, read: Brigade,
                      blocking1: bool, n1: nat, blocking2: bool, n2: nat)
    returns (rv1: Status, rv2: Status)
    requires ctx.Valid() && 0 < n1 <= n2
    requires peeked != read && {peeked, read} !! {ctx.b, ctx.tmpbb}
    requires peeked.buckets == [] && read.buckets == []
    modifies ctx`delivered, ctx`splits, ctx`failedCopies, ctx.b, ctx.tmpbb, peeked, read
    ensures rv1 == Success ==> Payload(peeked.buckets) <= Payload(read.buckets)
    ensures rv1 == Success && Payload(peeked.buckets) != [] ==> rv2 == Success
  {
    hide Payload, Known, InputCall;
    ghost var s := ctx.State();
    rv1 := CoreInputFilter(ctx, peeked, Speculative, blocking1, n1);
    ghost var t := ctx.State();
    rv2 := CoreInputFilter(ctx, read, ReadBytes, blocking2, n2);
    assert peeked.buckets[0..] == peeked.buckets && read.buckets[0..] == read.buckets;
    if rv1 == Success {
      ReadAfterPeek(s, blocking1, n1, Payload(peeked.buckets), t,
                    blocking2, n2, Payload(read.buckets), ctx.State(), rv2);
    }
  }

  lemma OneAndOne(x: seq<Byte>, y: seq<Byte>)
    requires x + y == [1, 2] && |x| == 1
    ensures x == [1] && y == [2]
  {
    assert x == (x + y)[..1] && y == (x + y)[1..];
  }

  /** After a failed copy of the first byte of two, any call leaves one. */
  lemma SecondByteLost(s: InputState, b1: bool, got1: seq<Byte>, t: InputState, rv1: Status,
                       mode: Mode, b2: bool, n2: nat, got2: seq<Byte>, u: InputState, rv2: Status)
    requires Whole(s, [1, 2]) && s.delivered == []
    requires InputCall(s, Speculative, b1, 1, got1, t, rv1) && t.failedCopies > s.failedCopies
    requires InputCall(t, mode, b2, n2, got2, u, rv2)
    ensures Payload(t.pending) == [1] && Payload(t.aside) == [2]
    ensures u.Total() == [1]
  {
    hide Known, Payload;
    assert s.delivered + Payload(s.pending) + Payload([]) == Payload(s.pending) by {
      PayloadNone();
    }
    assert |Payload(t.pending)| == 1;
    OneAndOne(Payload(t.pending), Payload(t.aside));
  }

  /** Stream conservation fails here: a client sends two bytes, and a peek at the first cannot
      copy it. Whatever call comes next loses the second byte, and the network bucket with it. */
  method WitnessOfLoss(blocking1: bool, mode: Mode, blocking2: bool, readbytes: nat)
    returns (ctx: InputContext, ghost between: InputState, rv1: Status, rv2: Status)
    requires readbytes > 0
    ensures ctx.stream == [1, 2]
    ensures between.failedCopies > 0 ==>
      && Payload(between.pending) == [1] && Payload(between.aside) == [2]
      && ctx.State().Total() == [1]
  {
    hide Known, Payload, InputCall, Whole, InputContext.Valid;
    ctx := new InputContext([1, 2]);
    ghost var s := ctx.State();
    var peeked := new Brigade([]);
    var out := new Brigade([]);
    rv1 := CoreInputFilter(ctx, peeked, Speculative, blocking1, 1);
    between := ctx.State();
    rv2 := CoreInputFilter(ctx, out, mode, blocking2, readbytes);
    if between.failedCopies > 0 {
      SecondByteLost(s, blocking1, Appended([], peeked.buckets), between, rv1,
                     mode, blocking2, readbytes, Appended([], out.buckets), ctx.State(), rv2);
    }
  }
}
