/** What the output side of one connection has done so far, and the accounting between the
    bytes submitted, the bytes on the wire, and the brigade in hand. */
module OutputHistory {
  import opened Buckets

  /** A metadata bucket was destroyed when `wireLen` bytes were on the wire. */
  datatype Destruction = Destruction(mark: Mark, wireLen: nat, aborted: bool)

  /** `queue` is the brigade in hand: buffered output, or the brigade being sent. */
  datatype Snapshot = Snapshot(
    aborted: bool,
    flagged: bool,
    wire: seq<Byte>,
    queue: seq<Bucket>,
    submitted: seq<Byte>,
    marks: seq<Mark>,
    destroyed: seq<Destruction>)

  function MarksOf(ds: seq<Destruction>): seq<Mark> {
    seq(|ds|, i requires 0 <= i < |ds| => ds[i].mark)
  }

  /** Every mark submitted is either queued or destroyed, once. */
  ghost predicate Counted(s: Snapshot) {
    multiset(MarksOf(s.destroyed)) + multiset(Marks(s.queue)) == multiset(s.marks)
  }

  /** Everything submitted ahead of the bucket was on the wire when it was destroyed. */
  ghost predicate Timely(d: Destruction, wireLen: nat) {
    d.mark.at <= d.wireLen <= wireLen
  }

  /** The accounting of a live connection, when the last `k` bytes on the wire are still queued. */
  ghost predicate Balanced(s: Snapshot, k: nat) {
    && !s.aborted
    && k <= |s.wire|
    && s.wire[..|s.wire| - k] + Payload(s.queue) == s.submitted
    && s.wire <= s.submitted
    && Placed(s.queue, |s.wire| - k, 0)
    && Numbered(s.marks, 0)
    && Counted(s)
    && forall d :: d in s.destroyed ==> !d.aborted && Timely(d, |s.wire|)
  }

  /** The accounting of an aborted connection. */
  ghost predicate WoundUp(s: Snapshot) {
    && s.aborted
    && s.wire <= s.submitted
    && Counted(s)
    && forall d :: d in s.destroyed ==> d.aborted || Timely(d, |s.wire|)
  }

  /** What holds between calls. Output is pending exactly when the flag says so, and then
      the first buffered bucket is data. */
  ghost predicate Accounted(s: Snapshot) {
    if s.aborted then WoundUp(s)
    else
      && Balanced(s, 0)
      && (s.flagged <==> s.queue != [])
      && (s.queue != [] ==> s.queue[0].Data? && s.queue[0].Length() != 0)
  }

  /** The snapshot after `apr_bucket_delete` of bucket `i`. */
  function Deleted(s: Snapshot, i: nat): Snapshot
    requires i < |s.queue|
  {
    s.(queue := Without(s.queue, i),
       destroyed := s.destroyed +
         if s.queue[i].Meta? then [Destruction(s.queue[i].mark, |s.wire|, s.aborted)] else [])
  }

  ghost predicate AllData(b: seq<Bucket>) {
    forall e :: e in b ==> e.Data?
  }

  lemma {:induction false} DataHasNoMarks(b: seq<Bucket>, sent: nat, ahead: nat)
    requires AllData(b)
    ensures Marks(b) == [] && Placed(b, sent, ahead)
  {
    if b != [] {
      assert b[0] in b;
      DataHasNoMarks(b[1..], sent, ahead + |b[0].Bytes()|);
    }
  }

  lemma {:induction false} PlacedLater(b: seq<Bucket>, sent: nat, n: nat)
    requires Placed(b, sent, 0) && Payload(b) == []
    ensures Placed(b, sent + n, 0)
  {
    if b != [] {
      PlacedLater(b[1..], sent, n);
    }
  }

  /** The brigade with its bucket `i` replaced. */
  function Spliced(b: seq<Bucket>, i: nat, y: seq<Bucket>): seq<Bucket>
    requires i < |b|
  {
    b[..i] + y + b[i + 1..]
  }

  /** Replacing a data bucket by data that lacks its first `n` bytes. */
  lemma SplicedPayload(b: seq<Bucket>, i: nat, n: nat, y: seq<Bucket>)
    requires i < |b| && n <= |b[i].Bytes()| && Payload(y) == b[i].Bytes()[n..]
    requires n == 0 || Payload(b[..i]) == []
    ensures n <= |Payload(b)| && Payload(Spliced(b, i, y)) == Payload(b)[n..]
  {
    hide Payload;
    PayloadAround(b, i);
    PayloadConcat(b[..i], y);
    PayloadConcat(b[..i] + y, b[i + 1..]);
  }

  lemma SplicedMarks(b: seq<Bucket>, i: nat, y: seq<Bucket>)
    requires i < |b| && b[i].Data? && AllData(y)
    ensures Marks(Spliced(b, i, y)) == Marks(b)
  {
    MarksAround(b, i);
    MarksConcat(b[..i], y);
    MarksConcat(b[..i] + y, b[i + 1..]);
    DataHasNoMarks(y, 0, 0);
  }

  lemma PlacedAround(b: seq<Bucket>, i: nat, sent: nat)
    requires i < |b| && Placed(b, sent, 0)
    ensures Placed(b[..i], sent, 0)
    ensures Placed(b[i + 1..], sent, |Payload(b[..i])| + |b[i].Bytes()|)
  {
    assert b == b[..i] + b[i..];
    assert b[i..][1..] == b[i + 1..];
    PlacedConcat(b[..i], b[i..], sent, 0);
  }

  lemma SplicedPlaced(b: seq<Bucket>, i: nat, n: nat, y: seq<Bucket>, sent: nat)
    requires i < |b| && n <= |b[i].Bytes()| && AllData(y) && |Payload(y)| == |b[i].Bytes()| - n
    requires n == 0 || Payload(b[..i]) == []
    requires Placed(b, sent, 0)
    ensures Placed(Spliced(b, i, y), sent + n, 0)
  {
    hide Payload, Placed;
    var a, rest := b[..i], b[i + 1..];
    PlacedAround(b, i, sent);
    if n > 0 {
      PlacedLater(a, sent, n);
    }
    PlacedShift(rest, sent, |Payload(a)| + |b[i].Bytes()|, n);
    DataHasNoMarks(y, sent + n, |Payload(a)|);
    PayloadConcat(a, y);
    PlacedConcat(a, y, sent + n, 0);
    PlacedConcat(a + y, rest, sent + n, 0);
  }

  /** Putting a prefix of the queued payload on the wire. */
  lemma Emitted(s: Snapshot, chunk: seq<Byte>)
    requires Balanced(s, 0) && chunk <= Payload(s.queue)
    ensures Balanced(s.(wire := s.wire + chunk), |chunk|)
  {
    hide Payload, Placed, Marks;
    var t := s.(wire := s.wire + chunk);
    assert t.wire[..|t.wire| - |chunk|] == s.wire;
    assert s.wire[..|s.wire|] == s.wire;
  }

  /** The bytes that are sent but still queued are the front of the queue. */
  lemma OverlapIsPrefix(s: Snapshot, k: nat)
    requires Balanced(s, k)
    ensures s.wire[|s.wire| - k..] <= Payload(s.queue)
  {
    hide Payload, Placed, Marks;
    var done := s.wire[..|s.wire| - k];
    assert s.submitted[|done|..] == Payload(s.queue);
    assert s.submitted[..|s.wire|][|done|..] == s.submitted[|done|..][..k];
  }

  lemma OverlapShrinks(wire: seq<Byte>, k: nat, n: nat, queued: seq<Byte>)
    requires n <= k <= |wire| && wire[|wire| - k..] <= queued
    ensures wire[..|wire| - (k - n)] + queued[n..] == wire[..|wire| - k] + queued
  {
    assert wire[..|wire| - (k - n)] == wire[..|wire| - k] + wire[|wire| - k..][..n];
  }

  /** A queue that lacks `n` bytes that are on the wire, and no mark, keeps the balance. */
  lemma Shortened(s: Snapshot, k: nat, n: nat, q: seq<Bucket>)
    requires Balanced(s, k) && n <= k && n <= |Payload(s.queue)|
    requires Payload(q) == Payload(s.queue)[n..] && Marks(q) == Marks(s.queue)
    requires Placed(q, |s.wire| - (k - n), 0)
    ensures Balanced(s.(queue := q), k - n)
  {
    hide Payload, Placed, Marks, Numbered, Timely, MarksOf;
    OverlapIsPrefix(s, k);
    OverlapShrinks(s.wire, k, n, Payload(s.queue));
  }

  /** Dropping bytes that are on the wire from the data bucket at the head of the payload. */
  lemma Retired(s: Snapshot, k: nat, i: nat, n: nat, y: seq<Bucket>)
    requires Balanced(s, k) && i < |s.queue| && s.queue[i].Data?
    requires Payload(s.queue[..i]) == []
    requires n <= k && n <= |s.queue[i].content|
    requires AllData(y) && Payload(y) == s.queue[i].content[n..]
    ensures Balanced(s.(queue := Spliced(s.queue, i, y)), k - n)
  {
    hide Payload, Placed, Marks, Spliced, AllData, Balanced, Counted;
    BalancedPlaced(s, k);
    var q := Spliced(s.queue, i, y);
    SplicedMarks(s.queue, i, y);
    SplicedPayload(s.queue, i, n, y);
    SplicedPlaced(s.queue, i, n, y, |s.wire| - k);
    Shortened(s, k, n, q);
  }

  lemma BalancedPlaced(s: Snapshot, k: nat)
    requires Balanced(s, k)
    ensures k <= |s.wire| && Placed(s.queue, |s.wire| - k, 0)
  {
  }

  /** Reading a bucket in place changes how its bytes are held, and nothing else. */
  lemma Reread(s: Snapshot, i: nat, y: seq<Bucket>)
    requires Balanced(s, 0) && i < |s.queue| && s.queue[i].Data?
    requires AllData(y) && Payload(y) == s.queue[i].content
    ensures Balanced(s.(queue := Spliced(s.queue, i, y)), 0)
    ensures Payload(Spliced(s.queue, i, y)) == Payload(s.queue)
  {
    hide Payload, Placed, Marks, Spliced;
    SplicedMarks(s.queue, i, y);
    SplicedPayload(s.queue, i, 0, y);
    SplicedPlaced(s.queue, i, 0, y, |s.wire|);
  }

  lemma WithoutHollow(b: seq<Bucket>, i: nat, sent: nat)
    requires i < |b| && b[i].Bytes() == []
    ensures Payload(Without(b, i)) == Payload(b)
    ensures Placed(b, sent, 0) ==> Placed(Without(b, i), sent, 0)
  {
    hide Payload, Placed;
    PayloadAround(b, i);
    PayloadConcat(b[..i], b[i + 1..]);
    PlacedConcat(b[..i], b[i + 1..], sent, 0);
    if Placed(b, sent, 0) {
      PlacedAround(b, i, sent);
    }
  }

  lemma MoveAcross<T>(done: seq<T>, x: seq<T>, front: seq<T>, back: seq<T>)
    ensures multiset(done + x) + multiset(front + back) == multiset(done) + multiset(front + x + back)
  {
  }

  lemma DeletedMarks(s: Snapshot, i: nat)
    requires i < |s.queue| && Counted(s)
    ensures Counted(Deleted(s, i))
  {
    hide Marks;
    var t := Deleted(s, i);
    var gone := if s.queue[i].Meta? then [s.queue[i].mark] else [];
    var front, back := Marks(s.queue[..i]), Marks(s.queue[i + 1..]);
    MarksAround(s.queue, i);
    MarksConcat(s.queue[..i], s.queue[i + 1..]);
    assert MarksOf(t.destroyed) == MarksOf(s.destroyed) + gone;
    MoveAcross(MarksOf(s.destroyed), gone, front, back);
  }

  lemma MarkDue(b: seq<Bucket>, i: nat, sent: nat)
    requires i < |b| && b[i].Meta? && Placed(b, sent, 0)
    ensures b[i].mark.at <= sent + |Payload(b[..i])|
  {
    assert b == b[..i] + b[i..];
    PlacedConcat(b[..i], b[i..], sent, 0);
  }

  /** Deleting a bucket without bytes that has no payload left in front of it. */
  lemma DeletedHollow(s: Snapshot, k: nat, i: nat)
    requires Balanced(s, k) && i < |s.queue|
    requires s.queue[i].Bytes() == [] && Payload(s.queue[..i]) == []
    ensures Balanced(Deleted(s, i), k)
  {
    hide Payload, Placed, Marks;
    WithoutHollow(s.queue, i, |s.wire| - k);
    DeletedMarks(s, i);
    if s.queue[i].Meta? {
      MarkDue(s.queue, i, |s.wire| - k);
    }
  }
}
