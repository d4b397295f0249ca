/** Whole runs of the core output filter: any sequence of calls, with any outcome the network
    allows for each, and aborts by other parts of the server in between. */
module OutputRuns {
  import opened Apr
  import opened Buckets
  import opened FlushRule
  import opened OutputHistory
  import opened MarkOrder
  import opened OutputSpec
  import opened Network
  import opened Connections
  import opened OutputFilter

  datatype Event = Called(input: Option<seq<Bucket>>, rv: Status) | AbortedElsewhere

  const INITIAL := Snapshot(false, false, [], [], [], [], [])

  ghost predicate Step(conf: Config, s: Snapshot, ev: Event, t: Snapshot) {
    match ev
    case Called(input, rv) => Call(conf, s, input, t, rv)
    case AbortedElsewhere => t == s.(aborted := true)
  }

  ghost predicate Run(conf: Config, tr: seq<Snapshot>, evs: seq<Event>) {
    && |tr| == |evs| + 1
    && tr[0] == INITIAL
    && forall i :: 0 <= i < |evs| ==> Step(conf, tr[i], evs[i], tr[i + 1])
  }

  function Input(ev: Event): seq<Bucket> {
    if ev.Called? && ev.input.Some? then ev.input.value else []
  }

  /** All the payload that the callers handed over, in order. */
  function SubmittedBytes(evs: seq<Event>): seq<Byte> {
    if evs == [] then []
    else SubmittedBytes(evs[..|evs| - 1]) + Payload(Input(evs[|evs| - 1]))
  }

  /** All the metadata, each with the number of payload bytes handed over ahead of it. */
  function SubmittedMarks(evs: seq<Event>): seq<Mark> {
    if evs == [] then []
    else
      var before := evs[..|evs| - 1];
      SubmittedMarks(before)
        + Marks(Stamped(Input(evs[|evs| - 1]), |SubmittedBytes(before)|, |SubmittedMarks(before)|))
  }

  lemma ServedAccounted(conf: Config, s: Snapshot, input: Option<seq<Bucket>>, t: Snapshot, rv: Status)
    requires Balanced(s, 0) && Call(conf, s, input, t, rv) && !t.aborted
    ensures Accounted(t)
  {
    hide Payload, Placed, Marks, Offered, MustFlush, WorthSending;
    OfferedBalanced(s, input);
    OfferedStays(s, input);
    DestroyedInTime(s, t, Offered(s, input).queue);
    assert s.wire[..|s.wire|] == s.wire && t.wire[..|t.wire|] == t.wire;
  }

  lemma BrokenAccounted(conf: Config, s: Snapshot, input: Option<seq<Bucket>>, t: Snapshot, rv: Status)
    requires Balanced(s, 0) && Call(conf, s, input, t, rv) && t.aborted
    ensures Accounted(t)
  {
    hide Payload, Placed, Marks, Offered, MustFlush, WorthSending;
    OfferedBalanced(s, input);
    OfferedStays(s, input);
    DestroyedInTime(s, t, Offered(s, input).queue);
    assert s.wire[..|s.wire|] == s.wire;
  }

  /** One step keeps the accounts. */
  lemma StepAccounted(conf: Config, s: Snapshot, ev: Event, t: Snapshot)
    requires Accounted(s) && Step(conf, s, ev, t)
    ensures Accounted(t)
  {
    hide Payload, Placed, Marks;
    if ev.AbortedElsewhere? {
      assert s.wire[..|s.wire|] == s.wire;
    } else if s.aborted {
      hide WoundUp;
      RefusedCall(conf, s, ev.input, t);
    } else if t.aborted {
      hide Balanced;
      BrokenAccounted(conf, s, ev.input, t, ev.rv);
    } else {
      hide Balanced;
      ServedAccounted(conf, s, ev.input, t, ev.rv);
    }
  }

  /** Old destructions stay in time as the wire grows. */
  lemma DestroyedInTime(s: Snapshot, t: Snapshot, queue: seq<Bucket>)
    requires Balanced(s, 0) && s.wire <= t.wire && MarksKept(s.destroyed, queue, t)
    ensures forall d :: d in t.destroyed ==> if d.aborted then t.aborted else Timely(d, |t.wire|)
  {
    forall d | d in t.destroyed
      ensures if d.aborted then t.aborted else Timely(d, |t.wire|)
    {
      var i :| 0 <= i < |t.destroyed| && t.destroyed[i] == d;
      if i < |s.destroyed| {
        assert s.destroyed[i] == d && d in s.destroyed;
      }
    }
  }

  lemma {:induction false} RunAccounted(conf: Config, tr: seq<Snapshot>, evs: seq<Event>, i: nat)
    requires Run(conf, tr, evs) && i < |tr|
    ensures Accounted(tr[i])
    ensures tr[i].submitted == SubmittedBytes(evs[..i]) && tr[i].marks == SubmittedMarks(evs[..i])
  {
    hide Payload, Placed, Stamped, Marks, Accounted, MustFlush;
    if i == 0 {
      InitiallyAccounted();
    } else {
      RunAccounted(conf, tr, evs, i - 1);
      assert Step(conf, tr[i - 1], evs[i - 1], tr[i]);
      StepAccounted(conf, tr[i - 1], evs[i - 1], tr[i]);
      assert evs[..i][..i - 1] == evs[..i - 1];
      NothingHandedOver(|tr[i - 1].submitted|, |tr[i - 1].marks|);
    }
  }

  lemma InitiallyAccounted()
    ensures Accounted(INITIAL)
  {
  }

  lemma NothingHandedOver(offset: nat, first: nat)
    ensures Payload([]) == [] && Marks(Stamped([], offset, first)) == []
  {
  }

  /** The filter refines a plain pipe: on a live connection, what is on the wire followed by
      what is buffered is what the callers handed over; on any connection, the wire carries a
      prefix of it. */
  lemma RunRefinesPipe(conf: Config, tr: seq<Snapshot>, evs: seq<Event>, i: nat)
    requires Run(conf, tr, evs) && i < |tr|
    ensures !tr[i].aborted ==> tr[i].wire + Payload(tr[i].queue) == SubmittedBytes(evs[..i])
    ensures tr[i].wire <= SubmittedBytes(evs[..i])
    ensures !tr[i].aborted ==> (tr[i].flagged <==> tr[i].queue != [])
  {
    hide Payload, Placed, Marks;
    RunAccounted(conf, tr, evs, i);
    assert tr[i].wire[..|tr[i].wire|] == tr[i].wire;
  }

  /** Once aborted, a connection stays aborted and its wire never grows again. */
  lemma {:induction false} AbortIsFinal(conf: Config, tr: seq<Snapshot>, evs: seq<Event>, i: nat, j: nat)
    requires Run(conf, tr, evs) && i <= j < |tr| && tr[i].aborted
    ensures tr[j].aborted && tr[j].wire == tr[i].wire
    decreases j - i
  {
    if i < j {
      assert Step(conf, tr[i], evs[i], tr[i + 1]);
      AbortIsFinal(conf, tr, evs, i + 1, j);
    }
  }

  /** The wire only ever grows, and history is never rewritten. */
  lemma {:induction false} HistoryGrows(conf: Config, tr: seq<Snapshot>, evs: seq<Event>, i: nat, j: nat)
    requires Run(conf, tr, evs) && i <= j < |tr|
    ensures tr[i].wire <= tr[j].wire && tr[i].destroyed <= tr[j].destroyed
    decreases j - i
  {
    if i < j {
      assert Step(conf, tr[i], evs[i], tr[i + 1]);
      HistoryGrows(conf, tr, evs, i + 1, j);
    }
  }

  /** Backpressure: after a call that handed over a brigade, a live connection holds back no
      FLUSH, nothing of unknown length, and no more than the limits allow. */
  lemma HeldBackWithinLimits(conf: Config, tr: seq<Snapshot>, evs: seq<Event>, i: nat)
    requires Run(conf, tr, evs) && i < |evs|
    requires evs[i].Called? && evs[i].input.Some? && !tr[i + 1].aborted
    ensures !HasFlush(tr[i + 1].queue) && !HasMorphing(tr[i + 1].queue)
    ensures NonFileBytes(tr[i + 1].queue) <= conf.flushMaxThreshold
    ensures conf.flushMaxPipelined >= 0 ==> EorCount(tr[i + 1].queue) <= conf.flushMaxPipelined
  {
    assert Step(conf, tr[i], evs[i], tr[i + 1]);
  }

  /** Metadata ordering: a metadata bucket destroyed while the connection lived was destroyed
      when every payload byte handed over ahead of it was on the wire. */
  lemma DestroyedAfterItsPayload(conf: Config, tr: seq<Snapshot>, evs: seq<Event>, i: nat, d: Destruction)
    requires Run(conf, tr, evs) && i < |tr| && d in tr[i].destroyed && !d.aborted
    ensures d.mark.at <= d.wireLen <= |tr[i].wire|
    ensures d.mark.at <= |SubmittedBytes(evs[..i])|
    ensures SubmittedBytes(evs[..i])[..d.mark.at] <= tr[i].wire[..d.wireLen]
  {
    hide Payload, Placed, Marks;
    RunAccounted(conf, tr, evs, i);
    var all := SubmittedBytes(evs[..i]);
    assert tr[i].wire <= all;
    assert tr[i].wire[..d.wireLen] == all[..d.wireLen];
  }

  /** A mark of a stamped brigade belongs to a metadata bucket, at its offset. */
  lemma StampedOrigin(b: seq<Bucket>, offset: nat, first: nat, m: Mark) returns (j: nat)
    requires m in Marks(Stamped(b, offset, first))
    ensures j < |b| && b[j].Meta?
    ensures m == Mark(b[j].mark.kind, offset + |Payload(b[..j])|, first + |Marks(b[..j])|)
  {
    j := MarkHasBucket(Stamped(b, offset, first), m);
    StampedLength(b, offset, first);
    StampedAt(b, offset, first, j);
  }

  /** Bucket `j` of the brigade that call `i` handed over is the one that `m` marks. */
  ghost predicate MarkedBy(evs: seq<Event>, i: int, j: int, m: Mark) {
    && 0 <= i < |evs| && 0 <= j < |Input(evs[i])|
    && Input(evs[i])[j].Meta?
    && m == Mark(Input(evs[i])[j].mark.kind,
                 |SubmittedBytes(evs[..i])| + |Payload(Input(evs[i])[..j])|,
                 |SubmittedMarks(evs[..i])| + |Marks(Input(evs[i])[..j])|)
  }

  lemma {:induction false} MarkOrigin(evs: seq<Event>, m: Mark) returns (i: nat, j: nat)
    requires m in SubmittedMarks(evs)
    ensures MarkedBy(evs, i, j, m)
  {
    var n := |evs| - 1;
    if m in SubmittedMarks(evs[..n]) {
      i, j := MarkOrigin(evs[..n], m);
      assert evs[..n][..i] == evs[..i];
    } else {
      i := n;
      j := StampedOrigin(Input(evs[n]), |SubmittedBytes(evs[..n])|, |SubmittedMarks(evs[..n])|, m);
    }
  }

  /** What was submitted ahead of bucket `j` of call `i`. */
  function SubmittedAhead(evs: seq<Event>, i: nat, j: nat): seq<Byte>
    requires i < |evs| && j <= |Input(evs[i])|
  {
    SubmittedBytes(evs[..i]) + Payload(Input(evs[i])[..j])
  }

  lemma DestroyedWasSubmitted(conf: Config, tr: seq<Snapshot>, evs: seq<Event>, k: nat, d: Destruction)
    requires Run(conf, tr, evs) && k < |tr| && d in tr[k].destroyed
    ensures d.mark in SubmittedMarks(evs[..k])
  {
    hide Step, SubmittedMarks, Marks;
    DestroyedOnce(conf, tr, evs, k);
    var n :| 0 <= n < |tr[k].destroyed| && tr[k].destroyed[n] == d;
    assert MarksOf(tr[k].destroyed)[n] == d.mark;
    assert d.mark in multiset(SubmittedMarks(evs[..k]));
  }

  /** Every metadata bucket destroyed in a run was handed over by some call, and unless the
      connection was aborted all that came before it in the stream has been sent. */
  lemma SentBeforeDestroyed(conf: Config, tr: seq<Snapshot>, evs: seq<Event>, k: nat, d: Destruction)
    returns (i: nat, j: nat)
    requires Run(conf, tr, evs) && k < |tr| && d in tr[k].destroyed
    ensures i < k && MarkedBy(evs, i, j, d.mark)
    ensures !d.aborted ==> d.wireLen <= |tr[k].wire| && SubmittedAhead(evs, i, j) <= tr[k].wire[..d.wireLen]
  {
    hide Payload, Step, Stamped, Marks, SubmittedMarks, SubmittedBytes;
    assert |tr| == |evs| + 1;
    DestroyedWasSubmitted(conf, tr, evs, k, d);
    i, j := MarkOrigin(evs[..k], d.mark);
    assert evs[..k][..i] == evs[..i];
    if !d.aborted {
      hide Run;
      DestroyedAfterItsPayload(conf, tr, evs, k, d);
      AheadIsPrefix(evs, i, j, k);
      assert SubmittedBytes(evs[..k])[..d.mark.at] == SubmittedAhead(evs, i, j);
    }
  }

  lemma AheadIsPrefix(evs: seq<Event>, i: nat, j: nat, k: nat)
    requires i < k <= |evs| && j <= |Input(evs[i])|
    ensures SubmittedAhead(evs, i, j) <= SubmittedBytes(evs[..k])
  {
    hide Payload;
    var b := Input(evs[i]);
    SubmittedPrefix(evs, i + 1, k);
    assert evs[..i + 1][..i] == evs[..i];
    PayloadConcat(b[..j], b[j..]);
    assert b == b[..j] + b[j..];
    assert SubmittedAhead(evs, i, j) <= SubmittedBytes(evs[..i + 1]);
  }

  lemma {:induction false} SubmittedPrefix(evs: seq<Event>, i: nat, k: nat)
    requires i <= k <= |evs|
    ensures SubmittedBytes(evs[..i]) <= SubmittedBytes(evs[..k])
  {
    if i < k {
      SubmittedPrefix(evs, i, k - 1);
      assert evs[..k][..k - 1] == evs[..k - 1];
    }
  }

  /** No metadata bucket is lost or destroyed twice: at every point of a run each one handed
      over has been destroyed once or is still buffered. */
  lemma DestroyedOnce(conf: Config, tr: seq<Snapshot>, evs: seq<Event>, i: nat)
    requires Run(conf, tr, evs) && i < |tr|
    ensures multiset(MarksOf(tr[i].destroyed)) + multiset(Marks(tr[i].queue))
         == multiset(SubmittedMarks(evs[..i]))
  {
    hide Payload, Placed, Marks;
    RunAccounted(conf, tr, evs, i);
  }

  /** An event that leaves the marks in order: a call over whose queue no pass overtakes, or a
      call on an aborted connection that has no mark buffered, or an abort. */
  ghost predicate Tame(s: Snapshot, ev: Event) {
    ev.Called? ==> if s.aborted then Marks(s.queue) == [] else Orderly(Offered(s, ev.input).queue)
  }

  lemma NothingIsOrderly()
    ensures Orderly([]) && Marks([]) == []
  {
  }

  /** Metadata goes in order: while every event is tame, what has been destroyed, followed by what
      is buffered, is what was handed over, as sequences. */
  lemma {:induction false} RunInOrder(conf: Config, tr: seq<Snapshot>, evs: seq<Event>, i: nat)
    requires Run(conf, tr, evs) && i < |tr|
    requires forall j :: 0 <= j < i ==> Tame(tr[j], evs[j])
    ensures MarksOf(tr[i].destroyed) + Marks(tr[i].queue) == SubmittedMarks(evs[..i])
  {
    hide Marks, Orderly, StaysOrderly, Offered, Refused, Broken, Served, MarksKept;
    RunAccounted(conf, tr, evs, i);
    if i == 0 {
      NothingIsOrderly();
    } else {
      RunInOrder(conf, tr, evs, i - 1);
      RunAccounted(conf, tr, evs, i - 1);
      assert Step(conf, tr[i - 1], evs[i - 1], tr[i]) && Tame(tr[i - 1], evs[i - 1]);
      assert Ordered(tr[i - 1]);
    }
  }

  /** Everything that the callers handed over, in order. */
  function Stream(evs: seq<Event>): seq<Bucket> {
    if evs == [] then [] else Stream(evs[..|evs| - 1]) + Input(evs[|evs| - 1])
  }

  lemma {:induction false} StreamPrefix(evs: seq<Event>, i: nat) returns (rest: seq<Bucket>)
    requires i <= |evs|
    ensures Stream(evs) == Stream(evs[..i]) + rest
  {
    var n := |evs| - 1;
    if i == |evs| {
      assert evs[..i] == evs;
      rest := [];
    } else {
      rest := StreamPrefix(evs[..n], i);
      assert evs[..n][..i] == evs[..i];
      rest := rest + Input(evs[n]);
    }
  }

  /** What is queued at a call is no less orderly than the stream so far. */
  lemma OfferedOrderly(done: seq<Bucket>, s: Snapshot, ev: Event)
    requires ev.Called? && StaysOrderly(done, s.queue)
    ensures StaysOrderly(done + Input(ev), Offered(s, ev.input).queue)
  {
    hide Orderly, Stamped;
    var b := Input(ev);
    forall x | Orderly(done + b + x)
      ensures Orderly(Offered(s, ev.input).queue + x)
    {
      assert done + b + x == done + (b + x) && s.queue + b + x == s.queue + (b + x);
      assert Orderly(s.queue + (b + x));
      if ev.input.Some? {
        var stamped := Stamped(b, |s.submitted|, |s.marks|);
        StampedAlike(b, |s.submitted|, |s.marks|);
        assert Alike(s.queue + b + x, s.queue + stamped + x);
        AlikeOrderly(s.queue + b + x, s.queue + stamped + x);
      } else {
        assert s.queue + b + x == s.queue + x;
      }
    }
  }

  /** What an orderly run has buffered is no less orderly than what was handed over. */
  lemma {:induction false} OrderlyRun(conf: Config, tr: seq<Snapshot>, evs: seq<Event>, i: nat)
    requires Run(conf, tr, evs) && i < |tr| && Orderly(Stream(evs[..i]))
    requires forall j :: 0 <= j < i && evs[j].AbortedElsewhere? ==> Marks(tr[j].queue) == []
    ensures if tr[i].aborted then Marks(tr[i].queue) == [] else StaysOrderly(Stream(evs[..i]), tr[i].queue)
    ensures forall j :: 0 <= j < i ==> Tame(tr[j], evs[j])
  {
    hide Marks, Orderly, StaysOrderly, Ordered, MarksKept, Served, Offered, Stream, Tame;
    if i == 0 {
      NothingIsOrderly();
      EmptyStream();
    } else {
      var s, ev, done, b := tr[i - 1], evs[i - 1], Stream(evs[..i - 1]), Input(evs[i - 1]);
      assert Step(conf, s, ev, tr[i]);
      StreamNext(evs, i);
      OrderlyParts(done, b);
      OrderlyRun(conf, tr, evs, i - 1);
      OrderlyStep(conf, s, ev, tr[i], done);
    }
  }

  lemma EmptyStream()
    ensures Stream([]) == [] && StaysOrderly([], [])
  {
  }

  lemma StreamNext(evs: seq<Event>, i: nat)
    requires 0 < i <= |evs|
    ensures Stream(evs[..i]) == Stream(evs[..i - 1]) + Input(evs[i - 1])
  {
    assert evs[..i][..i - 1] == evs[..i - 1];
  }

  /** One step, when what is handed over keeps the stream orderly. */
  lemma OrderlyStep(conf: Config, s: Snapshot, ev: Event, t: Snapshot, done: seq<Bucket>)
    requires Step(conf, s, ev, t) && Orderly(done + Input(ev))
    requires if s.aborted then Marks(s.queue) == [] else StaysOrderly(done, s.queue)
    requires ev.AbortedElsewhere? ==> Marks(s.queue) == []
    ensures Tame(s, ev)
    ensures if t.aborted then Marks(t.queue) == [] else StaysOrderly(done + Input(ev), t.queue)
  {
    hide Marks, Orderly, StaysOrderly, Ordered, MarksKept, Served, Offered;
    NothingIsOrderly();
    if ev.Called? {
      OfferedStays(s, ev.input);
    }
    if ev.Called? && !s.aborted {
      var o := Offered(s, ev.input);
      OfferedOrderly(done, s, ev);
      ThenOrderly(done + Input(ev), o.queue);
      if !t.aborted {
        StaysOrderlyOn(done + Input(ev), o.queue, t.queue);
      }
    }
  }

  /** When all that the callers hand over is an orderly stream of buckets, metadata is destroyed in
      the order in which it was handed over, whatever the network does and wherever the stream is
      cut into brigades. Only an abort by another part of the server can leave metadata behind, if
      it comes while some is buffered. */
  lemma DestroyedInSequence(conf: Config, tr: seq<Snapshot>, evs: seq<Event>, i: nat)
    requires Run(conf, tr, evs) && i < |tr| && Orderly(Stream(evs[..i]))
    requires forall j :: 0 <= j < i && evs[j].AbortedElsewhere? ==> Marks(tr[j].queue) == []
    ensures MarksOf(tr[i].destroyed) + Marks(tr[i].queue) == SubmittedMarks(evs[..i])
  {
    hide Marks, Orderly, StaysOrderly, Step, Offered, SubmittedMarks, Tame;
    OrderlyRun(conf, tr, evs, i);
    RunInOrder(conf, tr, evs, i);
  }

  /** Without files for sendfile and buckets of unknown length, any stream is orderly. */
  lemma {:induction false} SteadyStream(evs: seq<Event>)
    requires forall ev <- evs :: Steady(Input(ev))
    ensures Steady(Stream(evs)) && Orderly(Stream(evs))
  {
    if evs != [] {
      SteadyStream(evs[..|evs| - 1]);
      assert evs[|evs| - 1] in evs;
    }
    SteadyIsOrderly(Stream(evs));
  }

  lemma {:induction false} MarkHasBucket(b: seq<Bucket>, m: Mark) returns (i: nat)
    requires m in Marks(b)
    ensures i < |b| && b[i] == Meta(m)
  {
    if b[0] == Meta(m) {
      i := 0;
    } else {
      i := MarkHasBucket(b[1..], m);
      i := i + 1;
    }
  }

  lemma FlushQueued(b: seq<Bucket>, m: Mark)
    requires m in Marks(b) && m.kind.Flush?
    ensures HasFlush(b)
  {
    var i := MarkHasBucket(b, m);
  }

  lemma SumMember<T>(a: multiset<T>, b: multiset<T>, c: multiset<T>, d: multiset<T>, x: T)
    requires a + b == c + d && x in d
    ensures x in a || x in b
  {
    assert (a + b)[x] == (c + d)[x];
  }

  /** The offset of a metadata bucket that is handed over, among the marks in hand. */
  lemma HandedMark(s: Snapshot, b: seq<Bucket>, j: nat)
    requires j < |b| && b[j].Meta?
    ensures Mark(b[j].mark.kind, |s.submitted| + |Payload(b[..j])|, |s.marks| + |Marks(b[..j])|)
         in Marks(Offered(s, Some(b)).queue)
  {
    hide Payload, Marks;
    StampedAt(b, |s.submitted|, |s.marks|, j);
    MarkIn(Stamped(b, |s.submitted|, |s.marks|), j);
    OfferedPayload(s, b);
  }

  /** The flush rule at work: after a call that handed over a FLUSH bucket and did not break
      the connection, everything ahead of that bucket is on the wire. */
  lemma FlushSent(conf: Config, s: Snapshot, b: seq<Bucket>, j: nat, t: Snapshot, rv: Status)
    requires Accounted(s) && Call(conf, s, Some(b), t, rv) && !t.aborted
    requires j < |b| && b[j].Meta? && b[j].mark.kind.Flush?
    ensures s.submitted + Payload(b[..j]) <= t.wire
  {
    hide Payload, Placed, Marks, Offered, WorthSending, Casualties;
    var o := Offered(s, Some(b));
    var m := Mark(Flush, |s.submitted| + |Payload(b[..j])|, |s.marks| + |Marks(b[..j])|);
    HandedMark(s, b, j);
    OfferedStays(s, Some(b));
    assert Served(conf, s, Some(b), t, rv);
    StepAccounted(conf, s, Called(Some(b), rv), t);
    SumMember(multiset(MarksOf(t.destroyed)), multiset(Marks(t.queue)),
              multiset(MarksOf(s.destroyed)), multiset(Marks(o.queue)), m);
    if m in Marks(t.queue) {
      FlushQueued(t.queue, m);
      assert false;
    }
    var k :| 0 <= k < |t.destroyed| && t.destroyed[k].mark == m;
    assert t.destroyed[k] in t.destroyed;
    SubmissionGrows(s, b, j);
    assert t.wire == t.submitted[..|t.wire|];
    assert s.submitted + Payload(b[..j]) == t.submitted[..m.at];
  }

  lemma SubmissionGrows(s: Snapshot, b: seq<Bucket>, j: nat)
    requires j <= |b|
    ensures s.submitted + Payload(b[..j]) <= Offered(s, Some(b)).submitted
  {
    hide Payload, Marks, Stamped;
    PayloadConcat(b[..j], b[j..]);
    assert b == b[..j] + b[j..];
  }

  /** A queue without payload that begins with data begins with data of unknown length. */
  lemma OnlyMorphing(b: seq<Bucket>)
    requires b != [] && b[0].Data? && b[0].Length() != 0 && |Payload(b)| == 0
    ensures HasMorphing(b)
  {
    assert b[0].content == [];
  }

  /** When nothing but metadata follows the FLUSH bucket, such a call leaves nothing behind. */
  lemma FlushEmpties(conf: Config, s: Snapshot, b: seq<Bucket>, j: nat, t: Snapshot, rv: Status)
    requires Accounted(s) && Call(conf, s, Some(b), t, rv) && !t.aborted
    requires j < |b| && b[j].Meta? && b[j].mark.kind.Flush? && Payload(b[j..]) == []
    ensures t.queue == [] && t.wire == t.submitted
  {
    hide Payload, Placed, Marks, WorthSending, Casualties, Stamped, NonFileBytes, EorCount, HasFlush, HasMorphing;
    FlushSent(conf, s, b, j, t, rv);
    StepAccounted(conf, s, Called(Some(b), rv), t);
    assert Payload(b) == Payload(b[..j]) by {
      PayloadConcat(b[..j], b[j..]);
      assert b == b[..j] + b[j..];
    }
    OfferedStays(s, Some(b));
    assert Served(conf, s, Some(b), t, rv);
    assert t.wire == t.submitted;
    assert |Payload(t.queue)| == 0 by {
      assert t.wire[..|t.wire|] == t.wire;
      assert |t.wire + Payload(t.queue)| == |t.submitted|;
    }
    if t.queue != [] {
      OnlyMorphing(t.queue);
      assert false;
    }
  }

  lemma RunStarts(conf: Config)
    ensures Run(conf, [INITIAL], [])
  {
  }

  lemma RunExtends(conf: Config, tr: seq<Snapshot>, evs: seq<Event>, ev: Event, t: Snapshot)
    requires Run(conf, tr, evs) && Step(conf, tr[|evs|], ev, t)
    ensures Run(conf, tr + [t], evs + [ev])
  {
    hide Step;
  }

  /** A caller that hands over brigades one after the other, or null ones to retry: the history
      of the connection is a run. */
  method Serve(conf: Config, sock: Socket, inputs: seq<Option<seq<Bucket>>>)
    returns (c: Connection, ghost tr: seq<Snapshot>, ghost evs: seq<Event>)
    requires conf.maxIovec >= 1 && sock.wire == []
    modifies sock
    ensures c.Valid() && c.conf == conf && c.sock == sock
    ensures Run(conf, tr, evs) && |evs| == |inputs| && |tr| == |inputs| + 1
    ensures forall i :: 0 <= i < |inputs| ==> evs[i].Called? && evs[i].input == inputs[i]
    ensures tr[|inputs|] == c.Snap(c.buffered.buckets)
  {
    hide Call, Accounted, Run;
    c := new Connection(conf, sock);
    tr, evs := [c.Snap(c.buffered.buckets)], [];
    RunStarts(conf);
    for k := 0 to |inputs|
      invariant fresh(c) && fresh(c.buffered) && fresh(c.vec) && c.Valid() && c.conf == conf && c.sock == sock
      invariant Run(conf, tr, evs) && |evs| == k && |tr| == k + 1
      invariant forall i :: 0 <= i < k ==> evs[i].Called? && evs[i].input == inputs[i]
      invariant tr[k] == c.Snap(c.buffered.buckets)
    {
      var bb: Brigade? := null;
      if inputs[k].Some? {
        bb := new Brigade(inputs[k].value);
      }
      var rv := CoreOutputFilter(c, bb);
      RunExtends(conf, tr, evs, Called(inputs[k], rv), c.Snap(c.buffered.buckets));
      tr, evs := tr + [c.Snap(c.buffered.buckets)], evs + [Called(inputs[k], rv)];
    }
  }
}
