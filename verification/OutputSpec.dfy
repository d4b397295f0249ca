/** What one call of the core output filter promises, and what follows for whole runs. */
module OutputSpec {
  import opened Apr
  import opened Buckets
  import opened FlushRule
  import opened OutputHistory
  import opened MarkOrder
  import opened Connections

  /** The snapshot once a caller has handed over `input`, queued behind what is buffered. */
  function Offered(s: Snapshot, input: Option<seq<Bucket>>): Snapshot {
    match input
    case None => s
    case Some(b) =>
      var stamped := Stamped(b, |s.submitted|, |s.marks|);
      s.(queue := s.queue + stamped,
         submitted := s.submitted + Payload(b),
         marks := s.marks + Marks(stamped))
  }

  /** The record of metadata destroyed on an aborted connection. */
  function Casualties(ms: seq<Mark>, wireLen: nat): seq<Destruction> {
    seq(|ms|, i requires 0 <= i < |ms| => Destruction(ms[i], wireLen, true))
  }

  /** The connection was aborted before the call: the brigade is destroyed, nothing is sent. */
  ghost predicate Refused(s: Snapshot, input: Option<seq<Bucket>>, t: Snapshot, rv: Status) {
    var o := Offered(s, input);
    && rv == ConnAborted
    && t == o.(queue := s.queue,
               destroyed := s.destroyed + Casualties(Marks(o.queue[|s.queue|..]), |s.wire|))
  }

  /** The connection broke during the call: some of the queue was sent, the rest is gone. */
  ghost predicate Broken(s: Snapshot, input: Option<seq<Bucket>>, t: Snapshot, rv: Status) {
    var o := Offered(s, input);
    && rv != Success && rv != EAgain
    && t.aborted && t.flagged == s.flagged && t.queue == []
    && t.wire <= s.wire + Payload(o.queue)
  }

  /** The connection lives: what is not on the wire is buffered, in order and in place. */
  ghost predicate Served(conf: Config, s: Snapshot, input: Option<seq<Bucket>>, t: Snapshot, rv: Status) {
    var o := Offered(s, input);
    && rv == Success
    && !t.aborted
    && t.wire + Payload(t.queue) == s.wire + Payload(o.queue)
    && Placed(t.queue, |t.wire|, 0)
    && (t.flagged <==> t.queue != [])
    && (t.queue != [] ==> t.queue[0].Data? && t.queue[0].Length() != 0)
    && (input.Some? ==> !MustFlush(t.queue, conf))
    && (input.Some? && !WorthSending(o.queue, conf) ==> t.wire == s.wire)
  }

  /** Between the queue `o` and the snapshot `t`, each mark was kept or destroyed once, and
      none was destroyed before its turn unless the connection was aborted. */
  ghost predicate MarksKept(done: seq<Destruction>, queue: seq<Bucket>, t: Snapshot) {
    && done <= t.destroyed
    && multiset(MarksOf(t.destroyed)) + multiset(Marks(t.queue)) == multiset(MarksOf(done)) + multiset(Marks(queue))
    && forall i :: |done| <= i < |t.destroyed| ==>
         if t.destroyed[i].aborted then t.aborted else Timely(t.destroyed[i], |t.wire|)
  }

  /** No mark passed an earlier one, if no pass over what was queued overtakes, and then none will
      over what is left, whatever is queued behind it; on an aborted connection, if no mark is
      buffered there. */
  ghost predicate OrderKept(s: Snapshot, queue: seq<Bucket>, t: Snapshot) {
    && (Ordered(s) && (if s.aborted then Marks(s.queue) == [] else Orderly(queue)) ==> Ordered(t))
    && (!s.aborted && Orderly(queue) ==> StaysOrderly(queue, t.queue))
  }

  /** `ap_core_output_filter` from snapshot `s` to snapshot `t`. */
  ghost predicate Call(conf: Config, s: Snapshot, input: Option<seq<Bucket>>, t: Snapshot, rv: Status) {
    var o := Offered(s, input);
    && t.submitted == o.submitted && t.marks == o.marks
    && s.wire <= t.wire
    && MarksKept(s.destroyed, o.queue, t)
    && OrderKept(s, o.queue, t)
    && if s.aborted then Refused(s, input, t, rv)
       else if t.aborted then Broken(s, input, t, rv)
       else Served(conf, s, input, t, rv)
  }

  /** What a call on a live connection owes to the calls that it made in turn, by their outcomes. It
      aborts the connection if and only if one of them failed, and returns that status. What is
      not worth sending is kept without a call; otherwise nothing is left unless a write was
      refused. Only for a new brigade may it wait for the socket. */
  ghost predicate Dutiful(conf: Config, isNew: bool, queue: seq<Bucket>, l: Ledger,
                          aborted: bool, left: seq<Bucket>, rv: Status, m: Ledger) {
    && (if aborted then Fatal(rv) && Settles(l, rv, m)
        else rv == Success && (Settles(l, Success, m) || Settles(l, EAgain, m)))
    && (if isNew && !WorthSending(queue, conf) then m == l else Smooth(l, m) ==> left == [])
    && (!isNew ==> m.polls == l.polls)
  }

  /** Each wait for the socket was for a brigade that had to be flushed. */
  ghost predicate Waited(conf: Config, before: seq<seq<Bucket>>, l: Ledger, after: seq<seq<Bucket>>, m: Ledger) {
    && before <= after && |after| - |before| == m.polls.Answered() - l.polls.Answered()
    && forall i :: |before| <= i < |after| ==> MustFlush(after[i], conf)
  }

  /** What any number of passes may do: the accounts balance, the wire and the history grow, and
      the marks stay in order if no pass over the queue overtakes. */
  ghost predicate Progress(s: Snapshot, t: Snapshot) {
    && Balanced(t, 0)
    && s.wire <= t.wire && s.destroyed <= t.destroyed
    && s.submitted == t.submitted && s.marks == t.marks
    && (Orderly(s.queue) ==> KeepsOrder(s, t))
  }

  /** The queue is destroyed on a connection that was aborted just before. */
  ghost predicate Dropped(u: Snapshot, t: Snapshot) {
    t == u.(aborted := true, queue := [], destroyed := u.destroyed + Casualties(Marks(u.queue), |u.wire|))
  }

  /** Some passes, after which the connection broke. */
  ghost predicate Lost(s: Snapshot, t: Snapshot) {
    exists u :: Progress(s, u) && u.flagged == s.flagged && Dropped(u, t)
  }

  lemma LostFrom(s: Snapshot, u: Snapshot, t: Snapshot)
    requires Progress(s, u) && u.flagged == s.flagged && Dropped(u, t)
    ensures Lost(s, t)
  {
  }

  lemma ProgressSelf(s: Snapshot)
    requires Balanced(s, 0)
    ensures forall flag :: Balanced(s.(flagged := flag), 0) ==> Progress(s, s.(flagged := flag))
    ensures Progress(s, s)
  {
    hide Balanced;
    KeepsOrderSelf(s);
    forall flag
      ensures KeepsOrder(s, s.(flagged := flag))
    {
      OrderOfFlag(s, s, flag);
    }
  }

  lemma ProgressOn(s: Snapshot, t: Snapshot, u: Snapshot)
    requires Progress(s, t) && KeepsOrder(t, u) && Balanced(u, 0)
    requires t.wire <= u.wire && t.submitted == u.submitted
    ensures Progress(s, u)
  {
    hide Balanced, Orderly, StaysOrderly, Ordered, NoMorphing;
    if Orderly(s.queue) {
      KeepsOrderOn(s, t, u);
    }
  }

  lemma ProgressByPass(s: Snapshot, t: Snapshot, u: Snapshot)
    requires Progress(s, t) && Moves(t, Overtakes(false, false, t.queue), u) && Balanced(u, 0)
    requires t.wire <= u.wire && t.submitted == u.submitted
    ensures Progress(s, u)
  {
    hide Balanced, Orderly, StaysOrderly, Ordered, NoMorphing, Overtakes;
    if Orderly(s.queue) {
      OrderlyPass(s, t, u);
    }
  }

  /** What a caller hands over is queued behind the rest. */
  lemma OfferedPayload(s: Snapshot, b: seq<Bucket>)
    ensures var o := Offered(s, Some(b));
      var stamped := Stamped(b, |s.submitted|, |s.marks|);
      && Payload(o.queue) == Payload(s.queue) + Payload(b)
      && Marks(o.queue) == Marks(s.queue) + Marks(stamped)
      && o.queue[|s.queue|..] == stamped
  {
    hide Payload, Marks;
    var stamped := Stamped(b, |s.submitted|, |s.marks|);
    PayloadConcat(s.queue, stamped);
    MarksConcat(s.queue, stamped);
    StampedKeepsPayload(b, |s.submitted|, |s.marks|);
  }

  lemma MultisetOfSum<T>(a: seq<T>, b: seq<T>)
    ensures multiset(a + b) == multiset(a) + multiset(b)
  {
  }

  /** Handing over a brigade keeps the accounting of a live connection. */
  lemma OfferedBalanced(s: Snapshot, input: Option<seq<Bucket>>)
    requires Balanced(s, 0)
    ensures Balanced(Offered(s, input), 0)
  {
    hide Payload, Placed, Marks, Stamped;
    if input.Some? {
      var b := input.value;
      var stamped := Stamped(b, |s.submitted|, |s.marks|);
      OfferedPayload(s, b);
      assert s.wire[..|s.wire|] == s.wire;
      assert s.wire + (Payload(s.queue) + Payload(b)) == s.submitted + Payload(b);
      assert Placed(s.queue + stamped, |s.wire|, 0) by {
        StampedPlaced(b, |s.submitted|, |s.marks|, |s.wire|);
        PlacedConcat(s.queue, stamped, |s.wire|, 0);
      }
      MultisetOfSum(Marks(s.queue), Marks(stamped));
      MultisetOfSum(s.marks, Marks(stamped));
      StampedNumbered(b, |s.submitted|, |s.marks|);
    }
  }

  lemma OfferedOrdered(s: Snapshot, input: Option<seq<Bucket>>)
    requires Ordered(s)
    ensures Ordered(Offered(s, input))
  {
    hide Marks, Stamped;
    if input.Some? {
      OfferedPayload(s, input.value);
    }
  }

  /** A call on a live connection whose steps keep the order of what is queued. */
  lemma CallInOrder(s: Snapshot, input: Option<seq<Bucket>>, t: Snapshot)
    requires !s.aborted && (Orderly(Offered(s, input).queue) ==> KeepsOrder(Offered(s, input), t))
    ensures OrderKept(s, Offered(s, input).queue, t)
  {
    hide Marks, Offered, Orderly, StaysOrderly, Ordered;
    if Ordered(s) {
      OfferedOrdered(s, input);
    }
  }

  lemma CasualtyMarks(done: seq<Destruction>, ms: seq<Mark>, wireLen: nat)
    ensures MarksOf(done + Casualties(ms, wireLen)) == MarksOf(done) + ms
  {
  }

  /** A live connection that ends with its books balanced has served the call. */
  lemma ServedCall(conf: Config, s: Snapshot, input: Option<seq<Bucket>>, t: Snapshot)
    requires Balanced(s, 0) && Accounted(t) && !t.aborted
    requires Progress(Offered(s, input), t)
    requires input.Some? ==> !MustFlush(t.queue, conf)
    requires input.Some? && !WorthSending(Offered(s, input).queue, conf) ==> t.wire == s.wire
    ensures Call(conf, s, input, t, Success)
  {
    hide Payload, Placed, Marks, MustFlush, WorthSending, Stamped, OrderKept, Orderly, KeepsOrder;
    var o := Offered(s, input);
    OfferedBalanced(s, input);
    CallInOrder(s, input, t);
    assert s.wire[..|s.wire|] == s.wire && t.wire[..|t.wire|] == t.wire;
    assert forall i :: |s.destroyed| <= i < |t.destroyed| ==> t.destroyed[i] in t.destroyed;
  }

  lemma OfferedStays(s: Snapshot, input: Option<seq<Bucket>>)
    ensures var o := Offered(s, input);
      o.wire == s.wire && o.destroyed == s.destroyed && o.flagged == s.flagged && o.aborted == s.aborted
  {
  }

  /** Destroying the whole queue keeps every mark counted once, and in order. */
  lemma QueueDestroyed(u: Snapshot, t: Snapshot)
    requires Dropped(u, t)
    ensures multiset(MarksOf(t.destroyed)) + multiset(Marks(t.queue))
         == multiset(MarksOf(u.destroyed)) + multiset(Marks(u.queue))
    ensures KeepsOrder(u, t)
  {
    hide Casualties, Orderly;
    forall x | Orderly(u.queue + x)
      ensures Orderly([] + x)
    {
      OrderlyParts(u.queue, x);
      assert [] + x == x;
    }
    CasualtyMarks(u.destroyed, Marks(u.queue), |u.wire|);
    MultisetOfSum(MarksOf(u.destroyed), Marks(u.queue));
  }

  /** A connection that breaks while sending, and whose queue is then destroyed. */
  lemma BrokenCall(conf: Config, s: Snapshot, input: Option<seq<Bucket>>, u: Snapshot, t: Snapshot, rv: Status)
    requires Balanced(s, 0) && Progress(Offered(s, input), u) && u.flagged == s.flagged && Dropped(u, t)
    requires rv != Success && rv != EAgain
    ensures Call(conf, s, input, t, rv) && Accounted(t)
  {
    hide Payload, Placed, Stamped, Casualties, Offered, Marks, MarksOf, OrderKept, Orderly, KeepsOrder;
    var o := Offered(s, input);
    OfferedBalanced(s, input);
    OfferedStays(s, input);
    QueueDestroyed(u, t);
    if Orderly(o.queue) {
      KeepsOrderOn(o, u, t);
    }
    CallInOrder(s, input, t);
    CasualtyEntries(u.destroyed, Marks(u.queue), |u.wire|);
    assert s.wire[..|s.wire|] == s.wire && u.wire[..|u.wire|] == u.wire;
    assert MarksKept(s.destroyed, o.queue, t) by {
      assert forall i :: |s.destroyed| <= i < |u.destroyed| ==> t.destroyed[i] in u.destroyed;
    }
  }

  /** A connection that was aborted before the call. */
  lemma RefusedCall(conf: Config, s: Snapshot, input: Option<seq<Bucket>>, t: Snapshot)
    requires s.aborted && Accounted(s)
    requires Refused(s, input, t, ConnAborted)
    ensures Call(conf, s, input, t, ConnAborted) && Accounted(t)
  {
    hide Payload, Placed, Stamped, Marks, Casualties, OrderKept;
    RefusedInOrder(s, input, t);
    if input.Some? {
      var b := input.value;
      var stamped := Stamped(b, |s.submitted|, |s.marks|);
      OfferedPayload(s, b);
      CasualtyMarks(s.destroyed, Marks(stamped), |s.wire|);
      MultisetOfSum(MarksOf(s.destroyed), Marks(stamped));
      MultisetOfSum(Marks(s.queue), Marks(stamped));
      MultisetOfSum(s.marks, Marks(stamped));
      CasualtyEntries(s.destroyed, Marks(stamped), |s.wire|);
    } else {
      NoCasualties(s);
    }
  }

  lemma RefusedInOrder(s: Snapshot, input: Option<seq<Bucket>>, t: Snapshot)
    requires s.aborted && Refused(s, input, t, ConnAborted)
    ensures OrderKept(s, Offered(s, input).queue, t)
  {
    hide Payload, Stamped, Marks, Casualties;
    if input.Some? {
      var b := input.value;
      OfferedPayload(s, b);
      CasualtyMarks(s.destroyed, Marks(Stamped(b, |s.submitted|, |s.marks|)), |s.wire|);
    } else {
      NoCasualties(s);
    }
  }

  lemma NoCasualties(s: Snapshot)
    ensures s.destroyed + Casualties(Marks(s.queue[|s.queue|..]), |s.wire|) == s.destroyed
  {
  }

  lemma CasualtyEntries(done: seq<Destruction>, ms: seq<Mark>, wireLen: nat)
    ensures var all := done + Casualties(ms, wireLen);
      && (forall i :: |done| <= i < |all| ==> all[i].aborted)
      && (forall d :: d in all ==> d.aborted || d in done)
  {
  }
}
