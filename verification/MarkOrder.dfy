/** When metadata is destroyed in the order in which it was submitted.

    A pass deletes an empty bucket at once when nothing is gathered. A mark that was passed over
    while something was gathered stays behind the gathered entries, even when a write in the
    middle of the pass has sent those, until a later write sends an entry behind it. A mark that
    the pass meets in between is deleted first. */
module MarkOrder {
  import opened Buckets
  import opened OutputHistory
  import opened Connections

  /** A pass that has gathered something or not, with a mark held back behind the last entry or
      not, can destroy a mark of `b` before an earlier one. With no bucket of unknown length in
      `b`, a pass that succeeds does. */
  predicate Overtakes(gathered: bool, held: bool, b: seq<Bucket>)
    decreases b
  {
    b != [] &&
    var e, rest := b[0], b[1..];
    if e.Meta? then
      if gathered then Overtakes(true, true, rest) else held || Overtakes(false, false, rest)
    else if e.Length() == 0 then
      Overtakes(gathered, held, rest)
    else if e.CanSendfile() then
      Overtakes(false, held, rest)
    else if e.Length() == -1 then
      Overtakes(false, held, rest) || Overtakes(gathered, held, rest) || Overtakes(true, false, rest)
    else
      Overtakes(true, false, rest)
  }

  /** No pass over what a pass may leave of `b` overtakes: none that starts behind a bucket that
      is not empty. */
  predicate Orderly(b: seq<Bucket>) {
    b == [] || (Orderly(b[1..]) && (b[0].Length() != 0 ==> !Overtakes(true, false, b[1..])))
  }

  predicate NoMorphing(b: seq<Bucket>) {
    forall e <- b :: e.Length() != -1
  }

  /** Whatever else is queued behind, what was orderly stays so. */
  ghost predicate StaysOrderly(q: seq<Bucket>, r: seq<Bucket>) {
    forall x :: Orderly(q + x) ==> Orderly(r + x)
  }

  /** Nothing in the brigade makes a pass write before it has gathered what follows. */
  predicate Steady(b: seq<Bucket>) {
    forall e <- b :: !e.CanSendfile() && e.Length() != -1
  }

  /** The marks behind the last bucket that is not empty. */
  ghost function Late(b: seq<Bucket>): seq<Mark> {
    if Hollow(b) then Marks(b) else Late(b[1..])
  }

  /** The marks destroyed, followed by those queued, are those submitted, in order. */
  ghost predicate Ordered(s: Snapshot) {
    MarksOf(s.destroyed) + Marks(s.queue) == s.marks
  }

  /** So far, the marks were destroyed in the order in which they were submitted. */
  ghost predicate DestroyedInOrder(s: Snapshot) {
    MarksOf(s.destroyed) <= s.marks
  }

  /** A step that moves no mark past another. */
  ghost predicate KeepsOrder(s: Snapshot, t: Snapshot) {
    && s.destroyed <= t.destroyed && s.marks == t.marks
    && (Ordered(s) ==> Ordered(t))
    && StaysOrderly(s.queue, t.queue)
    && (NoMorphing(s.queue) ==> NoMorphing(t.queue))
  }

  /** A step that destroys a mark before an earlier one. */
  ghost predicate BreaksOrder(s: Snapshot, t: Snapshot) {
    && s.destroyed <= t.destroyed && s.marks == t.marks
    && (Numbered(s.marks, 0) && Ordered(s) ==> !DestroyedInOrder(t))
    && (NoMorphing(s.queue) ==> NoMorphing(t.queue))
  }

  /** Part of a pass that is about to overtake (`f`) or not keeps order unless it is. */
  ghost predicate Moves(s: Snapshot, f: bool, t: Snapshot) {
    KeepsOrder(s, t) || (f && BreaksOrder(s, t))
  }

  /** Part of a pass that keeps order and stays as likely to overtake, or becomes less likely:
      `f` and `g` say whether it is about to, before and after. */
  ghost predicate KeepsCourse(s: Snapshot, f: bool, t: Snapshot, g: bool) {
    KeepsOrder(s, t) && (g ==> f) && (NoMorphing(s.queue) ==> g == f)
  }

  /** Part of a pass that goes on; it breaks order only if it was about to. */
  ghost predicate Advances(s: Snapshot, f: bool, t: Snapshot, g: bool) {
    KeepsCourse(s, f, t, g) || (f && BreaksOrder(s, t))
  }

  lemma KeepsOrderSelf(s: Snapshot)
    ensures KeepsOrder(s, s)
  {
  }

  /** Bytes on the wire do not enter the order of the marks. */
  lemma OrderOfWire(s: Snapshot, wire: seq<Byte>)
    ensures KeepsOrder(s, s.(wire := wire))
  {
  }

  /** Nor does the flag. */
  lemma OrderOfFlag(s: Snapshot, t: Snapshot, flag: bool)
    requires KeepsOrder(s, t)
    ensures KeepsOrder(s, t.(flagged := flag))
  {
  }

  lemma StaysOrderlyOn(q: seq<Bucket>, r: seq<Bucket>, p: seq<Bucket>)
    requires StaysOrderly(q, r) && StaysOrderly(r, p)
    ensures StaysOrderly(q, p)
  {
    hide Orderly;
    forall x | Orderly(q + x)
      ensures Orderly(p + x)
    {
      assert Orderly(r + x);
    }
  }

  lemma ThenOrderly(q: seq<Bucket>, r: seq<Bucket>)
    requires StaysOrderly(q, r) && Orderly(q)
    ensures Orderly(r)
  {
    hide Orderly;
    assert q + [] == q && r + [] == r;
    assert Orderly(q + []);
  }

  lemma KeepsOrderOn(s: Snapshot, t: Snapshot, u: Snapshot)
    requires KeepsOrder(s, t) && KeepsOrder(t, u)
    ensures KeepsOrder(s, u)
  {
    hide StaysOrderly, NoMorphing, Ordered;
    StaysOrderlyOn(s.queue, t.queue, u.queue);
  }

  lemma CourseOn(s: Snapshot, f: bool, t: Snapshot, g: bool, u: Snapshot, h: bool)
    requires KeepsCourse(s, f, t, g) && KeepsCourse(t, g, u, h)
    ensures KeepsCourse(s, f, u, h)
  {
    hide KeepsOrder, NoMorphing;
    KeepsOrderOn(s, t, u);
    NoMorphingOn(s, t);
  }

  lemma NoMorphingOn(s: Snapshot, t: Snapshot)
    requires KeepsOrder(s, t)
    ensures NoMorphing(s.queue) ==> NoMorphing(t.queue)
  {
  }

  lemma OutOfOrderForGood(t: Snapshot, u: Snapshot)
    requires !DestroyedInOrder(t) && t.destroyed <= u.destroyed && t.marks == u.marks
    ensures !DestroyedInOrder(u)
  {
    assert MarksOf(u.destroyed)[..|t.destroyed|] == MarksOf(t.destroyed);
  }

  lemma OrderMoves(s: Snapshot, f: bool, t: Snapshot)
    requires KeepsOrder(s, t)
    ensures Moves(s, f, t)
  {
  }

  lemma AdvanceMoves(s: Snapshot, f: bool)
    ensures Moves(s, f, s)
  {
    KeepsOrderSelf(s);
  }

  lemma CourseAdvances(s: Snapshot, f: bool, t: Snapshot, g: bool)
    requires KeepsCourse(s, f, t, g)
    ensures Advances(s, f, t, g)
  {
  }

  lemma AdvancesFrom(s: Snapshot, f: bool)
    ensures Advances(s, f, s, f)
  {
    KeepsOrderSelf(s);
  }

  /** The two relations compose. */
  lemma MovesOn(s: Snapshot, f: bool, t: Snapshot, g: bool, u: Snapshot)
    requires Advances(s, f, t, g) && Moves(t, g, u)
    ensures Moves(s, f, u)
  {
    hide StaysOrderly, NoMorphing, Ordered, DestroyedInOrder;
    if KeepsOrder(s, t) && KeepsOrder(t, u) {
      StaysOrderlyOn(s.queue, t.queue, u.queue);
    }
    if !DestroyedInOrder(t) && t.destroyed <= u.destroyed && t.marks == u.marks {
      OutOfOrderForGood(t, u);
    }
  }

  lemma AdvancesOn(s: Snapshot, f: bool, t: Snapshot, g: bool, u: Snapshot, h: bool)
    requires Advances(s, f, t, g) && Advances(t, g, u, h)
    ensures Advances(s, f, u, h)
  {
    hide StaysOrderly, NoMorphing, Ordered, DestroyedInOrder;
    if KeepsOrder(s, t) && KeepsOrder(t, u) {
      StaysOrderlyOn(s.queue, t.queue, u.queue);
    }
    if !DestroyedInOrder(t) && t.destroyed <= u.destroyed && t.marks == u.marks {
      OutOfOrderForGood(t, u);
    }
  }

  predicate Gatherable(e: Bucket) {
    e.Length() > 0 && !e.CanSendfile()
  }

  /** A mark comes before anything more is gathered. */
  ghost predicate MarkAhead(b: seq<Bucket>) {
    exists l: nat :: l < |b| && b[l].Meta? && forall x :: 0 <= x < l ==> !Gatherable(b[x])
  }

  /** A file for sendfile is the first bucket that is not empty, and such a mark follows. */
  ghost predicate FileThenMark(b: seq<Bucket>) {
    exists k: nat :: k < |b| && b[k].CanSendfile() && Hollow(b[..k]) && MarkAhead(b[k + 1..])
  }

  ghost predicate MarkFileMark(b: seq<Bucket>) {
    exists j: nat :: j < |b| && b[j].Meta? && Hollow(b[..j]) && FileThenMark(b[j + 1..])
  }

  /** Somewhere in the brigade: data to gather, then a mark, then a file for sendfile, then
      another mark, with nothing gathered in between. */
  ghost predicate Tangled(b: seq<Bucket>) {
    exists i: nat :: i < |b| && Gatherable(b[i]) && MarkFileMark(b[i + 1..])
  }

  lemma MarkAheadNext(b: seq<Bucket>)
    requires b != []
    ensures MarkAhead(b) <==> b[0].Meta? || (!Gatherable(b[0]) && MarkAhead(b[1..]))
  {
    var rest := b[1..];
    if l: nat :| l < |rest| && rest[l].Meta? && forall x :: 0 <= x < l ==> !Gatherable(rest[x]) {
      assert b[l + 1] == rest[l] && forall x :: 0 < x < l + 1 ==> b[x] == rest[x - 1];
    }
    if l: nat :| l < |b| && b[l].Meta? && forall x :: 0 <= x < l ==> !Gatherable(b[x]) {
      assert l > 0 ==> rest[l - 1] == b[l] && forall x :: 0 <= x < l - 1 ==> rest[x] == b[x + 1];
    }
  }

  lemma HollowNext(b: seq<Bucket>, k: nat)
    requires k < |b|
    ensures Hollow(b[..k + 1]) <==> b[0].Length() == 0 && Hollow(b[1..][..k])
  {
    assert b[..k + 1] == [b[0]] + b[1..][..k];
  }

  lemma FileThenMarkNext(b: seq<Bucket>)
    requires b != []
    ensures FileThenMark(b) <==>
            (b[0].CanSendfile() && MarkAhead(b[1..])) || (b[0].Length() == 0 && FileThenMark(b[1..]))
  {
    hide MarkAhead, Hollow;
    var rest := b[1..];
    if k: nat :| k < |rest| && rest[k].CanSendfile() && Hollow(rest[..k]) && MarkAhead(rest[k + 1..]) {
      HollowNext(b, k);
      assert b[k + 1] == rest[k] && b[k + 2..] == rest[k + 1..];
    }
    if k: nat :| k < |b| && b[k].CanSendfile() && Hollow(b[..k]) && MarkAhead(b[k + 1..]) {
      if k > 0 {
        HollowNext(b, k - 1);
        assert rest[k - 1] == b[k] && rest[k..] == b[k + 1..];
      }
    }
    FirstIsHollow(b);
  }

  lemma FirstIsHollow(b: seq<Bucket>)
    ensures Hollow(b[..0])
  {
  }

  lemma MarkFileMarkNext(b: seq<Bucket>)
    requires b != []
    ensures MarkFileMark(b) <==>
            (b[0].Meta? && FileThenMark(b[1..])) || (b[0].Length() == 0 && MarkFileMark(b[1..]))
  {
    hide FileThenMark, Hollow;
    var rest := b[1..];
    if j: nat :| j < |rest| && rest[j].Meta? && Hollow(rest[..j]) && FileThenMark(rest[j + 1..]) {
      HollowNext(b, j);
      assert b[j + 1] == rest[j] && b[j + 2..] == rest[j + 1..];
    }
    if j: nat :| j < |b| && b[j].Meta? && Hollow(b[..j]) && FileThenMark(b[j + 1..]) {
      if j > 0 {
        HollowNext(b, j - 1);
        assert rest[j - 1] == b[j] && rest[j..] == b[j + 1..];
      }
    }
    FirstIsHollow(b);
  }

  lemma TangledNext(b: seq<Bucket>)
    requires b != []
    ensures Tangled(b) <==> (Gatherable(b[0]) && MarkFileMark(b[1..])) || Tangled(b[1..])
  {
    hide MarkFileMark;
    var rest := b[1..];
    if i: nat :| i < |rest| && Gatherable(rest[i]) && MarkFileMark(rest[i + 1..]) {
      assert b[i + 1] == rest[i] && b[i + 2..] == rest[i + 1..];
    }
    if i: nat :| i < |b| && Gatherable(b[i]) && MarkFileMark(b[i + 1..]) {
      assert i > 0 ==> rest[i - 1] == b[i] && rest[i..] == b[i + 1..];
    }
  }

  lemma {:induction false} FileIsAhead(b: seq<Bucket>)
    ensures MarkFileMark(b) ==> FileThenMark(b)
  {
    hide FileThenMark, MarkFileMark;
    if b != [] {
      MarkFileMarkNext(b);
      FileThenMarkNext(b);
      FileIsAhead(b[1..]);
    } else {
      NothingFollows();
    }
  }

  lemma NothingFollows()
    ensures !MarkAhead([]) && !FileThenMark([]) && !MarkFileMark([]) && !Tangled([])
  {
  }

  lemma {:induction false} OvertakesMeans(gathered: bool, held: bool, b: seq<Bucket>)
    requires NoMorphing(b)
    ensures Overtakes(gathered, held, b) <==>
      || Tangled(b)
      || (if gathered then (if held then FileThenMark(b) else MarkFileMark(b)) else held && MarkAhead(b))
    decreases b
  {
    hide Overtakes, Tangled, FileThenMark, MarkFileMark, MarkAhead;
    NothingFollows();
    if b == [] {
      OvertakesNothing(gathered, held);
    } else {
      var e, rest := b[0], b[1..];
      assert b == [e] + rest && e in b;
      OvertakesNext(gathered, held, e, rest);
      MarkAheadNext(b);
      FileThenMarkNext(b);
      MarkFileMarkNext(b);
      TangledNext(b);
      forall g, h
        ensures Overtakes(g, h, rest) <==>
          || Tangled(rest)
          || (if g then (if h then FileThenMark(rest) else MarkFileMark(rest)) else h && MarkAhead(rest))
      {
        OvertakesMeans(g, h, rest);
      }
      FileIsAhead(rest);
    }
  }

  lemma OvertakesNothing(gathered: bool, held: bool)
    ensures !Overtakes(gathered, held, [])
  {
  }

  /** What it takes for a pass to overtake, said of the brigade alone. */
  lemma OvertakesIff(b: seq<Bucket>)
    requires NoMorphing(b)
    ensures Overtakes(false, false, b) <==> Tangled(b)
  {
    OvertakesMeans(false, false, b);
  }

  /** Exactly when a pass destroys marks in order: one that succeeds over a brigade with no bucket
      of unknown length does so if and only if the brigade is not tangled. */
  lemma PassInOrderIff(s: Snapshot, t: Snapshot)
    requires Advances(s, Overtakes(false, false, s.queue), t, false)
    requires Numbered(s.marks, 0) && Ordered(s) && NoMorphing(s.queue)
    ensures DestroyedInOrder(t) <==> !Tangled(s.queue)
    ensures Ordered(t) <==> !Tangled(s.queue)
  {
    hide Overtakes, StaysOrderly, NoMorphing, Numbered, Tangled;
    OvertakesIff(s.queue);
  }

  /** Over a queue without buckets of unknown length, the marks go in order if and only if the
      queue is not tangled. */
  ghost predicate ExactOrder(s: Snapshot, t: Snapshot) {
    NoMorphing(s.queue) && Ordered(s) ==> if Tangled(s.queue) then !DestroyedInOrder(t) else Ordered(t)
  }

  /** A pass that succeeds is exact. */
  lemma PassIsExact(s: Snapshot, t: Snapshot)
    requires Advances(s, Overtakes(false, false, s.queue), t, false) && Numbered(s.marks, 0)
    ensures ExactOrder(s, t)
  {
    hide Overtakes, Advances, NoMorphing, Numbered, Tangled, Ordered, DestroyedInOrder;
    if NoMorphing(s.queue) && Ordered(s) {
      PassInOrderIff(s, t);
    }
  }

  /** What moves no mark past another afterwards does not change that. */
  lemma StaysExact(s: Snapshot, t: Snapshot, u: Snapshot)
    requires ExactOrder(s, t) && KeepsOrder(t, u)
    ensures ExactOrder(s, u)
  {
    hide NoMorphing, Tangled, Ordered, StaysOrderly, DestroyedInOrder;
    if !DestroyedInOrder(t) {
      OutOfOrderForGood(t, u);
    }
  }

  lemma {:induction false} HollowIsSafe(b: seq<Bucket>)
    requires Hollow(b)
    ensures !Overtakes(false, false, b)
  {
    if b != [] {
      assert b[0] in b;
      HollowIsSafe(b[1..]);
    }
  }

  /** A further pass over the empty buckets that a pass has left. */
  lemma NextPassIsExact(s: Snapshot, t: Snapshot, u: Snapshot)
    requires ExactOrder(s, t) && Hollow(t.queue) && Moves(t, Overtakes(false, false, t.queue), u)
    ensures ExactOrder(s, u)
  {
    hide Overtakes, ExactOrder, KeepsOrder, BreaksOrder;
    HollowIsSafe(t.queue);
    StaysExact(s, t, u);
  }

  /** Steps that keep the order, over a queue that is not tangled. */
  lemma UntangledIsExact(s: Snapshot, t: Snapshot)
    requires KeepsOrder(s, t) && !Tangled(s.queue)
    ensures ExactOrder(s, t)
  {
  }

  /** A tangled brigade holds a file for sendfile. */
  lemma TangledHasFile(b: seq<Bucket>)
    ensures Tangled(b) ==> exists k :: 0 <= k < |b| && b[k].CanSendfile()
  {
    hide MarkFileMark, MarkAhead, Hollow;
    if i: nat :| i < |b| && Gatherable(b[i]) && MarkFileMark(b[i + 1..]) {
      var rest := b[i + 1..];
      FileIsAhead(rest);
      var j: nat :| j < |rest| && rest[j].CanSendfile();
      assert rest[j] == b[i + 1 + j];
    }
  }

  /** Any pass that does not overtake keeps the order, whether it succeeds or not. */
  lemma PassInOrder(s: Snapshot, t: Snapshot)
    requires Moves(s, Overtakes(false, false, s.queue), t)
    requires Ordered(s) && !Overtakes(false, false, s.queue)
    ensures Ordered(t) && DestroyedInOrder(t)
  {
    hide Overtakes, StaysOrderly, NoMorphing;
  }

  /** Data, a mark, a file for sendfile and another mark. */
  lemma FileTangles(e: Bucket, m: Mark, file: Bucket, n: Mark)
    requires e.Length() > 0 && !e.CanSendfile() && file.CanSendfile()
    ensures Tangled([e, Meta(m), file, Meta(n)])
  {
    hide Overtakes, Tangled;
    var tail := [file, Meta(n)];
    assert [e, Meta(m), file, Meta(n)] == [e] + ([Meta(m)] + tail) && tail == [file] + [Meta(n)];
    assert [Meta(n)] == [Meta(n)] + [];
    OvertakesNext(false, false, e, [Meta(m)] + tail);
    OvertakesNext(true, false, Meta(m), tail);
    OvertakesNext(true, true, file, [Meta(n)]);
    OvertakesNext(false, true, Meta(n), []);
    OvertakesIff([e, Meta(m), file, Meta(n)]);
  }

  /** Nothing gathered and nothing held is the safest state. */
  lemma {:induction false} SafestState(gathered: bool, held: bool, b: seq<Bucket>)
    requires !Overtakes(gathered, held, b)
    ensures !Overtakes(false, false, b)
    decreases b
  {
    if b != [] {
      var e, rest := b[0], b[1..];
      if e.Meta? {
        SafestState(gathered, gathered, rest);
      } else if e.Length() == 0 {
        SafestState(gathered, held, rest);
      } else if e.CanSendfile() || e.Length() == -1 {
        SafestState(false, held, rest);
      }
    }
  }

  lemma {:induction false} OrderlyIsSafe(b: seq<Bucket>)
    requires Orderly(b)
    ensures !Overtakes(false, false, b)
  {
    if b != [] {
      OrderlyIsSafe(b[1..]);
    }
  }

  lemma {:induction false} OrderlyAt(b: seq<Bucket>)
    ensures Orderly(b) <==> forall i :: 0 <= i < |b| && b[i].Length() != 0 ==> !Overtakes(true, false, b[i + 1..])
  {
    hide Overtakes;
    if b != [] {
      OrderlyAt(b[1..]);
      assert forall i :: 0 < i < |b| ==> b[i] == b[1..][i - 1] && b[i + 1..] == b[1..][i..];
    }
  }

  /** What writes may leave of the first bucket that they have not sent whole. */
  ghost predicate LeftOf(e: Bucket, y: Bucket) {
    e.Length() > 0 && y.Data? && y.kind == e.kind && 0 < |y.content| <= |e.content|
  }

  /** What being orderly means: no pass overtakes, whatever earlier writes have left over. */
  lemma OrderlyIff(b: seq<Bucket>)
    requires NoMorphing(b)
    ensures Orderly(b) <==>
            forall i, y :: 0 <= i < |b| && LeftOf(b[i], y) ==> !Overtakes(false, false, [y] + b[i + 1..])
  {
    OrderlyAt(b);
    forall i, y | 0 <= i < |b| && LeftOf(b[i], y)
      ensures Overtakes(false, false, [y] + b[i + 1..]) == Overtakes(!y.CanSendfile(), false, b[i + 1..])
      ensures !Overtakes(true, false, b[i + 1..]) ==> !Overtakes(false, false, b[i + 1..])
    {
      hide Overtakes;
      OvertakesNext(false, false, y, b[i + 1..]);
      if !Overtakes(true, false, b[i + 1..]) {
        SafestState(true, false, b[i + 1..]);
      }
    }
    forall i | 0 <= i < |b| && b[i].Length() != 0
      ensures exists y :: LeftOf(b[i], y) && !y.CanSendfile()
    {
      assert b[i] in b;
      assert LeftOf(b[i], Data(b[i].kind, [b[i].content[0]]));
    }
  }

  /** What being orderly means, said of the brigade alone: nowhere does a bucket that is not empty
      come before a mark, a file for sendfile and another mark with nothing to gather in between. */
  lemma OrderlyMeans(b: seq<Bucket>)
    requires NoMorphing(b)
    ensures Orderly(b) <==> forall i :: 0 <= i < |b| && b[i].Length() != 0 ==> !MarkFileMark(b[i + 1..])
  {
    hide Overtakes, MarkFileMark;
    OrderlyAt(b);
    forall i | 0 <= i < |b| && b[i].Length() != 0
      ensures Overtakes(true, false, b[i + 1..]) <==> Tangled(b[i + 1..]) || MarkFileMark(b[i + 1..])
    {
      OvertakesMeans(true, false, b[i + 1..]);
    }
    forall i | 0 <= i < |b| && b[i].Length() != 0 && Tangled(b[i + 1..])
      ensures exists j :: 0 <= j < |b| && b[j].Length() != 0 && MarkFileMark(b[j + 1..])
    {
      var rest := b[i + 1..];
      var j: nat :| j < |rest| && Gatherable(rest[j]) && MarkFileMark(rest[j + 1..]);
      assert b[i + 1 + j] == rest[j] && b[i + 1 + j + 1..] == rest[j + 1..];
    }
  }

  /** A pass over what is left of an orderly brigade. */
  lemma OrderlyPass(s: Snapshot, t: Snapshot, u: Snapshot)
    requires Orderly(s.queue) && KeepsOrder(s, t) && Moves(t, Overtakes(false, false, t.queue), u)
    ensures KeepsOrder(s, u)
  {
    hide Overtakes, Orderly, StaysOrderly, Ordered;
    ThenOrderly(s.queue, t.queue);
    OrderlyIsSafe(t.queue);
    KeepsOrderOn(s, t, u);
  }

  lemma {:induction false} SteadyIsOrderly(b: seq<Bucket>)
    requires Steady(b)
    ensures Orderly(b)
    ensures !Overtakes(true, false, b) && !Overtakes(true, true, b)
  {
    if b != [] {
      assert b[0] in b;
      SteadyIsOrderly(b[1..]);
    }
  }

  /** The brigades differ in nothing but what the marks say. */
  ghost predicate Alike(b: seq<Bucket>, c: seq<Bucket>) {
    |b| == |c| && forall i :: 0 <= i < |b| ==> b[i] == c[i] || (b[i].Meta? && c[i].Meta?)
  }

  lemma {:induction false} AlikeOvertakes(gathered: bool, held: bool, b: seq<Bucket>, c: seq<Bucket>)
    requires Alike(b, c) && Overtakes(gathered, held, b)
    ensures Overtakes(gathered, held, c)
    decreases b
  {
    var e, rest, after := b[0], b[1..], c[1..];
    assert Alike(rest, after);
    assert b == [e] + rest && c == [c[0]] + after;
    hide Overtakes;
    OvertakesNext(gathered, held, e, rest);
    OvertakesNext(gathered, held, c[0], after);
    forall g, h | Overtakes(g, h, rest)
      ensures Overtakes(g, h, after)
    {
      AlikeOvertakes(g, h, rest, after);
    }
  }

  /** Offsets and numbers do not matter to what a pass does. */
  lemma AlikeOrderly(b: seq<Bucket>, c: seq<Bucket>)
    requires Alike(b, c) && Orderly(b)
    ensures Orderly(c)
  {
    hide Overtakes;
    OrderlyAt(b);
    OrderlyAt(c);
    forall i | 0 <= i < |c| && c[i].Length() != 0 && Overtakes(true, false, c[i + 1..])
      ensures false
    {
      assert Alike(c[i + 1..], b[i + 1..]) && b[i].Length() != 0;
      AlikeOvertakes(true, false, c[i + 1..], b[i + 1..]);
    }
  }

  lemma StampedAlike(b: seq<Bucket>, offset: nat, first: nat)
    ensures Alike(b, Stamped(b, offset, first))
  {
    hide Stamped;
    StampedLength(b, offset, first);
    forall i | 0 <= i < |b|
      ensures b[i] == Stamped(b, offset, first)[i] || (b[i].Meta? && Stamped(b, offset, first)[i].Meta?)
    {
      StampedAt(b, offset, first, i);
    }
  }

  /** More buckets behind do not stop a pass from overtaking. */
  lemma {:induction false} OvertakesLonger(gathered: bool, held: bool, b: seq<Bucket>, x: seq<Bucket>)
    requires Overtakes(gathered, held, b)
    ensures Overtakes(gathered, held, b + x)
    decreases b
  {
    var e, rest := b[0], b[1..];
    assert b == [e] + rest && b + x == [e] + (rest + x);
    hide Overtakes;
    OvertakesNext(gathered, held, e, rest);
    OvertakesNext(gathered, held, e, rest + x);
    forall g, h | Overtakes(g, h, rest)
      ensures Overtakes(g, h, rest + x)
    {
      OvertakesLonger(g, h, rest, x);
    }
  }

  /** Both parts of an orderly brigade are orderly. */
  lemma {:induction false} OrderlyParts(a: seq<Bucket>, b: seq<Bucket>)
    requires Orderly(a + b)
    ensures Orderly(a) && Orderly(b)
  {
    hide Overtakes;
    if a == [] {
      assert a + b == b;
    } else {
      assert (a + b)[1..] == a[1..] + b;
      OrderlyParts(a[1..], b);
      if Overtakes(true, false, a[1..]) {
        OvertakesLonger(true, false, a[1..], b);
      }
    }
  }

  /** Empty buckets in front do not matter to what a pass over the rest can do. */
  lemma {:induction false} OrderlyBehindHollow(a: seq<Bucket>, b: seq<Bucket>)
    requires Hollow(a)
    ensures Orderly(a + b) <==> Orderly(b)
  {
    if a == [] {
      assert a + b == b;
    } else {
      assert (a + b)[1..] == a[1..] + b && a[0] in a;
      OrderlyBehindHollow(a[1..], b);
    }
  }

  /** Deleting an empty bucket with only empty buckets in front of it. */
  lemma DeletedOrderly(b: seq<Bucket>, i: nat)
    requires i < |b| && b[i].Length() == 0 && Hollow(b[..i])
    ensures StaysOrderly(b, Without(b, i))
  {
    forall x | Orderly(b + x)
      ensures Orderly(Without(b, i) + x)
    {
      assert b + x == b[..i] + (b[i..] + x) && Without(b, i) + x == b[..i] + (b[i + 1..] + x);
      assert (b[i..] + x)[1..] == b[i + 1..] + x;
      OrderlyBehindHollow(b[..i], b[i..] + x);
      OrderlyBehindHollow(b[..i], b[i + 1..] + x);
    }
  }

  lemma WithoutMembers(b: seq<Bucket>, i: nat)
    requires i < |b|
    ensures forall e <- Without(b, i) :: e in b
  {
  }

  /** A bucket that carries no mark, or none of an earlier one in front of it, goes in order. */
  lemma DeletedInOrder(s: Snapshot, i: nat)
    requires i < |s.queue| && s.queue[i].Length() == 0 && Hollow(s.queue[..i])
    requires s.queue[i].Meta? ==> Marks(s.queue[..i]) == []
    ensures KeepsOrder(s, Deleted(s, i))
  {
    hide StaysOrderly, Overtakes, Marks, Hollow;
    var t := Deleted(s, i);
    DeletedOrderly(s.queue, i);
    WithoutMembers(s.queue, i);
    var front, back := Marks(s.queue[..i]), Marks(s.queue[i + 1..]);
    var gone := if s.queue[i].Meta? then [s.queue[i].mark] else [];
    MarksAround(s.queue, i);
    MarksConcat(s.queue[..i], s.queue[i + 1..]);
    assert MarksOf(t.destroyed) == MarksOf(s.destroyed) + gone;
    if s.queue[i].Meta? {
      assert front + gone + back == gone + back && front + back == back;
      Associative(MarksOf(s.destroyed), gone, back);
    } else {
      assert front + gone + back == front + back;
    }
  }

  /** A mark that goes before an earlier one. */
  lemma DeletedOutOfOrder(s: Snapshot, i: nat)
    requires i < |s.queue| && s.queue[i].Meta? && Marks(s.queue[..i]) != []
    ensures BreaksOrder(s, Deleted(s, i))
  {
    hide Marks, Overtakes;
    var t := Deleted(s, i);
    WithoutMembers(s.queue, i);
    MarksAround(s.queue, i);
    assert MarksOf(t.destroyed) == MarksOf(s.destroyed) + [s.queue[i].mark];
    if Numbered(s.marks, 0) && Ordered(s) {
      var n, front := |s.destroyed|, Marks(s.queue[..i]);
      assert s.marks[n] == front[0] && s.marks[n + |front|] == s.queue[i].mark;
      assert MarksOf(t.destroyed)[n] == s.queue[i].mark;
    }
  }

  /** What a pass is about to do that has `front` behind it and `tail` ahead. */
  ghost predicate Fate(front: seq<Bucket>, tail: seq<Bucket>) {
    Overtakes(!Hollow(front), Late(front) != [], tail)
  }

  lemma LateNone()
    ensures Late([]) == [] && Hollow([])
  {
  }

  lemma LateHead(b: seq<Bucket>)
    requires b != [] && !Hollow(b)
    ensures Late(b) == Late(b[1..])
  {
  }

  lemma {:induction false} LateNext(b: seq<Bucket>, e: Bucket)
    ensures Hollow(b + [e]) <==> Hollow(b) && e.Length() == 0
    ensures Late(b + [e]) == if e.Length() != 0 then [] else Late(b) + (if e.Meta? then [e.mark] else [])
  {
    assert (b + [e])[|b|] == e;
    assert forall x :: x in b + [e] <==> x in b || x == e;
    MarksConcat(b, [e]);
    assert [e][1..] == [];
    if !Hollow(b) {
      assert b != [] && (b + [e])[1..] == b[1..] + [e];
      LateNext(b[1..], e);
    } else if e.Length() != 0 {
      LateBehind(b, e);
    }
  }

  lemma {:induction false} LateBehind(b: seq<Bucket>, e: Bucket)
    requires e.Length() != 0
    ensures Late(b + [e]) == []
  {
    assert (b + [e])[|b|] == e && !Hollow(b + [e]);
    if b == [] {
      assert (b + [e])[1..] == [];
    } else {
      assert (b + [e])[1..] == b[1..] + [e];
      LateBehind(b[1..], e);
    }
  }

  lemma OvertakesNext(gathered: bool, held: bool, e: Bucket, rest: seq<Bucket>)
    ensures ([e] + rest)[1..] == rest
    ensures e.Length() == 0 && e.Data? ==> Overtakes(gathered, held, [e] + rest) == Overtakes(gathered, held, rest)
    ensures e.Meta? ==>
      Overtakes(gathered, held, [e] + rest)
        == if gathered then Overtakes(true, true, rest) else held || Overtakes(false, false, rest)
    ensures e.CanSendfile() ==> Overtakes(gathered, held, [e] + rest) == Overtakes(false, held, rest)
    ensures e.Length() > 0 && !e.CanSendfile() ==> Overtakes(gathered, held, [e] + rest) == Overtakes(true, false, rest)
    ensures e.Length() == -1 ==>
      Overtakes(gathered, held, [e] + rest)
        == (Overtakes(false, held, rest) || Overtakes(gathered, held, rest) || Overtakes(true, false, rest))
  {
    assert ([e] + rest)[1..] == rest;
  }

  /** Passing over an empty bucket behind something gathered. */
  lemma FatePassed(front: seq<Bucket>, e: Bucket, rest: seq<Bucket>)
    requires !Hollow(front) && e.Length() == 0
    ensures Fate(front + [e], rest) == Fate(front, [e] + rest)
  {
    hide Late, Overtakes;
    LateNext(front, e);
    OvertakesNext(true, Late(front) != [], e, rest);
  }

  /** Deleting an empty bucket with nothing gathered. */
  lemma FateDeleted(front: seq<Bucket>, e: Bucket, rest: seq<Bucket>)
    requires Hollow(front) && e.Length() == 0
    ensures if e.Meta? && Marks(front) != [] then Fate(front, [e] + rest)
            else Fate(front, rest) == Fate(front, [e] + rest)
  {
    hide Overtakes;
    OvertakesNext(false, Late(front) != [], e, rest);
  }

  lemma FateGathered(front: seq<Bucket>, e: Bucket, rest: seq<Bucket>)
    requires e.Length() > 0 && !e.CanSendfile()
    ensures Fate(front + [e], rest) == Fate(front, [e] + rest)
  {
    hide Late, Overtakes;
    LateNext(front, e);
    OvertakesNext(!Hollow(front), Late(front) != [], e, rest);
  }

  lemma FateSendfile(front: seq<Bucket>, e: Bucket, rest: seq<Bucket>)
    requires Hollow(front) && e.CanSendfile()
    ensures Fate(front, rest) == Fate(front, [e] + rest)
  {
    hide Late, Overtakes;
    OvertakesNext(false, Late(front) != [], e, rest);
  }

  /** Sending what is gathered when a bucket that is not empty comes next, or none. */
  lemma FateFlushed(front: seq<Bucket>, sent: seq<Bucket>, tail: seq<Bucket>)
    requires Hollow(sent) && Late(sent) == Late(front)
    requires tail == [] || tail[0].Length() != 0
    ensures Fate(sent, tail) ==> Fate(front, tail)
    ensures NoMorphing(tail) ==> Fate(sent, tail) == Fate(front, tail)
  {
    hide Late;
    if tail != [] {
      assert tail[0] in tail;
    }
  }

  /** Reading a bucket that is not for sendfile. */
  lemma OvertakesRead(gathered: bool, held: bool, e: Bucket, pieces: seq<Bucket>, rest: seq<Bucket>)
    requires ReadInto(e, pieces) && e.Length() != 0 && !e.CanSendfile()
    ensures Overtakes(gathered, held, pieces + rest) ==> Overtakes(gathered, held, [e] + rest)
    ensures e.Length() != -1 ==> Overtakes(gathered, held, pieces + rest) == Overtakes(gathered, held, [e] + rest)
  {
    hide Overtakes;
    ReadPieces(e, pieces);
    OvertakesNext(gathered, held, e, rest);
    if |pieces| == 2 {
      assert pieces + rest == [pieces[0]] + ([pieces[1]] + rest);
      OvertakesNext(gathered, held, pieces[0], [pieces[1]] + rest);
      OvertakesNext(true, false, pieces[1], rest);
      if !Overtakes(true, false, rest) {
        SafestState(true, false, rest);
      }
    } else {
      assert pieces == [pieces[0]];
      OvertakesNext(gathered, held, pieces[0], rest);
    }
  }

  lemma FateRead(front: seq<Bucket>, e: Bucket, pieces: seq<Bucket>, rest: seq<Bucket>)
    requires ReadInto(e, pieces) && e.Length() != 0 && !e.CanSendfile()
    ensures Fate(front, pieces + rest) ==> Fate(front, [e] + rest)
    ensures e.Length() != -1 ==> Fate(front, pieces + rest) == Fate(front, [e] + rest)
  {
    OvertakesRead(!Hollow(front), Late(front) != [], e, pieces, rest);
  }

  lemma {:induction false} OvertakesReadBehind(gathered: bool, held: bool, a: seq<Bucket>,
                                               e: Bucket, pieces: seq<Bucket>, rest: seq<Bucket>)
    requires ReadInto(e, pieces) && e.Length() != 0 && !e.CanSendfile()
    requires Overtakes(gathered, held, a + pieces + rest)
    ensures Overtakes(gathered, held, a + [e] + rest)
    decreases a
  {
    if a == [] {
      assert a + pieces + rest == pieces + rest && a + [e] + rest == [e] + rest;
      OvertakesRead(gathered, held, e, pieces, rest);
    } else {
      var x, b := a[0], a[1..];
      assert a + pieces + rest == [x] + (b + pieces + rest) && a + [e] + rest == [x] + (b + [e] + rest);
      hide Overtakes;
      OvertakesNext(gathered, held, x, b + pieces + rest);
      OvertakesNext(gathered, held, x, b + [e] + rest);
      forall g, h | Overtakes(g, h, b + pieces + rest)
        ensures Overtakes(g, h, b + [e] + rest)
      {
        OvertakesReadBehind(g, h, b, e, pieces, rest);
      }
    }
  }

  lemma {:induction false} OrderlyRead(a: seq<Bucket>, e: Bucket, pieces: seq<Bucket>, rest: seq<Bucket>)
    requires ReadInto(e, pieces) && e.Length() != 0 && !e.CanSendfile()
    requires Orderly(a + [e] + rest)
    ensures Orderly(a + pieces + rest)
  {
    if a == [] {
      assert a + pieces + rest == pieces + rest && a + [e] + rest == [e] + rest && ([e] + rest)[1..] == rest;
      if |pieces| == 2 {
        OvertakesNext(true, false, pieces[1], rest);
        SafestState(true, false, rest);
        assert (pieces + rest)[1..] == [pieces[1]] + rest;
        assert ([pieces[1]] + rest)[1..] == rest;
      } else {
        assert (pieces + rest)[1..] == rest;
      }
    } else {
      assert (a + pieces + rest)[1..] == a[1..] + pieces + rest && (a + [e] + rest)[1..] == a[1..] + [e] + rest;
      OrderlyRead(a[1..], e, pieces, rest);
      if Overtakes(true, false, a[1..] + pieces + rest) {
        OvertakesReadBehind(true, false, a[1..], e, pieces, rest);
      }
    }
  }

  lemma ReadPieces(e: Bucket, pieces: seq<Bucket>)
    requires ReadInto(e, pieces)
    ensures pieces[0].content == [] ==> |pieces| == 1 && e.content == []
    ensures AllData(pieces) && pieces[0].Length() >= 0 && !pieces[0].CanSendfile()
    ensures |pieces| == 2 && e.Length() != -1 ==> pieces[1].Length() > 0
    ensures |pieces| == 2 && !e.CanSendfile() ==> !pieces[1].CanSendfile()
    ensures e.Data?
    ensures forall x <- pieces :: x.Length() == -1 ==> e.Length() == -1
  {
    if |pieces| == 1 {
      assert pieces == [pieces[0]];
      PayloadOne(pieces[0]);
    } else {
      assert pieces == [pieces[0], pieces[1]];
      PayloadTwo(pieces[0], pieces[1]);
    }
  }

  lemma SplicedBefore(b: seq<Bucket>, i: nat, y: seq<Bucket>, x: seq<Bucket>)
    requires i < |b|
    ensures var rest := b[i + 1..] + x;
      && b + x == b[..i] + [b[i]] + rest == b[..i] + ([b[i]] + rest)
      && Spliced(b, i, y) + x == b[..i] + y + rest == b[..i] + (y + rest)
  {
  }

  /** Pieces of `b[i]` in its place have a length if it had one. */
  lemma SplicedSettled(b: seq<Bucket>, i: nat, y: seq<Bucket>)
    requires i < |b|
    requires forall e <- y :: e.Length() == -1 ==> b[i].Length() == -1
    ensures NoMorphing(b) ==> NoMorphing(Spliced(b, i, y))
  {
    assert b[i] in b;
    assert forall e <- Spliced(b, i, y) :: e in b || e in y;
  }

  /** A read keeps the order of the marks. */
  lemma ReadInOrder(s: Snapshot, i: nat, pieces: seq<Bucket>)
    requires i < |s.queue| && ReadInto(s.queue[i], pieces)
    requires s.queue[i].Length() != 0 && !s.queue[i].CanSendfile()
    ensures KeepsOrder(s, s.(queue := Spliced(s.queue, i, pieces)))
  {
    hide Marks, Overtakes, Orderly, NoMorphing, ReadInto, Spliced;
    var e := s.queue[i];
    ReadPieces(e, pieces);
    SplicedMarks(s.queue, i, pieces);
    SplicedSettled(s.queue, i, pieces);
    var a, rest := s.queue[..i], s.queue[i + 1..];
    forall x | Orderly(s.queue + x)
      ensures Orderly(Spliced(s.queue, i, pieces) + x)
    {
      SplicedBefore(s.queue, i, pieces, x);
      OrderlyRead(a, e, pieces, rest + x);
    }
  }

  lemma OrderlySent(e: Bucket, y: seq<Bucket>, rest: seq<Bucket>)
    requires e.Length() > 0 && |y| <= 1
    requires Orderly([e] + rest)
    ensures Orderly(y + rest)
  {
    assert ([e] + rest)[1..] == rest;
    if y == [] {
      assert y + rest == rest;
    } else {
      assert (y + rest)[1..] == rest;
    }
  }

  /** So does sending part of the first bucket that is not empty, or all of it. */
  lemma SentInOrder(s: Snapshot, i: nat, y: seq<Bucket>)
    requires i < |s.queue| && s.queue[i].Length() > 0 && Hollow(s.queue[..i])
    requires |y| <= 1
    requires y != [] ==> y[0].Data? && y[0].kind == s.queue[i].kind && 0 < |y[0].content| <= |s.queue[i].content|
    ensures KeepsOrder(s, s.(queue := Spliced(s.queue, i, y)))
  {
    hide Marks, Overtakes, Orderly, Spliced, Hollow, NoMorphing;
    var e, a, rest := s.queue[i], s.queue[..i], s.queue[i + 1..];
    SplicedMarks(s.queue, i, y);
    SplicedSettled(s.queue, i, y);
    forall x | Orderly(s.queue + x)
      ensures Orderly(Spliced(s.queue, i, y) + x)
    {
      SplicedBefore(s.queue, i, y, x);
      OrderlyBehindHollow(a, [e] + (rest + x));
      OrderlyBehindHollow(a, y + (rest + x));
      OrderlySent(e, y, rest + x);
    }
  }
}
