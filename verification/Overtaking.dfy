/** A brigade whose metadata is destroyed out of order, and the pass that does it. */
module Overtaking {
  import opened Apr
  import opened Buckets
  import opened FlushRule
  import opened OutputHistory
  import opened MarkOrder
  import opened OutputSpec
  import opened Network
  import opened Connections
  import opened OutputFilter

  /** Data, a mark, a file that goes out with sendfile, and another mark. */
  function Overtaken(first: Mark, file: seq<Byte>, second: Mark): seq<Bucket> {
    [Data(Memory, [1]), Meta(first), Data(File(true), file), Meta(second)]
  }

  lemma OvertakenStamped(first: Mark, file: seq<Byte>, second: Mark)
    ensures var b := Stamped(Overtaken(first, file, second), 0, 0);
      && b == Overtaken(Mark(first.kind, 1, 0), file, Mark(second.kind, 1 + |file|, 1))
      && Marks(b) == [Mark(first.kind, 1, 0), Mark(second.kind, 1 + |file|, 1)]
  {
    var b := Overtaken(first, file, second);
    var m, n := Mark(first.kind, 1, 0), Mark(second.kind, 1 + |file|, 1);
    assert b[3..] == [b[3]] && b[2..][1..] == b[3..] && b[1..][1..] == b[2..] && [b[3]][1..] == [];
    assert Stamped(b[3..], 1 + |file|, 1) == [Meta(n)];
    assert Stamped(b[2..], 1, 1) == [b[2], Meta(n)];
    assert Stamped(b[1..], 1, 0) == [Meta(m), b[2], Meta(n)];
    assert Marks([Meta(n)]) == [n];
    assert [b[2], Meta(n)][1..] == [Meta(n)] && Marks([b[2], Meta(n)]) == [n];
    assert [Meta(m), b[2], Meta(n)][1..] == [b[2], Meta(n)] && Marks([Meta(m), b[2], Meta(n)]) == [m, n];
    assert [b[0], Meta(m), b[2], Meta(n)][1..] == [Meta(m), b[2], Meta(n)];
  }

  lemma FirstOfTwo<T>(gone: seq<T>, left: multiset<T>, x: T, y: T)
    requires multiset(gone) + left == multiset{x, y} && gone != []
    ensures gone[0] in multiset{x, y} && |gone| <= 2
  {
    assert gone[0] in multiset(gone) + left;
    assert |multiset(gone) + left| == |gone| + |left|;
  }

  lemma BothOfTwo<T>(z: T, left: multiset<T>, x: T, y: T)
    requires multiset{x, z} + left == multiset{x, y}
    ensures z == y
  {
    assert multiset{x, z} + left == multiset{x} + (multiset{z} + left);
    assert multiset{x, y} == multiset{x} + multiset{y};
    assert z in multiset{z} + left;
    assert multiset{z} + left == multiset{y};
  }

  lemma SecondOfTwo<T>(gone: seq<T>, left: multiset<T>, x: T, y: T)
    requires multiset(gone) + left == multiset{x, y} && !(gone <= [x, y])
    ensures gone != [] && gone[0] == y
  {
    FirstOfTwo(gone, left, x, y);
    if gone[0] == x && |gone| == 2 {
      assert gone == [x, gone[1]];
      BothOfTwo(gone[1], left, x, y);
    }
  }

  lemma OvertakenTangles(m: Mark, file: seq<Byte>, n: Mark)
    requires |file| >= MIN_SENDFILE_BYTES
    ensures Tangled(Overtaken(m, file, n)) && NoMorphing(Overtaken(m, file, n))
  {
    hide Tangled;
    FileTangles(Data(Memory, [1]), m, Data(File(true), file), n);
  }

  lemma OvertakenGoesFirst(o: Snapshot, m: Mark, file: seq<Byte>, n: Mark, t: Snapshot)
    requires o.queue == Overtaken(m, file, n) && |file| >= MIN_SENDFILE_BYTES
    requires o.marks == Marks(o.queue) == [m, n] && Numbered([m, n], 0) && o.destroyed == []
    requires Advances(o, Overtakes(false, false, o.queue), t, false) && Balanced(t, 0) && t.marks == o.marks
    ensures t.destroyed != [] && t.destroyed[0].mark == n
  {
    hide Marks, Overtakes, Advances, Tangled, Overtaken, NoMorphing, Payload, Placed;
    OvertakenTangles(m, file, n);
    PassInOrderIff(o, t);
    SecondOfTwo(MarksOf(t.destroyed), multiset(Marks(t.queue)), m, n);
  }

  lemma InitiallyBalanced(s: Snapshot)
    requires s == Snapshot(false, false, [], [], [], [], [])
    ensures Balanced(s, 0)
  {
  }

  lemma NothingMarked()
    ensures Marks([]) == []
  {
  }

  /** The order fails here: every pass that succeeds over such a brigade destroys the second mark
      first. With two EOR buckets, the later request is logged and freed before the earlier. */
  method WitnessOfOvertaking(conf: Config, sock: Socket, first: MetaKind, file: seq<Byte>, second: MetaKind)
    returns (c: Connection, bb: Brigade, rv: Status)
    requires conf.maxIovec >= 1 && sock.wire == [] && sock.timeout == 0
    requires |file| >= MIN_SENDFILE_BYTES
    modifies sock`wire, sock`ready, sock`traffic
    ensures c.marks == [Mark(first, 1, 0), Mark(second, 1 + |file|, 1)]
    ensures rv == Success ==> c.destroyed != [] && c.destroyed[0].mark == c.marks[1]
  {
    hide Payload, Marks, Stamped, Overtakes, Balanced, Moves, Advances, Hollow, Overtaken;
    c := new Connection(conf, sock);
    bb := new Brigade(Overtaken(Mark(first, 0, 0), file, Mark(second, 0, 0)));
    OfferedBalanced(c.Snap([]), Some(bb.buckets)) by {
      InitiallyBalanced(c.Snap([]));
    }
    OvertakenStamped(Mark(first, 0, 0), file, Mark(second, 0, 0));
    Submit(c, bb);
    ghost var o := c.Snap(bb.buckets);
    NothingMarked();
    assert c.buffered.buckets + bb.buckets == bb.buckets;
    rv := SendBrigade(c, bb);
    if rv == Success {
      OvertakenGoesFirst(o, c.marks[0], file, c.marks[1], c.Snap(bb.buckets));
    }
  }
}
