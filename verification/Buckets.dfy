/** Buckets, brigades, and the byte stream that a brigade stands for.

    A brigade interleaves payload with metadata. Every metadata bucket carries a mark: what it
    announces, the offset in the connection's output stream at which it was submitted, and its
    number among all the metadata submitted there. No branch of the filters reads an offset or
    a number; the ordering theorems do. */
module Buckets {

  type Byte = bv8

  /** `Memory` is the heap, pool, transient and immortal types; `Mapped` is any other type
      whose bytes are at hand; a `Morphing` bucket has length -1 until it is read. */
  datatype DataKind = Memory | Mapped | File(sendfileEnabled: bool) | Morphing

  datatype MetaKind = Flush | Eor(request: nat) | Eoc | Eos | OtherMeta

  datatype Mark = Mark(kind: MetaKind, at: nat, nth: nat)

  const MIN_SENDFILE_BYTES := 256

  datatype Bucket = Data(kind: DataKind, content: seq<Byte>) | Meta(mark: Mark)
  {
    /** The `length` field of the bucket: -1 stands for `(apr_size_t)-1`. */
    function Length(): int {
      if Meta? then 0 else if kind.Morphing? then -1 else |content|
    }

    function Bytes(): seq<Byte> {
      if Data? then content else []
    }

    predicate InMemory() {
      Data? && kind.Memory?
    }

    predicate CanSendfile() {
      Data? && kind.File? && |content| >= MIN_SENDFILE_BYTES && kind.sendfileEnabled
    }
  }

  /** The bytes of a brigade, in order. */
  function Payload(b: seq<Bucket>): seq<Byte> {
    if b == [] then [] else b[0].Bytes() + Payload(b[1..])
  }

  /** The marks of a brigade, in order. */
  function Marks(b: seq<Bucket>): seq<Mark> {
    if b == [] then [] else (if b[0].Meta? then [b[0].mark] else []) + Marks(b[1..])
  }

  /** The contents of the buckets of non-zero length, in order. */
  function Filled(b: seq<Bucket>): seq<seq<Byte>> {
    if b == [] then [] else (if b[0].Length() != 0 then [b[0].Bytes()] else []) + Filled(b[1..])
  }

  /** The concatenation of the pieces. */
  function Flat(pieces: seq<seq<Byte>>): seq<Byte> {
    if pieces == [] then [] else pieces[0] + Flat(pieces[1..])
  }

  /** Every bucket has been read: none is of unknown length. */
  ghost predicate Settled(b: seq<Bucket>) {
    forall e :: e in b ==> e.Length() >= 0
  }

  /** Every bucket has length zero. */
  ghost predicate Hollow(b: seq<Bucket>) {
    forall e :: e in b ==> e.Length() == 0
  }

  /** With `sent` bytes of the stream gone and `ahead` bytes queued before `b`, every mark of
      `b` still sits at its own offset; it can only be late once nothing is ahead of it. */
  ghost predicate Placed(b: seq<Bucket>, sent: nat, ahead: nat) {
    b != [] ==>
      && (b[0].Meta? ==> b[0].mark.at <= sent + ahead && (ahead > 0 ==> b[0].mark.at == sent + ahead))
      && Placed(b[1..], sent, ahead + |b[0].Bytes()|)
  }

  /** How many marks the bucket itself carries. */
  function MarkCount(e: Bucket): nat {
    if e.Meta? then 1 else 0
  }

  /** The brigade with each mark set to its offset and number, when `b` begins at `offset` and
      its first mark is number `first`. */
  function Stamped(b: seq<Bucket>, offset: nat, first: nat): seq<Bucket> {
    if b == [] then []
    else [if b[0].Meta? then Meta(Mark(b[0].mark.kind, offset, first)) else b[0]]
         + Stamped(b[1..], offset + |b[0].Bytes()|, first + MarkCount(b[0]))
  }

  function Without(b: seq<Bucket>, i: nat): seq<Bucket>
    requires i < |b|
  {
    b[..i] + b[i + 1..]
  }

  lemma PayloadOne(e: Bucket)
    ensures Payload([e]) == e.Bytes()
  {
  }

  lemma PayloadTwo(e: Bucket, f: Bucket)
    ensures Payload([e, f]) == e.Bytes() + f.Bytes()
  {
    assert [e, f][1..] == [f];
    PayloadOne(f);
  }

  lemma Associative<T>(x: seq<T>, y: seq<T>, z: seq<T>)
    ensures x + (y + z) == (x + y) + z
  {
  }

  lemma PayloadNone()
    ensures Payload([]) == []
  {
  }

  lemma PayloadCons(b: seq<Bucket>)
    requires b != []
    ensures Payload(b) == b[0].Bytes() + Payload(b[1..])
  {
  }

  lemma MarksCons(b: seq<Bucket>)
    requires b != []
    ensures Marks(b) == (if b[0].Meta? then [b[0].mark] else []) + Marks(b[1..])
  {
  }

  lemma FilledCons(b: seq<Bucket>)
    requires b != []
    ensures Filled(b) == (if b[0].Length() != 0 then [b[0].Bytes()] else []) + Filled(b[1..])
  {
  }

  lemma {:induction false} PayloadConcat(a: seq<Bucket>, b: seq<Bucket>)
    ensures Payload(a + b) == Payload(a) + Payload(b)
  {
    hide Payload;
    if a == [] {
      PayloadNone();
      assert a + b == b;
    } else {
      PayloadCons(a);
      PayloadCons(a + b);
      assert (a + b)[1..] == a[1..] + b;
      PayloadConcat(a[1..], b);
      Associative(a[0].Bytes(), Payload(a[1..]), Payload(b));
    }
  }

  lemma {:induction false} MarksConcat(a: seq<Bucket>, b: seq<Bucket>)
    ensures Marks(a + b) == Marks(a) + Marks(b)
  {
    if a == [] {
      assert a + b == b;
    } else {
      hide Marks;
      MarksCons(a);
      MarksCons(a + b);
      assert (a + b)[1..] == a[1..] + b;
      MarksConcat(a[1..], b);
      Associative(if a[0].Meta? then [a[0].mark] else [], Marks(a[1..]), Marks(b));
    }
  }

  lemma {:induction false} FilledConcat(a: seq<Bucket>, b: seq<Bucket>)
    ensures Filled(a + b) == Filled(a) + Filled(b)
  {
    if a == [] {
      assert a + b == b;
    } else {
      hide Filled;
      FilledCons(a);
      FilledCons(a + b);
      assert (a + b)[1..] == a[1..] + b;
      FilledConcat(a[1..], b);
      Associative(if a[0].Length() != 0 then [a[0].Bytes()] else [], Filled(a[1..]), Filled(b));
    }
  }

  /** The payload around bucket `i`. */
  lemma PayloadAround(b: seq<Bucket>, i: nat)
    requires i < |b|
    ensures Payload(b) == Payload(b[..i]) + b[i].Bytes() + Payload(b[i + 1..])
  {
    hide Payload;
    PayloadConcat(b[..i], b[i..]);
    PayloadCons(b[i..]);
    assert b == b[..i] + b[i..] && b[i..][1..] == b[i + 1..];
  }

  /** The marks around bucket `i`. */
  lemma MarksAround(b: seq<Bucket>, i: nat)
    requires i < |b|
    ensures Marks(b) == Marks(b[..i]) + (if b[i].Meta? then [b[i].mark] else []) + Marks(b[i + 1..])
  {
    hide Marks;
    MarksConcat(b[..i], b[i..]);
    MarksCons(b[i..]);
    assert b == b[..i] + b[i..] && b[i..][1..] == b[i + 1..];
  }

  lemma {:induction false} PlacedConcat(a: seq<Bucket>, b: seq<Bucket>, sent: nat, ahead: nat)
    ensures Placed(a + b, sent, ahead) <==> Placed(a, sent, ahead) && Placed(b, sent, ahead + |Payload(a)|)
  {
    if a == [] {
      assert a + b == b;
    } else {
      assert (a + b)[1..] == a[1..] + b;
      PlacedConcat(a[1..], b, sent, ahead + |a[0].Bytes()|);
    }
  }

  /** Sending bytes that are queued ahead of `b` leaves every mark of `b` in place. */
  lemma {:induction false} PlacedShift(b: seq<Bucket>, sent: nat, ahead: nat, n: nat)
    requires Placed(b, sent, ahead) && n <= ahead
    ensures Placed(b, sent + n, ahead - n)
  {
    if b != [] {
      PlacedShift(b[1..], sent, ahead + |b[0].Bytes()|, n);
    }
  }

  lemma {:induction false} FlatConcat(a: seq<seq<Byte>>, b: seq<seq<Byte>>)
    ensures Flat(a + b) == Flat(a) + Flat(b)
  {
    if a == [] {
      assert a + b == b;
    } else {
      assert (a + b)[1..] == a[1..] + b;
      FlatConcat(a[1..], b);
    }
  }

  /** What the non-empty buckets hold is the payload. */
  lemma {:induction false} FilledIsPayload(b: seq<Bucket>)
    requires Settled(b)
    ensures Flat(Filled(b)) == Payload(b)
    ensures forall piece :: piece in Filled(b) ==> piece != []
    ensures Filled(b) == [] <==> Hollow(b)
    ensures Payload(b) == [] <==> Hollow(b)
  {
    if b != [] {
      assert b[0] in b && b == [b[0]] + b[1..];
      FilledIsPayload(b[1..]);
      if b[0].Length() != 0 {
        hide Filled, Payload;
        FilledCons(b);
        PayloadCons(b);
        assert Filled(b)[1..] == Filled(b[1..]);
      } else {
        assert Filled(b) == Filled(b[1..]);
      }
    }
  }

  lemma {:induction false} StampedKeepsPayload(b: seq<Bucket>, offset: nat, first: nat)
    ensures Payload(Stamped(b, offset, first)) == Payload(b)
  {
    if b != [] {
      var rest := Stamped(b[1..], offset + |b[0].Bytes()|, first + MarkCount(b[0]));
      StampedKeepsPayload(b[1..], offset + |b[0].Bytes()|, first + MarkCount(b[0]));
      assert Stamped(b, offset, first)[1..] == rest;
    }
  }

  /** Stamping sets each offset to the number of payload bytes in front and each number to the
      number of marks in front, and nothing else. */
  lemma {:induction false} StampedAt(b: seq<Bucket>, offset: nat, first: nat, i: nat)
    requires i < |b|
    ensures |Stamped(b, offset, first)| == |b|
    ensures Stamped(b, offset, first)[i] ==
            if b[i].Meta? then Meta(Mark(b[i].mark.kind, offset + |Payload(b[..i])|, first + |Marks(b[..i])|))
            else b[i]
  {
    StampedLength(b, offset, first);
    if i > 0 {
      StampedAt(b[1..], offset + |b[0].Bytes()|, first + MarkCount(b[0]), i - 1);
      assert b[..i][1..] == b[1..][..i - 1];
      PayloadCons(b[..i]);
      MarksCons(b[..i]);
    }
  }

  lemma {:induction false} StampedLength(b: seq<Bucket>, offset: nat, first: nat)
    ensures |Stamped(b, offset, first)| == |b|
  {
    if b != [] {
      StampedLength(b[1..], offset + |b[0].Bytes()|, first + MarkCount(b[0]));
    }
  }

  lemma {:induction false} StampedPlaced(b: seq<Bucket>, offset: nat, first: nat, sent: nat)
    requires sent <= offset
    ensures Placed(Stamped(b, offset, first), sent, offset - sent)
  {
    if b != [] {
      StampedPlaced(b[1..], offset + |b[0].Bytes()|, first + MarkCount(b[0]), sent);
    }
  }

  /** The marks are numbered from `first` on. */
  ghost predicate Numbered(ms: seq<Mark>, first: nat) {
    forall i :: 0 <= i < |ms| ==> ms[i].nth == first + i
  }

  lemma {:induction false} StampedNumbered(b: seq<Bucket>, offset: nat, first: nat)
    ensures Numbered(Marks(Stamped(b, offset, first)), first)
  {
    if b != [] {
      var rest := Stamped(b[1..], offset + |b[0].Bytes()|, first + MarkCount(b[0]));
      StampedNumbered(b[1..], offset + |b[0].Bytes()|, first + MarkCount(b[0]));
      assert Stamped(b, offset, first)[1..] == rest;
    }
  }

  lemma {:induction false} HollowHasNoPayload(b: seq<Bucket>)
    requires Hollow(b)
    ensures Payload(b) == []
  {
    if b != [] {
      assert b[0] in b;
      HollowHasNoPayload(b[1..]);
    }
  }

  lemma {:induction false} MarkIn(b: seq<Bucket>, i: nat)
    requires i < |b| && b[i].Meta?
    ensures b[i].mark in Marks(b)
  {
    if i > 0 {
      MarkIn(b[1..], i - 1);
    }
  }
}
