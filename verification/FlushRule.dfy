/** The decision whether a brigade must be flushed, may be sent, or can be kept for later. */
module FlushRule {
  import opened Buckets

  /** The server settings that the output filter reads. A negative pipelining limit means
      that there is none. `maxIovec` is the platform's `APR_MAX_IOVEC_SIZE`. */
  datatype Config = Config(flushMaxThreshold: nat, flushMaxPipelined: int, maxIovec: nat)

  const THRESHOLD_MIN_WRITE := 4096

  function FileBytes(b: seq<Bucket>): nat {
    if b == [] then 0
    else (if b[0].Data? && b[0].kind.File? then |b[0].content| else 0) + FileBytes(b[1..])
  }

  /** Bytes in buckets that are known to be neither files nor of unknown length. */
  function NonFileBytes(b: seq<Bucket>): nat {
    if b == [] then 0
    else (if b[0].Data? && !b[0].kind.File? && !b[0].kind.Morphing? then |b[0].content| else 0)
         + NonFileBytes(b[1..])
  }

  function EorCount(b: seq<Bucket>): nat {
    if b == [] then 0
    else (if b[0].Meta? && b[0].mark.kind.Eor? then 1 else 0) + EorCount(b[1..])
  }

  /** What the counts say of a single bucket. */
  lemma CountsOfOne(e: Bucket)
    ensures FileBytes([e]) == if e.Data? && e.kind.File? then |e.content| else 0
    ensures NonFileBytes([e]) == if e.Data? && (e.kind.Memory? || e.kind.Mapped?) then |e.content| else 0
    ensures EorCount([e]) == if e.Meta? && e.mark.kind.Eor? then 1 else 0
  {
    assert [e][1..] == [];
  }

  /** The counts of a brigade are those of its parts. */
  lemma {:induction false} CountsAddUp(a: seq<Bucket>, b: seq<Bucket>)
    ensures FileBytes(a + b) == FileBytes(a) + FileBytes(b)
    ensures NonFileBytes(a + b) == NonFileBytes(a) + NonFileBytes(b)
    ensures EorCount(a + b) == EorCount(a) + EorCount(b)
  {
    if a == [] {
      assert a + b == b;
    } else {
      assert (a + b)[1..] == a[1..] + b;
      CountsAddUp(a[1..], b);
    }
  }

  /** With every length known, each byte is counted once: as in a file or not. */
  lemma {:induction false} BytesAddUp(b: seq<Bucket>)
    requires Settled(b)
    ensures FileBytes(b) + NonFileBytes(b) == |Payload(b)|
  {
    if b != [] {
      assert b[0] in b;
      BytesAddUp(b[1..]);
    }
  }

  /** Where the EOR buckets are. */
  ghost function EorsIn(b: seq<Bucket>): set<int> {
    set i | 0 <= i < |b| && b[i].Meta? && b[i].mark.kind.Eor?
  }

  lemma EorsInNext(b: seq<Bucket>, e: Bucket)
    ensures |EorsIn(b + [e])| == |EorsIn(b)| + if e.Meta? && e.mark.kind.Eor? then 1 else 0
  {
    assert forall i :: 0 <= i < |b| ==> (b + [e])[i] == b[i];
    assert EorsIn(b + [e]) == EorsIn(b) + (if e.Meta? && e.mark.kind.Eor? then {|b|} else {});
  }

  /** The EOR buckets are all counted, and nothing else is. */
  lemma {:induction false} EorCountIsExact(b: seq<Bucket>)
    ensures EorCount(b) == |EorsIn(b)|
  {
    if b == [] {
      assert EorsIn(b) == {};
    } else {
      hide EorCount, FileBytes, NonFileBytes, EorsIn;
      var n := |b| - 1;
      EorCountIsExact(b[..n]);
      assert b == b[..n] + [b[n]];
      CountsAddUp(b[..n], [b[n]]);
      CountsOfOne(b[n]);
      EorsInNext(b[..n], b[n]);
    }
  }

  predicate HasFlush(b: seq<Bucket>) {
    exists i :: 0 <= i < |b| && b[i].Meta? && b[i].mark.kind.Flush?
  }

  predicate HasMorphing(b: seq<Bucket>) {
    exists i :: 0 <= i < |b| && b[i].Data? && b[i].kind.Morphing?
  }

  /** The four rules, read off the whole brigade rather than off a scan that stops early. */
  predicate MustFlush(b: seq<Bucket>, conf: Config) {
    || HasFlush(b)
    || HasMorphing(b)
    || NonFileBytes(b) > conf.flushMaxThreshold
    || (conf.flushMaxPipelined >= 0 && EorCount(b) > conf.flushMaxPipelined)
  }

  /** A brigade that is sent rather than kept for later. */
  predicate WorthSending(b: seq<Bucket>, conf: Config) {
    MustFlush(b, conf) || FileBytes(b) + NonFileBytes(b) >= THRESHOLD_MIN_WRITE || FileBytes(b) > 0
  }

  lemma MorphingIsUnsettled(b: seq<Bucket>)
    ensures HasMorphing(b) <==> !Settled(b)
  {
    if i :| 0 <= i < |b| && b[i].Data? && b[i].kind.Morphing? {
      assert b[i] in b && b[i].Length() < 0;
    }
    if e :| e in b && e.Length() < 0 {
      var i :| 0 <= i < |b| && b[i] == e;
    }
  }

  lemma {:induction false} FileBytesIff(b: seq<Bucket>)
    ensures FileBytes(b) > 0 <==> exists e <- b :: e.Data? && e.kind.File? && e.content != []
  {
    if b != [] {
      FileBytesIff(b[1..]);
      assert b == [b[0]] + b[1..];
    }
  }

  /** What is worth sending: what must be flushed, enough bytes, or any bytes in a file. */
  lemma WorthSendingIff(b: seq<Bucket>, conf: Config)
    ensures WorthSending(b, conf) <==>
      || MustFlush(b, conf)
      || |Payload(b)| >= THRESHOLD_MIN_WRITE
      || exists e <- b :: e.Data? && e.kind.File? && e.content != []
  {
    FileBytesIff(b);
    MorphingIsUnsettled(b);
    if Settled(b) {
      BytesAddUp(b);
    }
  }

  /** `should_send_brigade`: the scan stops at the first reason to flush. */
  method ShouldSendBrigade(b: seq<Bucket>, conf: Config) returns (send: bool, flush: bool)
    ensures flush <==> MustFlush(b, conf)
    ensures send <==> WorthSending(b, conf)
  {
    var totalBytes, nonFileBytes, eorBuckets := 0, 0, 0;
    flush := false;
    var i := 0;
    while i < |b|
      invariant 0 <= i <= |b|
      invariant !flush
      invariant nonFileBytes + NonFileBytes(b[i..]) == NonFileBytes(b)
      invariant totalBytes - nonFileBytes + FileBytes(b[i..]) == FileBytes(b)
      invariant conf.flushMaxPipelined >= 0 ==> eorBuckets + EorCount(b[i..]) == EorCount(b)
      invariant nonFileBytes <= conf.flushMaxThreshold
      invariant conf.flushMaxPipelined >= 0 ==> eorBuckets <= conf.flushMaxPipelined
      invariant !HasFlush(b[..i]) && !HasMorphing(b[..i])
    {
      var bucket := b[i];
      assert b[i..][0] == bucket && b[i..][1..] == b[i + 1..];
      if bucket.Data? {
        if bucket.Length() == -1 {
          flush := true;
          break;
        }
        totalBytes := totalBytes + |bucket.content|;
        if !bucket.kind.File? {
          nonFileBytes := nonFileBytes + |bucket.content|;
          if nonFileBytes > conf.flushMaxThreshold {
            flush := true;
            break;
          }
        }
      } else if bucket.mark.kind.Flush? {
        flush := true;
        break;
      } else if bucket.mark.kind.Eor? && conf.flushMaxPipelined >= 0 {
        eorBuckets := eorBuckets + 1;
        if eorBuckets > conf.flushMaxPipelined {
          flush := true;
          break;
        }
      }
      i := i + 1;
    }
    assert i == |b| ==> b[..i] == b && b[i..] == [];
    send := flush || totalBytes >= THRESHOLD_MIN_WRITE || totalBytes > nonFileBytes;
  }

  /** Dropping buckets from the front never creates a reason to flush. */
  lemma {:induction false} SuffixNeedsNoMore(b: seq<Bucket>, k: nat, conf: Config)
    requires k <= |b| && !MustFlush(b, conf)
    ensures !MustFlush(b[k..], conf)
  {
    if k > 0 {
      assert forall i :: 0 <= i < |b[1..]| ==> b[1..][i] == b[i + 1];
      SuffixNeedsNoMore(b[1..], k - 1, conf);
      assert b[1..][k - 1..] == b[k..];
    } else {
      assert b[0..] == b;
    }
  }
}
