/** End-of-request buckets: a reference-counted record shared by the copies of a bucket, and a
    request pool whose pre-cleanup points back at the record. Either side may go first. */
module EorBuckets {

  /** What made a request be logged: the end of its pool by other means, the destruction of a
      bucket when `wireLen` bytes of its connection's output were on the wire, or that of a copy
      elsewhere. */
  datatype Cause = PoolEnded | CopyDestroyed | BucketDestroyed(wireLen: nat, aborted: bool)

  /** `request_rec` with its pool. `cleanups` are the records whose `data` field the pool's
      pre-cleanups point at, most recent first. `log`, one entry for each time the request is
      logged, and the counters record history. */
  class Request {
    var poolAlive: bool
    var cleanups: seq<EorRecord>
    var eorsCreated: nat
    var log: seq<Cause>
    var poolDestroyed: nat

    constructor ()
      ensures poolAlive && cleanups == [] && log == [] && eorsCreated == poolDestroyed == 0
    {
      poolAlive, cleanups, log, eorsCreated, poolDestroyed := true, [], [], 0, 0;
    }
  }

  /** `ap_bucket_eor`. `owner` is the request it was created for, which `data` forgets. */
  class EorRecord {
    const owner: Request?
    var refcount: nat
    var data: Request?
    var freed: bool

    constructor (r: Request?)
      ensures owner == r && data == r && refcount == 1 && !freed
    {
      owner, data, refcount, freed := r, r, 1, false;
    }
  }

  /** The lines that logging `r` for `n` EORs writes. */
  function Lines(r: Request, n: nat): seq<Request> {
    seq(n, _ => r)
  }

  /** What was written to the log if the pool of `r` was alive and is not any more. */
  ghost function LinesOf(r: Request?, wasAlive: bool): seq<Request>
    reads r
  {
    if r != null && wasAlive && !r.poolAlive then Lines(r, r.eorsCreated) else []
  }

  /** All the requests and records of a server process, and its access log. */
  class Server {
    var requests: set<Request>
    var records: set<EorRecord>
    var accessLog: seq<Request>

    constructor ()
      ensures Valid() && requests == {} && records == {} && accessLog == []
    {
      requests, records, accessLog := {}, {}, [];
    }

    /** What ties a record to its request: it knows the request exactly as long as the pool
        has a cleanup for it. */
    ghost predicate Tied(h: EorRecord)
      reads h`data, h.owner
    {
      h.data == (if h.owner != null && h in h.owner.cleanups then h.owner else null)
    }

    /** A live pool has a cleanup for every record of its request. */
    ghost predicate Watched(h: EorRecord)
      reads h.owner
    {
      h.owner != null && h.owner.poolAlive ==> h in h.owner.cleanups
    }

    /** Every EOR given to a request has led to one log line or to one cleanup that will. */
    ghost predicate Owed(r: Request)
      reads r
    {
      && |r.log| + |r.cleanups| == r.eorsCreated
      && r.poolDestroyed == (if r.poolAlive then 0 else 1)
      && (!r.poolAlive ==> r.cleanups == [])
      && forall i, j :: 0 <= i < j < |r.cleanups| ==> r.cleanups[i] != r.cleanups[j]
    }

    /** Requests and the records `rs` point at each other. */
    ghost predicate LinkedOver(rs: set<EorRecord>)
      reads `requests, requests, rs`data
    {
      && (forall h <- rs :: (h.owner == null || h.owner in requests) && Tied(h) && Watched(h))
      && (forall r <- requests :: Owed(r) && (r.poolAlive ==> r.log == []))
      && (forall r <- requests, h <- r.cleanups :: h in rs && h.owner == r)
    }

    ghost predicate Linked()
      reads `requests, `records, requests, records`data
    {
      LinkedOver(records)
    }

    /** A record is freed with its last copy, and never while a pool's cleanup points at it. */
    ghost predicate CountedOver(rs: set<EorRecord>)
      reads `requests, requests, rs
      requires LinkedOver(rs)
    {
      && (forall h <- rs :: h.freed <==> h.refcount == 0)
      && (forall r <- requests, h <- r.cleanups :: !h.freed)
    }

    ghost predicate Valid()
      reads `requests, `records, requests, records
    {
      Linked() && CountedOver(records)
    }

    method AddRequest() returns (r: Request)
      requires Valid()
      modifies this`requests
      ensures Valid() && fresh(r) && requests == old(requests) + {r}
      ensures r.poolAlive && r.eorsCreated == 0 && r.log == []
    {
      r := new Request();
      requests := requests + {r};
    }

    /** `apr_pool_pre_cleanup_register` for a new record. */
    method RegisterCleanup(h: EorRecord, r: Request)
      requires Valid() && r in requests && r.poolAlive
      requires h !in records && h.owner == r && h.data == r && h.refcount == 1 && !h.freed
      modifies r`cleanups, r`eorsCreated
      ensures r.cleanups == [h] + old(r.cleanups) && r.eorsCreated == old(r.eorsCreated) + 1
      ensures LinkedOver(records + {h}) && CountedOver(records + {h})
    {
      r.cleanups := [h] + r.cleanups;
      r.eorsCreated := r.eorsCreated + 1;
      forall g | g in records
        ensures Tied(g) && Watched(g)
      {
        assert old(Tied(g)) && old(Watched(g));
      }
      assert Owed(r) && Tied(h) && Watched(h);
      forall q | q in requests && q != r
        ensures Owed(q)
      {
        assert old(Owed(q));
      }
      hide Owed, Tied, Watched;
    }

    /** A record without a request has nothing to be linked to. */
    lemma Unowned(h: EorRecord)
      requires Valid() && h !in records
      requires h.owner == null && h.data == null && h.refcount == 1 && !h.freed
      ensures LinkedOver(records + {h}) && CountedOver(records + {h})
    {
    }

    /** `ap_bucket_eor_create`: one record, and one pre-cleanup if there is a request. */
    method EorCreate(r: Request?) returns (h: EorRecord)
      requires Valid() && (r != null ==> r in requests && r.poolAlive)
      modifies this`records, r
      ensures Valid() && fresh(h) && records == old(records) + {h}
      ensures h.owner == r && h.refcount == 1 && !h.freed
      ensures r != null ==>
        r.eorsCreated == old(r.eorsCreated) + 1 && r.log == old(r.log) && r.poolAlive
    {
      hide LinkedOver, CountedOver;
      h := new EorRecord(r);
      if r != null {
        RegisterCleanup(h, r);
      } else {
        Unowned(h);
      }
      records := records + {h};
    }

    /** `apr_bucket_shared_copy`. */
    method CopyBucket(h: EorRecord)
      requires Valid() && h in records && !h.freed
      modifies h
      ensures Valid() && h.refcount == old(h.refcount) + 1 && h.data == old(h.data) && h.freed == old(h.freed)
    {
      h.refcount := h.refcount + 1;
    }

    /** `eor_bucket_cleanup`: logs the request unless the record has forgotten it. The record is
        still there. */
    method EorCleanup(h: EorRecord, r: Request, cause: Cause)
      requires !h.freed && (h.data == null || h.data == r)
      modifies h`data, r`log, `accessLog
      ensures h.data == null
      ensures r.log == old(r.log) + if old(h.data) == null then [] else [cause]
      ensures accessLog == old(accessLog) + if old(h.data) == null then [] else [r]
    {
      if h.data != null {
        h.data := null;
        r.log, accessLog := r.log + [cause], accessLog + [r];
      }
    }

    /** Runs the pre-cleanups of a pool, taking each off the list first. */
    method RunCleanups(r: Request, cause: Cause)
      requires Owed(r) && r.log == [] && forall h <- r.cleanups :: h.data == r && !h.freed
      modifies r`cleanups, r`log, (set h | h in r.cleanups)`data, `accessLog
      ensures r.cleanups == [] && |r.log| == r.eorsCreated && forall c <- r.log :: c == cause
      ensures forall h <- old(r.cleanups) :: h.data == null
      ensures accessLog == old(accessLog) + Lines(r, r.eorsCreated)
    {
      ghost var all := r.cleanups;
      ghost var k := 0;
      while r.cleanups != []
        invariant 0 <= k <= |all| && r.cleanups == all[k..]
        invariant |r.log| + |r.cleanups| == r.eorsCreated && forall c <- r.log :: c == cause
        invariant accessLog == old(accessLog) + Lines(r, k)
        invariant forall i :: 0 <= i < |all| ==> all[i].data == (if i < k then null else r) && !all[i].freed
        decreases |r.cleanups|
      {
        var h := r.cleanups[0];
        r.cleanups := r.cleanups[1..];
        EorCleanup(h, r, cause);
        assert Lines(r, k + 1) == Lines(r, k) + [r];
        k := k + 1;
      }
    }

    /** `apr_pool_destroy` of a request pool: its pre-cleanups run before the pool goes. */
    method DestroyPool(r: Request, cause: Cause)
      requires Linked() && r in requests && r.poolAlive && forall h <- r.cleanups :: !h.freed
      modifies r, (set h | h in r.cleanups)`data, `accessLog
      ensures Linked() && !r.poolAlive
      ensures |r.log| == r.eorsCreated == old(r.eorsCreated) && forall c <- r.log :: c == cause
      ensures forall h <- old(r.cleanups) :: h.data == null
      ensures accessLog == old(accessLog) + Lines(r, r.eorsCreated)
    {
      assert forall h <- r.cleanups :: Tied(h);
      RunCleanups(r, cause);
      r.poolAlive := false;
      r.poolDestroyed := r.poolDestroyed + 1;
      forall h | h in records
        ensures Tied(h) && Watched(h)
      {
        assert old(Tied(h)) && old(Watched(h));
      }
      forall q | q in requests
        ensures Owed(q)
      {
        assert old(Owed(q));
      }
      hide Owed, Tied, Watched;
    }

    /** No cleanup points at a record that has forgotten its request. */
    lemma Unlisted(h: EorRecord)
      requires Linked() && h in records && h.data == null
      ensures forall r <- requests :: h !in r.cleanups
    {
    }

    /** The records that lose their request together with `h`. */
    ghost function Siblings(h: EorRecord): set<EorRecord>
      reads h.owner
    {
      if h.owner == null then {} else set g | g in h.owner.cleanups
    }

    /** The server knows the request of a record, and its other records. */
    lemma AllKnown(h: EorRecord)
      requires Valid() && h in records
      ensures h.owner == null || h.owner in requests
      ensures Siblings(h) <= records
    {
    }

    /** Destroys the request pool of a record, if the record still knows it. */
    method ReleaseRequest(h: EorRecord, cause: Cause)
      requires Linked() && h in records && forall g <- Siblings(h) :: !g.freed
      modifies h`data, h.owner, Siblings(h)`data, `accessLog
      ensures Linked() && h.data == null
      ensures accessLog == old(accessLog) + LinesOf(h.owner, old(h.owner != null && h.owner.poolAlive))
      ensures h.owner != null ==>
        && !h.owner.poolAlive && |h.owner.log| == h.owner.eorsCreated == old(h.owner.eorsCreated)
        && h.owner.cleanups == []
        && (forall c <- h.owner.log :: c == cause || c in old(h.owner.log))
    {
      assert Tied(h) && Watched(h);
      var r := h.data;
      if r != null {
        DestroyPool(r, cause);
      } else if h.owner != null {
        assert Owed(h.owner);
      }
    }

    /** `eor_bucket_destroy`: destroying the last copy destroys the request pool, if it is
        still there, and frees the record. */
    method DestroyBucket(h: EorRecord, cause: Cause)
      requires Valid() && h in records && !h.freed
      modifies h, h.owner, Siblings(h)`data, `accessLog
      ensures Valid()
      ensures accessLog == old(accessLog) + LinesOf(h.owner, old(h.owner != null && h.owner.poolAlive))
      ensures h.refcount == old(h.refcount) - 1
      ensures h.freed <==> old(h.refcount) == 1
      ensures h.freed && h.owner != null ==> !h.owner.poolAlive && |h.owner.log| == h.owner.eorsCreated
      ensures h.owner != null ==>
        && h.owner.eorsCreated == old(h.owner.eorsCreated)
        && forall c <- h.owner.log :: c == cause || c in old(h.owner.log)
      ensures !h.freed ==> h.data == old(h.data)
      ensures !h.freed && h.owner != null ==> unchanged(h.owner)
    {
      h.refcount := h.refcount - 1;
      if h.refcount == 0 {
        ReleaseRequest(h, cause);
        Unlisted(h);
        h.freed := true;
      }
    }

    /** Without copies, a record is freed and each EOR of its request has been logged. */
    lemma GoneMeansLogged(h: EorRecord)
      requires Valid() && h in records && h.refcount == 0
      ensures h.freed
      ensures h.owner != null ==> !h.owner.poolAlive && |h.owner.log| == h.owner.eorsCreated
    {
      if h.owner != null {
        assert Owed(h.owner) && Watched(h);
      }
    }

    /** A request is logged, once for each EOR bucket it was given, when its pool goes. */
    lemma LoggedWithPool(h: EorRecord)
      requires Valid() && h in records && h.owner != null
      ensures |h.owner.log| == if h.owner.poolAlive then 0 else h.owner.eorsCreated
    {
    }

    /** The life of a request that was given one EOR bucket, at any point of any interleaving
        of copies, destructions of copies and destruction of the pool. */
    lemma LoggedExactlyOnce(h: EorRecord)
      requires Valid() && h in records && h.owner != null && h.owner.eorsCreated == 1
      ensures |h.owner.log| == h.owner.poolDestroyed == (if h.owner.poolAlive then 0 else 1)
      ensures h.freed ==> !h.owner.poolAlive
      ensures h.owner.poolAlive ==> h.owner.cleanups == [h] && h.data == h.owner && h.refcount > 0
      ensures !h.owner.poolAlive ==> h.data == null
    {
    }
  }

  datatype Op = Copy | DestroyCopy(cause: Cause) | EndRequest

  /** Any interleaving of the three operations on a request with one EOR bucket, each done
      when it still can be: copies while a bucket is left, the pool while it lives. The access
      log has the one line of the request. */
  method Interleave(ops: seq<Op>) returns (server: Server, r: Request, h: EorRecord)
    ensures server.Valid() && r in server.requests && h in server.records && h.owner == r
    ensures |r.log| == r.poolDestroyed == (if r.poolAlive then 0 else 1)
    ensures h.freed || EndRequest in ops ==> |r.log| == 1
    ensures server.accessLog == Lines(r, |r.log|)
    ensures r.poolAlive ==> !h.freed && h.data == r
  {
    server := new Server();
    r := server.AddRequest();
    h := server.EorCreate(r);
    for k := 0 to |ops|
      invariant server.Valid() && fresh(server) && fresh(r) && fresh(h)
      invariant server.records == {h} && server.requests == {r} && h.owner == r && r.eorsCreated == 1
      invariant EndRequest in ops[..k] ==> !r.poolAlive
      invariant server.accessLog == Lines(r, |r.log|)
    {
      server.LoggedExactlyOnce(h);
      match ops[k] {
        case Copy =>
          if !h.freed {
            server.CopyBucket(h);
          }
        case DestroyCopy(cause) =>
          if !h.freed {
            server.DestroyBucket(h, cause);
          }
        case EndRequest =>
          if r.poolAlive {
            server.DestroyPool(r, PoolEnded);
          }
      }
    }
    assert ops[..|ops|] == ops;
    server.LoggedExactlyOnce(h);
  }
}
