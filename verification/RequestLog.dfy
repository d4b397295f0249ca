/** The access log as the output filter writes it: the metadata that a connection destroys,
    replayed against the records of the end-of-request buckets, with whatever else happens to
    the requests in between. */
module RequestLog {
  import opened Apr
  import opened Buckets
  import opened FlushRule
  import opened OutputHistory
  import opened MarkOrder
  import opened OutputRuns
  import opened EorBuckets

  /** Which record the EOR bucket of each request number shares; no two share one, and none is
      without a request. */
  ghost predicate Distinct(server: Server, bucketOf: map<nat, EorRecord>)
    reads server`records
  {
    && (forall id <- bucketOf :: bucketOf[id] in server.records && bucketOf[id].owner != null)
    && (forall x, y :: x in bucketOf && y in bucketOf && x != y ==> bucketOf[x].owner != bucketOf[y].owner)
  }

  /** What happens to the requests: the connection destroys a metadata bucket; a copy of a
      request's EOR bucket is made, or destroyed elsewhere; its pool ends by other means. */
  datatype Act = Destroy(d: Destruction) | Duplicate(request: nat) | Discard(request: nat) | EndPool(request: nat)
  {
    /** The request that the act concerns, if any. */
    function Subject(): Option<nat> {
      if !Destroy? then Some(request)
      else if d.mark.kind.Eor? then Some(d.mark.kind.request)
      else None
    }

    predicate Concerns(id: nat) {
      Subject() == Some(id)
    }

    function Reason(): Option<Cause> {
      match this
      case Destroy(d) => Some(BucketDestroyed(d.wireLen, d.aborted))
      case Duplicate(_) => None
      case Discard(_) => Some(CopyDestroyed)
      case EndPool(_) => Some(PoolEnded)
    }
  }

  /** What the connection destroys, in order. */
  function DestroyedBy(acts: seq<Act>): seq<Destruction> {
    if acts == [] then []
    else
      var last := acts[|acts| - 1];
      DestroyedBy(acts[..|acts| - 1]) + if last.Destroy? then [last.d] else []
  }

  /** How many copies of a bucket an act leaves of `n`. The last is gone for good. */
  function Next(n: nat, act: Act): nat {
    match act
    case Duplicate(_) => if n == 0 then 0 else n + 1
    case EndPool(_) => n
    case _ => if n == 0 then 0 else n - 1
  }

  /** How many copies of the EOR bucket of request `id` the acts leave of `n`. */
  function Left(n: nat, acts: seq<Act>, id: nat): nat {
    if acts == [] then n
    else
      var last, before := acts[|acts| - 1], Left(n, acts[..|acts| - 1], id);
      if last.Concerns(id) then Next(before, last) else before
  }

  /** One of the acts accounts for a log entry of request `id`. */
  ghost predicate Accounts(acts: seq<Act>, id: nat, c: Cause) {
    exists act <- acts :: act.Concerns(id) && act.Reason() == Some(c)
  }

  /** The copies of a request's EOR bucket, whether its pool lives, how many EORs it was given,
      and its log. */
  datatype Account = Account(copies: nat, alive: bool, eors: nat, log: seq<Cause>)
  {
    /** A request is logged when its pool goes and not before, and the last copy takes the pool. */
    predicate Valid() {
      |log| == (if alive then 0 else eors) && (alive ==> copies > 0)
    }
  }

  ghost function AccountOf(h: EorRecord): Account
    requires h.owner != null
    reads h`refcount, h.owner
  {
    Account(h.refcount, h.owner.poolAlive, h.owner.eorsCreated, h.owner.log)
  }

  lemma AccountIsValid(server: Server, h: EorRecord)
    requires server.Valid() && h in server.records && h.owner != null
    ensures AccountOf(h).Valid() && (h.freed <==> h.refcount == 0)
  {
    server.LoggedWithPool(h);
    if h.refcount == 0 {
      server.GoneMeansLogged(h);
    }
  }

  /** What the acts make of request `id`: the copies are counted, the pool lives as long as
      nothing has ended it and a copy is left, and one of the acts accounts for each new entry. */
  ghost predicate Told(a: Account, acts: seq<Act>, id: nat, b: Account) {
    && b.copies == Left(a.copies, acts, id)
    && (b.alive <==> a.alive && EndPool(id) !in acts && b.copies > 0)
    && b.eors == a.eors
    && forall c <- b.log :: c in a.log || Accounts(acts, id, c)
  }

  /** Whether the pool of a request lives after the acts. */
  predicate Lives(a: Account, acts: seq<Act>, id: nat) {
    a.alive && EndPool(id) !in acts && Left(a.copies, acts, id) > 0
  }

  /** The requests whose pools go, in the order in which the acts make them go. */
  function Gone(accounts: map<nat, Account>, acts: seq<Act>): seq<nat> {
    if acts == [] then []
    else
      var before := acts[..|acts| - 1];
      Gone(accounts, before) +
        match acts[|acts| - 1].Subject()
        case None => []
        case Some(id) =>
          if id in accounts && Lives(accounts[id], before, id) && !Lives(accounts[id], acts, id) then [id] else []
  }

  /** What the log gains when the pools of `order` go: for each, a line for every EOR. */
  ghost function LogLines(bucketOf: map<nat, EorRecord>, accounts: map<nat, Account>, order: seq<nat>): seq<Request> {
    if order == [] then []
    else
      var id := order[|order| - 1];
      LogLines(bucketOf, accounts, order[..|order| - 1])
        + if id in bucketOf && id in accounts && bucketOf[id].owner != null
          then Lines(bucketOf[id].owner, accounts[id].eors) else []
  }

  ghost function AccountsOf(bucketOf: map<nat, EorRecord>): map<nat, Account>
    requires forall id <- bucketOf :: bucketOf[id].owner != null
    reads (set id | id in bucketOf :: bucketOf[id])`refcount, set id | id in bucketOf :: bucketOf[id].owner
  {
    map id | id in bucketOf :: AccountOf(bucketOf[id])
  }

  lemma NothingGone(bucketOf: map<nat, EorRecord>, accounts: map<nat, Account>)
    ensures LogLines(bucketOf, accounts, Gone(accounts, [])) == []
  {
  }

  lemma ToldNothing(a: Account, id: nat)
    requires a.Valid()
    ensures Told(a, [], id, a)
  {
  }

  lemma LeftOne(n: nat, act: Act, id: nat)
    ensures Left(n, [act], id) == if act.Concerns(id) then Next(n, act) else n
  {
    assert [act][..0] == [];
  }

  lemma Unconcerned(a: Account, act: Act, id: nat)
    requires a.Valid() && !act.Concerns(id)
    ensures Told(a, [act], id, a)
  {
    LeftOne(a.copies, act, id);
  }

  lemma ToldOn(a: Account, acts: seq<Act>, n: nat, id: nat, b: Account, c: Account)
    requires n < |acts| && Told(a, acts[..n], id, b) && Told(b, [acts[n]], id, c)
    ensures Told(a, acts[..n + 1], id, c)
  {
    assert acts[..n + 1] == acts[..n] + [acts[n]] && acts[..n + 1][..n] == acts[..n];
    LeftOne(b.copies, acts[n], id);
    assert EndPool(id) in acts[..n + 1] <==> EndPool(id) in acts[..n] || acts[n] == EndPool(id);
    assert forall x :: Accounts([acts[n]], id, x) || Accounts(acts[..n], id, x) ==> Accounts(acts[..n + 1], id, x);
  }

  /** An act that concerns no known request writes nothing. */
  lemma LogStays(bucketOf: map<nat, EorRecord>, accounts: map<nat, Account>, acts: seq<Act>, n: nat)
    requires n < |acts| && (acts[n].Subject() == None || acts[n].Subject().value !in accounts)
    ensures Gone(accounts, acts[..n + 1]) == Gone(accounts, acts[..n])
  {
    assert acts[..n + 1][..n] == acts[..n];
  }

  /** An act that concerns request `id` writes its lines if it ends the pool. */
  lemma LogGrows(bucketOf: map<nat, EorRecord>, accounts: map<nat, Account>, acts: seq<Act>, n: nat,
                 id: nat, b: Account, c: Account)
    requires n < |acts| && acts[n].Subject() == Some(id)
    requires id in bucketOf && id in accounts && bucketOf[id].owner != null
    requires Told(accounts[id], acts[..n], id, b) && Told(accounts[id], acts[..n + 1], id, c)
    ensures LogLines(bucketOf, accounts, Gone(accounts, acts[..n + 1]))
         == LogLines(bucketOf, accounts, Gone(accounts, acts[..n]))
            + if b.alive && !c.alive then Lines(bucketOf[id].owner, c.eors) else []
  {
    assert acts[..n + 1][..n] == acts[..n];
    var gone := Gone(accounts, acts[..n]);
    if b.alive && !c.alive {
      assert (gone + [id])[..|gone|] == gone;
    } else {
      assert gone + [] == gone;
      assert LogLines(bucketOf, accounts, gone) + [] == LogLines(bucketOf, accounts, gone);
    }
  }

  /** As long as nobody copies a bucket, its only copy is left until something destroys it. */
  lemma {:induction false} OnlyCopy(acts: seq<Act>, id: nat)
    requires Duplicate(id) !in acts
    ensures Left(1, acts, id) == if exists act <- acts :: act.Concerns(id) && !act.EndPool? then 0 else 1
  {
    if acts != [] {
      var n := |acts| - 1;
      OnlyCopy(acts[..n], id);
      assert acts == acts[..n] + [acts[n]];
      assert acts[n] != Duplicate(id);
    }
  }

  /** One act on the request of `h`, done if it still can be. */
  method DoTo(server: Server, h: EorRecord, act: Act, ghost id: nat)
    requires server.Valid() && h in server.records && h.owner != null && act.Concerns(id)
    modifies h, h.owner, server.Siblings(h)`data, server`accessLog
    ensures server.Valid()
    ensures Told(old(AccountOf(h)), [act], id, AccountOf(h))
    ensures server.accessLog == old(server.accessLog) + LinesOf(h.owner, old(h.owner.poolAlive))
  {
    AccountIsValid(server, h);
    LeftOne(h.refcount, act, id);
    assert act in [act];
    match act {
      case Destroy(d) =>
        if !h.freed {
          server.DestroyBucket(h, BucketDestroyed(d.wireLen, d.aborted));
        }
      case Discard(_) =>
        if !h.freed {
          server.DestroyBucket(h, CopyDestroyed);
        }
      case Duplicate(_) =>
        if !h.freed {
          server.CopyBucket(h);
        }
      case EndPool(_) =>
        if h.owner.poolAlive {
          server.DestroyPool(h.owner, PoolEnded);
        }
    }
    AccountIsValid(server, h);
  }

  /** One act, if it concerns a request that has an EOR bucket. */
  method ReplayOne(server: Server, bucketOf: map<nat, EorRecord>, act: Act)
    requires server.Valid() && Distinct(server, bucketOf)
    modifies server.requests, server.records, server`accessLog
    ensures server.Valid() && Distinct(server, bucketOf)
    ensures forall id <- bucketOf :: Told(old(AccountOf(bucketOf[id])), [act], id, AccountOf(bucketOf[id]))
    ensures match act.Subject()
      case None => server.accessLog == old(server.accessLog)
      case Some(id) =>
        if id !in bucketOf then server.accessLog == old(server.accessLog)
        else
          server.accessLog == old(server.accessLog) + LinesOf(bucketOf[id].owner, old(bucketOf[id].owner.poolAlive))
  {
    hide Told, Server.Valid;
    forall id | id in bucketOf && !act.Concerns(id)
      ensures Told(AccountOf(bucketOf[id]), [act], id, AccountOf(bucketOf[id]))
    {
      AccountIsValid(server, bucketOf[id]);
      Unconcerned(AccountOf(bucketOf[id]), act, id);
    }
    match act.Subject() {
      case None =>
      case Some(id) =>
        if id in bucketOf {
          server.AllKnown(bucketOf[id]);
          DoTo(server, bucketOf[id], act, id);
          forall x | x in bucketOf && x != id
            ensures AccountOf(bucketOf[x]) == old(AccountOf(bucketOf[x]))
          {
            assert bucketOf[x].owner != bucketOf[id].owner;
          }
        }
    }
  }

  /** Any acts, in any order: what they make of each request, and what they write to the log. */
  method Replay(server: Server, bucketOf: map<nat, EorRecord>, acts: seq<Act>)
    requires server.Valid() && Distinct(server, bucketOf)
    modifies server.requests, server.records, server`accessLog
    ensures server.Valid() && Distinct(server, bucketOf)
    ensures forall id <- bucketOf ::
      AccountOf(bucketOf[id]).Valid() && Told(old(AccountOf(bucketOf[id])), acts, id, AccountOf(bucketOf[id]))
    ensures server.accessLog == old(server.accessLog)
      + LogLines(bucketOf, old(AccountsOf(bucketOf)), Gone(old(AccountsOf(bucketOf)), acts))
  {
    hide Told, Account.Valid, Server.Valid, LogLines, Gone;
    ghost var accounts := AccountsOf(bucketOf);
    NothingGone(bucketOf, accounts);
    forall id | id in bucketOf
      ensures Told(AccountOf(bucketOf[id]), [], id, AccountOf(bucketOf[id]))
    {
      AccountIsValid(server, bucketOf[id]);
      ToldNothing(AccountOf(bucketOf[id]), id);
    }
    for n := 0 to |acts|
      invariant server.Valid() && Distinct(server, bucketOf)
      invariant forall id <- bucketOf :: Told(old(AccountOf(bucketOf[id])), acts[..n], id, AccountOf(bucketOf[id]))
      invariant server.accessLog == old(server.accessLog) + LogLines(bucketOf, accounts, Gone(accounts, acts[..n]))
    {
      label Before:
      ReplayOne(server, bucketOf, acts[n]);
      forall id | id in bucketOf
        ensures Told(old(AccountOf(bucketOf[id])), acts[..n + 1], id, AccountOf(bucketOf[id]))
      {
        ToldOn(old(AccountOf(bucketOf[id])), acts, n, id, old@Before(AccountOf(bucketOf[id])), AccountOf(bucketOf[id]));
      }
      if acts[n].Subject().None? || acts[n].Subject().value !in bucketOf {
        LogStays(bucketOf, accounts, acts, n);
      } else {
        ghost var id := acts[n].Subject().value;
        LogGrows(bucketOf, accounts, acts, n, id, old@Before(AccountOf(bucketOf[id])), AccountOf(bucketOf[id]));
      }
    }
    assert acts[..|acts|] == acts;
    forall id | id in bucketOf
      ensures AccountOf(bucketOf[id]).Valid()
    {
      AccountIsValid(server, bucketOf[id]);
    }
  }

  /** The abort was visible when request `id` was logged, or its response was on the wire: some
      call handed over its EOR bucket, and all that was submitted before it had been sent. */
  ghost predicate LoggedInTime(tr: seq<Snapshot>, evs: seq<Event>, k: nat, id: nat, c: Cause)
    requires k < |tr| && k <= |evs|
  {
    && c.BucketDestroyed?
    && (!c.aborted ==>
          exists i: nat, j: nat ::
            && i < k && j < |Input(evs[i])|
            && Input(evs[i])[j].Meta? && Input(evs[i])[j].mark.kind == Eor(id)
            && c.wireLen <= |tr[k].wire|
            && SubmittedAhead(evs, i, j) <= tr[k].wire[..c.wireLen])
  }

  /** Somebody else destroyed the last copy of the bucket, or ended the pool. */
  predicate LoggedElsewhere(acts: seq<Act>, id: nat, c: Cause) {
    (c == CopyDestroyed && Discard(id) in acts) || (c == PoolEnded && EndPool(id) in acts)
  }

  lemma {:induction false} DestroyedByFilter(acts: seq<Act>, d: Destruction)
    requires Destroy(d) in acts
    ensures d in DestroyedBy(acts)
  {
    var n := |acts| - 1;
    if acts[n] != Destroy(d) {
      DestroyedByFilter(acts[..n], d);
    }
  }

  lemma EntryIsInTime(conf: Config, tr: seq<Snapshot>, evs: seq<Event>, k: nat, acts: seq<Act>, id: nat, c: Cause)
    requires Run(conf, tr, evs) && k < |tr| && DestroyedBy(acts) == tr[k].destroyed
    requires Accounts(acts, id, c)
    ensures LoggedInTime(tr, evs, k, id, c) || LoggedElsewhere(acts, id, c)
  {
    hide Run, SubmittedAhead, DestroyedBy;
    var act :| act in acts && act.Concerns(id) && act.Reason() == Some(c);
    if act.Destroy? {
      DestroyedByFilter(acts, act.d);
      var i, j := SentBeforeDestroyed(conf, tr, evs, k, act.d);
    }
  }

  /** The requests among `ids` whose EORs are among the marks, by their first EOR. */
  function EorOrder(ms: seq<Mark>, ids: set<nat>): seq<nat> {
    if ms == [] then []
    else
      var before, last := EorOrder(ms[..|ms| - 1], ids), ms[|ms| - 1].kind;
      before + if last.Eor? && last.request in ids && last.request !in before then [last.request] else []
  }

  lemma {:induction false} EorOrderPrefix(ms: seq<Mark>, rest: seq<Mark>, ids: set<nat>)
    ensures EorOrder(ms, ids) <= EorOrder(ms + rest, ids)
  {
    if rest == [] {
      assert ms + rest == ms;
    } else {
      var n := |rest| - 1;
      assert (ms + rest)[..|ms + rest| - 1] == ms + rest[..n];
      EorOrderPrefix(ms, rest[..n], ids);
    }
  }

  /** Nobody but the connection acts on the requests, and each has one copy of one EOR bucket. */
  predicate Undisturbed(accounts: map<nat, Account>, acts: seq<Act>) {
    && (forall act <- acts :: act.Destroy?)
    && (forall id <- accounts :: accounts[id] == Account(1, true, 1, []))
  }

  lemma EorOrderNext(ms: seq<Mark>, m: Mark, ids: set<nat>)
    ensures EorOrder(ms + [m], ids) == EorOrder(ms, ids) +
      if m.kind.Eor? && m.kind.request in ids && m.kind.request !in EorOrder(ms, ids) then [m.kind.request] else []
  {
    assert (ms + [m])[..|ms|] == ms;
  }

  lemma DestroyedNext(acts: seq<Act>)
    requires acts != [] && acts[|acts| - 1].Destroy?
    ensures MarksOf(DestroyedBy(acts)) == MarksOf(DestroyedBy(acts[..|acts| - 1])) + [acts[|acts| - 1].d.mark]
  {
  }

  /** Then the pools go in the order of the EORs that the connection destroys. */
  lemma {:induction false} GoneInOrder(accounts: map<nat, Account>, acts: seq<Act>)
    requires Undisturbed(accounts, acts)
    ensures Gone(accounts, acts) == EorOrder(MarksOf(DestroyedBy(acts)), accounts.Keys)
    ensures forall id <- accounts :: Left(1, acts, id) == if id in Gone(accounts, acts) then 0 else 1
  {
    if acts != [] {
      hide EorOrder, MarksOf, DestroyedBy;
      var n := |acts| - 1;
      GoneInOrder(accounts, acts[..n]);
      assert acts[n] in acts && acts[n].Destroy?;
      DestroyedNext(acts);
      EorOrderNext(MarksOf(DestroyedBy(acts[..n])), acts[n].d.mark, accounts.Keys);
    }
  }

  /** Each request has one line. */
  lemma {:induction false} OneLineEach(bucketOf: map<nat, EorRecord>, accounts: map<nat, Account>, order: seq<nat>)
    requires forall id <- order ::
      id in bucketOf && id in accounts && accounts[id].eors == 1 && bucketOf[id].owner != null
    ensures |LogLines(bucketOf, accounts, order)| == |order|
    ensures forall i :: 0 <= i < |order| ==> LogLines(bucketOf, accounts, order)[i] == bucketOf[order[i]].owner
  {
    if order != [] {
      var n := |order| - 1;
      assert order[n] in order;
      OneLineEach(bucketOf, accounts, order[..n]);
      assert |Lines(bucketOf[order[n]].owner, 1)| == 1;
    }
  }

  /** The filter and the EOR buckets together: let a connection destroy, at any point of any run,
      what it has destroyed, and let copies be made and destroyed and pools end in between. Each
      request that the connection logged was logged after its response was sent, or with the
      abort visible, and none is forgotten when its last copy goes. */
  method LogOfRun(server: Server, bucketOf: map<nat, EorRecord>, acts: seq<Act>,
                  ghost conf: Config, ghost tr: seq<Snapshot>, ghost evs: seq<Event>, ghost k: nat)
    requires server.Valid() && Distinct(server, bucketOf)
    requires Run(conf, tr, evs) && k < |tr| && DestroyedBy(acts) == tr[k].destroyed
    modifies server.requests, server.records, server`accessLog
    ensures server.Valid() && Distinct(server, bucketOf)
    ensures forall id <- bucketOf ::
      AccountOf(bucketOf[id]).Valid() && Told(old(AccountOf(bucketOf[id])), acts, id, AccountOf(bucketOf[id]))
    ensures forall id <- bucketOf :: forall c <- bucketOf[id].owner.log ::
      c in old(bucketOf[id].owner.log) || LoggedInTime(tr, evs, k, id, c) || LoggedElsewhere(acts, id, c)
  {
    hide Account.Valid, Server.Valid, DestroyedBy;
    Replay(server, bucketOf, acts);
    forall id, c | id in bucketOf && c in bucketOf[id].owner.log && c !in old(bucketOf[id].owner.log)
      ensures LoggedInTime(tr, evs, k, id, c) || LoggedElsewhere(acts, id, c)
    {
      EntryIsInTime(conf, tr, evs, k, acts, id, c);
    }
  }

  /** The order holds each request that has an EOR, once. */
  lemma {:induction false} EorOrderMembers(ms: seq<Mark>, ids: set<nat>)
    ensures forall id :: id in EorOrder(ms, ids) <==> id in ids && exists m <- ms :: m.kind == Eor(id)
    ensures forall i, j :: 0 <= i < j < |EorOrder(ms, ids)| ==> EorOrder(ms, ids)[i] != EorOrder(ms, ids)[j]
  {
    if ms != [] {
      var n := |ms| - 1;
      EorOrderMembers(ms[..n], ids);
      assert ms == ms[..n] + [ms[n]];
    }
  }

  /** When the callers hand over an orderly stream and nobody disturbs the requests, the access log
      has a line for each request whose EOR was destroyed, in the order in which the callers handed
      the EORs over. */
  method LogOfOrderlyRun(server: Server, bucketOf: map<nat, EorRecord>, acts: seq<Act>,
                         ghost conf: Config, ghost tr: seq<Snapshot>, ghost evs: seq<Event>, ghost k: nat)
    returns (ghost order: seq<nat>)
    requires server.Valid() && Distinct(server, bucketOf)
    requires Run(conf, tr, evs) && k < |tr| && DestroyedBy(acts) == tr[k].destroyed
    requires Undisturbed(AccountsOf(bucketOf), acts)
    requires Orderly(Stream(evs[..k]))
    requires forall j :: 0 <= j < k && evs[j].AbortedElsewhere? ==> Marks(tr[j].queue) == []
    modifies server.requests, server.records, server`accessLog
    ensures order == EorOrder(MarksOf(tr[k].destroyed), bucketOf.Keys)
    ensures order <= EorOrder(SubmittedMarks(evs[..k]), bucketOf.Keys)
    ensures forall id <- order :: id in bucketOf
    ensures old(server.accessLog) <= server.accessLog
    ensures |server.accessLog| == |old(server.accessLog)| + |order|
    ensures forall i :: 0 <= i < |order| ==>
      server.accessLog[|old(server.accessLog)| + i] == bucketOf[order[i]].owner
  {
    hide EorOrder, Gone, LogLines, Told, Account.Valid, Server.Valid, Orderly, Marks, SubmittedMarks, Stream, Step;
    ghost var accounts := AccountsOf(bucketOf);
    assert accounts.Keys == bucketOf.Keys;
    ghost var marks := MarksOf(tr[k].destroyed);
    GoneInOrder(accounts, acts);
    DestroyedInSequence(conf, tr, evs, k);
    EorOrderPrefix(marks, Marks(tr[k].queue), bucketOf.Keys);
    EorOrderMembers(marks, bucketOf.Keys);
    order := EorOrder(marks, bucketOf.Keys);
    OneLineEach(bucketOf, accounts, order);
    Replay(server, bucketOf, acts);
  }
}
