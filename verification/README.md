# The connection-level network path of Apache httpd

This project models how the bundled Apache httpd moves bytes between a connection and its
socket, and proves what that code promises. It also models the provider registry.

- **Output** (`FlushRule`, `OutputFilter`, over `Buckets`, `Network`, `Connections`). A brigade
  interleaves payload and metadata. The filter gathers payload into an iovec, writes without
  blocking, uses sendfile for large files, splits what is sent in part, and buffers the rest.
  Its specification is a pipe: what is on the wire, followed by what is buffered, is what was
  submitted. Metadata is destroyed only when everything ahead of it has been sent, because
  destroying an end-of-request bucket logs the request and frees its memory.
- **Histories and runs** (`OutputHistory`, `OutputSpec`, `OutputRuns`). `Call` relates the
  snapshots before and after one call of the filter; every call of the method meets it. The
  lemmas about `Run` hold for every sequence of calls, every schedule of partial writes and
  refusals, and aborts by other parts of the server at any point.
- **Order of metadata** (`MarkOrder`, `Overtaking`). The code does not always destroy metadata in
  the order in which it was submitted. `PassInOrderIff` says exactly when a pass does, and
  `CoreOutputFilter` when a call does in which no pass is refused; `WitnessOfOvertaking` is a pass
  that does not. `DestroyedInSequence` shows that every run does over which the callers hand over
  an orderly stream; `OrderlyMeans` says what that is, and `OrderlyIff` why it is needed.
- **Close** (`LingeringClose`): flush, half-close, drain for a bounded time, close.
- **End-of-request buckets** (`EorBuckets`, `RequestLog`): the reference-counted record and the
  request pool point at each other, and either may go first. Together with the output filter
  they decide when a request is logged, whoever else copies or destroys a bucket or ends a pool
  in between, and in which order the access log has them.
- **Input** (`InputFilter`): greedy and speculative reads from a pending brigade.
- **Providers** (`Providers`): two three-level hash indexes with swapped key order.

How the model is built:

- A brigade is an object whose `buckets` field is reassigned; the iovec is an array; the
  connection with its filter context, the socket, the records, requests and hashes are objects.
  A bucket pointer in the send loop is the distance from the end of the brigade, since buckets
  in front of it are deleted.
- Calls into the runtime library are methods whose bodies pick any outcome their contract
  allows. A write takes any prefix, and success means at least one byte. A read of a bucket
  keeps its bytes, may leave a remainder behind it, and reports the length it leaves; a read of
  no bytes is the end of the bucket. Only a bucket of unknown length can refuse a read, and only
  one that does not block; what is in memory can always be read; a bucket of unknown length
  leaves bytes in memory. The copy of a bucket may fail. After a successful poll the next write
  takes a byte or fails for good. A poll that fails is not reported as "try again", and signals
  interrupt only finitely many polls. Set-aside and splitting succeed.
- A bucket of unknown length carries the bytes it will yield. For the network bucket of the
  input filter this is all that the client is going to send.
- The socket and the brigades count the library calls made on them and keep the last outcome; the
  bodies of those calls do the counting. So a contract can say that a status is that of a call
  that failed, that no failure goes unreported, that nothing is given up or waited for without a
  cause, and what a caller must have done when every call succeeds (`Ledger`, `Dutiful`,
  `Attempted`).
- These counts, `submitted`, `marks`, `destroyed`, `waits`, `delivered`, `splits`, `failedCopies`, the
  access log and the counters of the request pool record history. No branch reads them. A metadata bucket is
  stamped with its stream offset, and with its number among all metadata, when it is submitted.

Where the code and its comments differ, the model follows the code:

- The comment at Apache/server/core_filters.c:375-388 says "at least" the threshold or the
  pipelining limit, and speaks of a connection state. The code flushes above them, in any state.
- The comment at Apache/server/connection.c:170-174 says 30 seconds at most. A receive may
  start just before the limit and the limit is counted from the first one; `Drain` bounds the end
  by at most four more seconds.
- The comment at Apache/server/core_filters.c:713-718 says that empty buckets go in sequence. One
  that was passed over, and that a write ahead of a sendfile then leaves at the front, can outlive
  a later one that the pass deletes at line 720. `WitnessOfOvertaking` is such a pass: of two EOR
  buckets the later goes first. On a brigade without buckets of unknown length it happens in a
  pass that succeeds exactly when the brigade is `Tangled`. No payload is ahead of either bucket,
  so the theorems about offsets hold all the same.
- The input filter can lose data that it has already read, if `apr_bucket_copy` can fail. Such a
  failure during a speculative read leaves part of what is pending put aside, and the next call
  that gets as far as the split at Apache/server/core_filters.c:299 empties it. `LossExactly` says
  when a call loses bytes and which, and `WitnessOfLoss` is a run that does. The source checks for
  the failure (lines 315-317) but what it copies there is always in memory, and nothing in the
  repository shows that such a copy can fail; without a failure the stream is kept.
- A provider registered as null is removed from the provider index and stays in the names index
  (Apache/server/provider.c:70-71, 93-94). `IndexesAgreeIff` says exactly when the two agree.

## Model

| member | source | states |
|---|---|---|
| `OutputRuns.RunRefinesPipe` | Apache/server/core_filters.c:453-551 | at every point of every run, a live connection has wire followed by buffered payload equal to all payload submitted, and its pending flag is right; on any connection the wire is a prefix of it |
| `OutputRuns.AbortIsFinal` | Apache/server/core_filters.c:461-467 | once aborted, always aborted, and the wire never grows again |
| `OutputRuns.HistoryGrows` | Apache/server/core_filters.c:453-551 | what has been sent or destroyed is never taken back |
| `OutputRuns.DestroyedAfterItsPayload` | Apache/server/core_filters.c:712-721 | in every run, metadata destroyed on a live connection is destroyed when all payload submitted ahead of it is on the wire |
| `OutputRuns.SentBeforeDestroyed` | Apache/server/core_filters.c:539-545 | every metadata bucket destroyed in a run was handed over by some call, and unless the connection was aborted everything submitted before it is on the wire by then |
| `OutputRuns.HeldBackWithinLimits` | Apache/server/core_filters.c:505-528 | after a call with a brigade, a live connection holds back no FLUSH, no bucket of unknown length, no more non-file bytes than the threshold and no more EOR buckets than the limit |
| `OutputRuns.DestroyedOnce` | Apache/server/core_filters.c:564-570 | in every run, each metadata bucket submitted has been destroyed once or is still buffered |
| `OutputRuns.DestroyedInSequence` | Apache/server/core_filters.c:713-718 | when the buckets that the callers hand over form an orderly stream, wherever it is cut into brigades, and nobody else aborts the connection while metadata is buffered, then at every point of every run the metadata destroyed, followed by what is buffered, is what was handed over, in order |
| `OutputRuns.SteadyStream` | Apache/server/core_filters.c:667-710 | without files for sendfile and buckets of unknown length, any stream is orderly |
| `OutputRuns.RunInOrder` | Apache/server/core_filters.c:713-718 | the same for any brigades whose queue is orderly at each call |
| `OutputRuns.RunAccounted` | Apache/server/core_filters.c:453-551 | the accounts hold in every reachable snapshot, and the recorded history is what the calls submitted |
| `OutputRuns.StepAccounted` | Apache/server/core_filters.c:453-551 | one call, or an abort elsewhere, keeps the accounts |
| `OutputRuns.FlushSent` | Apache/server/core_filters.c:369-373 | after a call that the connection survives, everything ahead of a FLUSH bucket handed over by that call is on the wire |
| `OutputRuns.FlushEmpties` | Apache/server/core_filters.c:497-532 | if only metadata follows the FLUSH, nothing is left buffered and everything submitted is sent |
| `OutputRuns.Serve` | Apache/server/core_filters.c:453-551 | the connection object, driven by any sequence of calls, goes through a run |
| `OutputFilter.CoreOutputFilter` | Apache/server/core_filters.c:453-551 | every call meets `Call`: refused, broken or served, with exact conservation, the pending flag, marks kept in order if the queue is orderly, and for a new brigade no flush reason left in what is buffered; and on a live connection `Dutiful`: it is aborted if and only if a write, a wait or a read failed, with that status; what is not worth sending is kept without any call; otherwise nothing is left unless a write was refused; it waits only for a new brigade, and only when a rule obliges it to flush; when nothing is refused or fails, marks are kept in order if and only if the queue is not tangled, if no length is unknown |
| `OutputFilter.SendOrKeep` | Apache/server/core_filters.c:497-550 | a connection that lives keeps exact accounts and holds back nothing that a new brigade must flush; the call is `Dutiful`; if it aborts the connection, the abort is set first and the queue destroyed after |
| `OutputFilter.SendOutput` | Apache/server/core_filters.c:497-532 | a brigade worth sending, or one that is retried, is sent: nothing is left unless a write was refused or a call failed; any other is kept without a call |
| `OutputFilter.SendAll` | Apache/server/core_filters.c:497-532 | the loop ends; success empties the brigade; each refusal is answered by a wait or ends the loop, and ends it only when no rule obliges a flush; a fatal status is that of the call that failed, and a failure is never swallowed; the socket timeout is restored; when nothing is refused or fails, it succeeds, and marks are kept in order if and only if the brigade is not tangled, if no length is unknown |
| `OutputFilter.SendRound` | Apache/server/core_filters.c:505-527 | one round waits if and only if the pass was refused, the brigade is new and a rule obliges a flush of what is left |
| `OutputFilter.AwaitWritable` | Apache/server/core_filters.c:515-526 | interrupted polls are repeated until one is answered; its status is returned; success means the socket takes output |
| `OutputFilter.SetAside` | Apache/server/core_filters.c:557-591 | a suffix of the brigade is buffered, it starts with data that is not empty, and the flag is set exactly when there is any |
| `OutputFilter.SendBrigade` | Apache/server/core_filters.c:649-782 | a pass keeps the accounts; after success only empty buckets are left, and none if there was no payload; it ends at the first refusal and at no other time without a failure, whose status it returns, and never waits for the socket; a read may wait only after one that was refused; a brigade in memory that fits the iovec goes out in one write; after a poll, a refused pass has sent something; metadata goes in order unless the pass overtakes, and one that overtakes and succeeds breaks the order, if no length is unknown |
| `MarkOrder.PassInOrderIff` | Apache/server/core_filters.c:649-782 | a pass that succeeds, over a brigade without buckets of unknown length, destroys metadata in order if and only if the brigade is not tangled |
| `MarkOrder.PassInOrder` | Apache/server/core_filters.c:649-782 | a pass that does not overtake keeps metadata in order, whether it succeeds or not and whatever reads yield |
| `MarkOrder.OvertakesIff` | Apache/server/core_filters.c:667-722 | the pass overtakes if and only if somewhere in the brigade there is data to gather, then metadata, then a file for sendfile, then metadata, with nothing to gather in between |
| `MarkOrder.OrderlyIff` | Apache/server/core_filters.c:497-532 | a brigade is orderly if and only if no pass overtakes over anything that partial writes may leave of it |
| `MarkOrder.OrderlyMeans` | Apache/server/core_filters.c:667-722 | a brigade without buckets of unknown length is orderly if and only if nowhere in it a bucket that is not empty comes before metadata, a file for sendfile and metadata again, with nothing to gather in between |
| `MarkOrder.AlikeOrderly` | Apache/server/core_filters.c:667-722 | what metadata buckets say does not matter to whether a brigade is orderly |
| `MarkOrder.OrderlyRead` | Apache/server/core_filters.c:686-710 | a read, however it splits a bucket, keeps a brigade orderly |
| `Overtaking.WitnessOfOvertaking` | Apache/server/core_filters.c:712-722 | out of data, metadata, a file for sendfile and metadata again, a pass that succeeds destroys the last first |
| `OutputFilter.Fetch` | Apache/server/core_filters.c:686-710 | the bucket at the cursor is read and the cursor stays on it; a read waits only after one that was refused, and with everything gathered sent; iovec and brigade are in step again whatever the read split off and whatever had to be sent first; payload from the cursor on shrinks |
| `OutputFilter.SendFileStep` | Apache/server/core_filters.c:668-683 | success means that everything gathered and then the whole file are on the wire and the buckets behind are untouched |
| `OutputFilter.PassHollow` | Apache/server/core_filters.c:712-722 | an empty bucket is deleted at once if and only if nothing is gathered, and iovec and brigade stay in step; it breaks the order of metadata only where the pass was about to |
| `OutputFilter.DeleteHollow` | Apache/server/core_filters.c:712-721 | deleting an empty bucket keeps the accounts, and keeps the order of metadata unless it is metadata with some in front of it; then the order is broken |
| `OutputFilter.GatherStep` | Apache/server/core_filters.c:723-756 | a read bucket becomes the last entry of the iovec, within its bounds; what is gathered is written first if and only if the iovec has its maximal size and is full |
| `OutputFilter.GrowVec` | Apache/server/core_filters.c:593-603 | the iovec doubles, within its two bounds, and keeps the entries in use |
| `OutputFilter.FlushLarge` | Apache/server/core_filters.c:758-773 | what is gathered is written if and only if it is above the threshold and the next bucket is neither empty nor in memory |
| `OutputFilter.WriteV` | Apache/server/core_filters.c:784-832 | each write offers everything that is gathered and unsent, and only a partial one is followed by another; brigade and iovec end at the same unsent suffix after any partial writes; success means all entries are sent; buckets past the entries are untouched; the byte counter equals the wire |
| `OutputFilter.RetireSent` | Apache/server/core_filters.c:801-820 | exactly the bytes that were accepted leave the front of brigade and iovec |
| `OutputFilter.SendFile` | Apache/server/core_filters.c:836-866 | the whole file bucket is offered, exactly the accepted bytes leave it, success means all of it, and a part counts as a refusal |
| `OutputFilter.Cleanup` | Apache/server/core_filters.c:544-546 | on an aborted connection everything is destroyed in order, with the abort visible |
| `OutputSpec.ServedCall` | Apache/server/core_filters.c:549-550 | a connection that ends with balanced accounts has served the call |
| `OutputSpec.BrokenCall` | Apache/server/core_filters.c:534-547 | destroying the queue after the abort is set keeps every mark counted once |
| `OutputSpec.RefusedCall` | Apache/server/core_filters.c:461-467 | a call on an aborted connection destroys what it was given and sends nothing |
| `OutputHistory.Retired` | Apache/server/core_filters.c:806-818 | dropping sent bytes from the first bucket with payload keeps bytes, marks and offsets accounted for |
| `OutputHistory.DeletedHollow` | Apache/server/core_filters.c:803-805 | deleting an empty bucket with no payload ahead of it is in time and loses nothing |
| `OutputHistory.Reread` | Apache/server/core_filters.c:686-710 | a read that splits a bucket changes neither payload nor the place of any metadata |
| `FlushRule.ShouldSendBrigade` | Apache/server/core_filters.c:360-451 | the scan that stops early decides what the whole-brigade rules say: FLUSH, morphing, threshold, pipelining; and send if flush, or 4096 bytes, or any file bytes |
| `FlushRule.WorthSendingIff` | Apache/server/core_filters.c:447-450 | a brigade is worth sending if and only if it must be flushed, has 4096 bytes of payload, or has a file with any bytes |
| `FlushRule.EorCountIsExact` | Apache/server/core_filters.c:431-433 | the count of EOR buckets is the number of places where there is one |
| `FlushRule.BytesAddUp` | Apache/server/core_filters.c:408-411 | with every length known, file and non-file bytes make up the payload |
| `FlushRule.CountsAddUp` | Apache/server/core_filters.c:395-443 | the counts of a brigade are the sums of those of its parts |
| `FlushRule.CountsOfOne` | Apache/server/core_filters.c:399-433 | a file bucket counts as file bytes, a memory or mapped one as non-file bytes, an EOR bucket as one EOR, and nothing else does |
| `FlushRule.SuffixNeedsNoMore` | Apache/server/core_filters.c:564-570 | deleting leading buckets creates no reason to flush |
| `LingeringClose.ShutdownConn` | Apache/server/connection.c:70-91 | FLUSH, if asked for, and EOC go through the filter in one dutiful call; with the flush bucket, a surviving connection has nothing buffered and everything submitted is on the wire |
| `LingeringClose.StartLingeringClose` | Apache/server/connection.c:121-147 | the last brigade goes through the filter; then the socket is half-closed, once, if and only if the connection is live, with everything sent; the result tells whether it was |
| `LingeringClose.Drain` | Apache/server/connection.c:182-205 | ends within the limit plus four seconds, and not before the limit while the client keeps sending |
| `LingeringClose.Close` | Apache/server/connection.c:149-208 | with a socket: the last brigade, the half-close of a live connection, the drain if that succeeds and only then, with the timeout of two seconds, and one close, last; without one, only the abort is marked and no call is made |
| `EorBuckets.Server.EorCreate` | Apache/server/eor_bucket.c:56-91 | one record and one pre-cleanup that point at each other |
| `EorBuckets.Server.RunCleanups` | Apache/server/eor_bucket.c:27-46 | every pending cleanup logs once, writes one line to the access log and makes its record forget the request |
| `EorBuckets.Server.DestroyPool` | Apache/server/eor_bucket.c:80-88 | destroying the pool logs each EOR once and leaves every link consistent |
| `EorBuckets.Server.DestroyBucket` | Apache/server/eor_bucket.c:93-105 | the last copy destroys the pool if it is there, and frees the record |
| `EorBuckets.Server.LoggedExactlyOnce` | Apache/server/eor_bucket.c:27-105 | in every reachable state: logged and pool destroyed once when the pool is gone and not before; a freed record's pool is gone; a live pool's cleanup points at a live record |
| `EorBuckets.Interleave` | Apache/server/eor_bucket.c:27-105 | after any interleaving, the request is logged once, with one line in the access log, if the last copy or the pool is gone |
| `RequestLog.LogOfRun` | Apache/server/eor_bucket.c:93-105 | the filter and the EOR buckets together: at any point of any run, with copies made and destroyed elsewhere and pools ended in between, each request that the filter logged was logged after the response its EOR ends was on the wire, or with the abort visible |
| `RequestLog.LogOfOrderlyRun` | Apache/server/eor_bucket.c:93-105 | when the callers hand over an orderly stream and nobody else acts on the requests, the access log has one line for each request whose EOR was destroyed, in the order in which the EORs were handed over |
| `RequestLog.Replay` | Apache/server/eor_bucket.c:27-105 | after any acts, in any order, each request has been logged, once for each EOR it was given, if and only if its pool is gone; the pool is gone if and only if something ended it or no copy is left; copies are counted; one of the acts accounts for each log entry; and the access log gained the lines of the requests whose pools went, in the order in which they went |
| `RequestLog.OnlyCopy` | Apache/server/eor_bucket.c:93-105 | if nobody copies a bucket, its only copy is left until something destroys it |
| `RequestLog.EntryIsInTime` | Apache/server/core_filters.c:712-721 | a log entry is in time, or somebody else destroyed the last copy or ended the pool |
| `InputFilter.CoreInputFilter` | Apache/server/core_filters.c:226-325 | both byte modes meet `InputCall`: a prefix of what is pending and no more than asked for, greedy, never empty when bytes are at hand, consumed by a read and not by a speculative read; bytes are put aside only when a copy fails, behind exactly what the call would have shown, and dropped only at a split; it reads, waiting only if it may, and without a read only finds that nothing is left; handing over nothing, it returns the status of its read; handing over less than asked for, it has all there is or was stopped by a read; EOS only at the end of the stream; a failed copy is reported |
| `InputFilter.DeliversAll` | Apache/server/core_filters.c:226-325 | when no read is refused and nothing fails, a call hands over all that it was asked for, or all that there is |
| `InputFilter.Session` | Apache/server/core_filters.c:226-325 | over any sequence of reads, whatever each returns, what plain reads returned is a prefix of the client's stream; with what is pending and put aside it makes up the stream if and only if no call found bytes put aside, and so as long as no copy failed |
| `InputFilter.SessionKeepsIff` | Apache/server/core_filters.c:226-325 | the same of any calls that meet `InputCall` |
| `InputFilter.WholeUnlessCopyFails` | Apache/server/core_filters.c:226-325 | a call on a context that holds the rest of the stream leaves one that does, unless a copy fails, and even then no byte is lost by that call |
| `InputFilter.LossExactly` | Apache/server/core_filters.c:298-299 | a call keeps every byte if and only if none is put aside when it is made; otherwise it loses exactly those |
| `InputFilter.StaysBacked` | Apache/server/core_filters.c:296-323 | whenever bytes are put aside, others are at hand in front of them |
| `InputFilter.FailedCopyThenLoss` | Apache/server/core_filters.c:310-320 | the call after a failed copy loses exactly what the failure put aside |
| `InputFilter.WitnessOfLoss` | Apache/server/core_filters.c:296-323 | a run from a fresh context on a two-byte stream: if the copy of the first byte fails in a peek, any next call loses the second |
| `InputFilter.PeekThenRead` | Apache/server/core_filters.c:291-323 | a read of at least the size of a successful speculative read, each blocking or not, starts with the bytes that were shown, and succeeds if any were |
| `InputFilter.ReadAfterPeek` | Apache/server/core_filters.c:291-323 | the same of any two calls that meet `InputCall` |
| `InputFilter.FillBrigade` | Apache/server/core_filters.c:128-294 | reads the first bucket, and fills without losing or reordering bytes; if it ends the call, no byte is left or its status is that of the read; a refusal counts as success, and the end is reported only there |
| `InputFilter.BeGreedy` | Apache/server/core_filters.c:260-289 | counts at least what was at hand, or the limit, and only bytes that are at hand; stops short of the limit only at the end or when a read stops it; never waits, and reads nothing if the first bucket is enough |
| `InputFilter.HandOver` | Apache/server/core_filters.c:296-324 | a read takes exactly n bytes off the front; a speculative read shows them and leaves what is pending whole; a copy that fails splits what is pending in two and loses none of it |
| `InputFilter.CopyInto` | Apache/server/core_filters.c:308-320 | copies in order up to one whose copy fails, and returns that status |
| `InputFilter.Normalize` | Apache/server/core_filters.c:61-75 | deletes exactly the empty data buckets |
| `InputFilter.DenseKeeps` | Apache/server/core_filters.c:61-75 | and thereby no byte, no metadata and no bucket with bytes |
| `Providers.Registry.Register` | Apache/server/provider.c:35-97 | keeps both indexes equal to what the history of registrations says |
| `Providers.Registry.Lookup` | Apache/server/provider.c:99-125 | finds what the history says for the key |
| `Providers.Registry.ListNames` | Apache/server/provider.c:127-166 | each registered name once, and nothing else |
| `Providers.Registry.ListGroups` | Apache/server/provider.c:168-198 | each registered group and version once, and nothing else |
| `Providers.Registry.Cleanup` | Apache/server/provider.c:28-33 | forgets every registration |
| `Providers.Index.Store` | Apache/server/provider.c:50-71 | one index: hashes are made on demand, one path changes, no other does |
| `Providers.Index.NothingShared` | Apache/server/provider.c:54-67 | no two entries share an inner hash, at either level |
| `Providers.LastRegistrationWins` | Apache/server/provider.c:69-71 | for any history, the last registration of a key decides what lookup finds |
| `Providers.ListedIffRegistered` | Apache/server/provider.c:73-94 | for any history, a name is listed exactly when it was ever registered |
| `Providers.IndexesAgreeIff` | Apache/server/provider.c:35-97 | the two indexes agree if and only if no key was last registered with a null provider |
| `Providers.WithdrawnProviderStaysListed` | Apache/server/provider.c:69-94 | a history after which a listed name is not found |

## Left out

- InputFilter.CoreInputFilter: `AP_MODE_GETLINE`, `AP_MODE_EATCRLF`, `AP_MODE_INIT` and `AP_MODE_EXHAUSTIVE`, and the lazy creation of the input context with its hook, are not modelled; they are single branches, or rest on library calls whose code is not part of this model.
- Connections.Connection: the filter context is created with the connection instead of at the first call, and its pool is not modelled.
- MarkOrder.PassInOrderIff: with buckets of unknown length in the brigade, whether a pass overtakes depends on what reads yield; then only the one direction of `PassInOrder` is claimed.
- OutputFilter.SetAside: `ap_save_brigade` is concatenation; what set-aside does to the memory behind a bucket is not modelled.
- OutputFilter.SendBrigade: TCP_NOPUSH, logging and the mod_logio counter have no effect on the brigade and are left out.
- OutputFilter.AwaitWritable: the length of the wait is not modelled, nor is the timeout passed to poll.
- Network.Socket: contracts stand for the socket calls and for poll; the clock moves only in a receive.
- FlushRule.ShouldSendBrigade: sums of lengths and the EOR counter are unbounded integers; wrap-around of `apr_size_t` and `apr_uint32_t` is not modelled.
- Backpressure after a call with a null brigade: the flush rules are not consulted then, so nothing is claimed.
- LingeringClose.Close: other output filters, the pre-close hook and the status update run without effect, and `NO_LINGCLOSE` is not defined.
- EorBuckets.Server.EorCreate: child status, the scoreboard and what the logging hook does are left out; the log is a count. A record made without its cleanup is not modelled.
- Providers.Index.Store: keys are values, so a caller that changes a key string after registering it is not modelled.
- server.js, boticelogic/chatbot.js, the build files and the rest of httpd.
