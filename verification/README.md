# Coord: verified model of the client, agent and sequencer protocols

Coord is a coordination service: a replicated multi-version key-value store with
transactions, watches and a certificate service. This project models the parts
whose correctness depends on interleavings and on byte order, and proves what
they promise for every run and every input.

* **Transactions.** A v1 transaction (compares, then one of two operation lists) is
  translated by the client into snapshot reads, a local evaluation that replays its own
  pending writes, and an optimistic commit. `Serializability.Serializable` says that any
  number of such clients, each advancing one RPC at a time against the commit sequencer
  and beside arbitrary other writers, behave as the original transactions executed one
  after another in commit order. The chain of results behind it: the replay shows what
  sequential execution would show (`TxnEquivalence`), the reads are a sufficient
  footprint, the server's read set keeps exactly the requested keys (`ReadSets`), the
  last-write index answers what a scan of the log would (`Sequencer`), and a snapshot
  agrees with the latest store on keys nobody wrote since (`Mvcc`). What the serial
  execution means is said of the store itself (`TxnMeaning`, `RowHistory`), and what a
  call answers of the steps of the run (`TxnReplies`).
* **Certificates.** Any number of agents issue, rotate and renew through versioned
  compare-and-swap; each store access is a step and calls interleave freely
  (`PkiProtocol`, `PkiSafety`, `PkiTheorems`, `PkiCa`), reading the latest store or the
  one at the agent's own floor. `PkiMeaning`, `PkiNames` and `PkiTimes` say which names,
  lifetimes and times the certificates carry. `KvPki` shows that the transactions sent to the key-value
  store refine that store.
* **Sessions and streams.** The agent's registry of transaction sessions (`Proxy`,
  `ProxyServer`, `ProxyAnswers`), the resumable watch (`Watch`, `WatchAnswers`), the bounded event queue (`Forwarder`), the
  credential refresher (`Refresher`), the retry policy and the read floor they share.
* **Keys.** Prefix successor, watch intervals, split point, region key encoding.

## Reading guide

Pure code is modelled by functions, and loops and objects by methods and classes whose
`ensures` tie them to those functions; lemmas then state what the functions mean.
Concurrent behaviour is a machine with `Enabled`, `Next` and `Run`: `Run` gives the state
after a sequence of steps, so a lemma about `Run(run)` covers every reachable state.

What is taken for granted, because the code takes it for granted: session ids,
transaction ids and certificate serials are fresh; the point index keys are distinct (no
hash collision); snapshots are taken at or below the published fence and commit
timestamps are allocated above it; integers do not overflow, except where a
width is written out; clocks are inputs and may jump. A transport failure is a step that
can happen anywhere, with the request applied or not.

An agent on the v1 data plane reads the latest store. On the v2 plane it reads at its
client's floor as it stood when the read was issued, so that another agent's certificate
above that floor is not seen yet. The certificate protocol has both kinds of agents, and
issuing a read, its answer, applying a write and its acknowledgement are separate steps.

The serial meaning of v1 transactions is the one published in
`apis/contracts/proto/coord/txn/txn.proto` and `apis/contracts/proto/coord/kv/kv.proto`,
with two readings taken from the code. A compare whose value does not fit its target does
not hold, as in the v1 handler (`coord-server/src/storage/mvcc.rs`, lines 2638-2680). The
`count` of a limited listing is the length of the page, as the translation answers;
`kv.proto` calls it the total number of hits. The v1 handler itself departs from the
contract (a transaction delete ignores `range_end`, a range its `revision`).

## Where the code differs from what is said of it

* `mid_key` is documented to lie strictly inside its bounds. It does exactly when
  `MidKey.HasRoom` holds; otherwise it is the upper bound, or the lower one or a key below
  it (`MidKey.MidWithoutRoom`).
* A row written inside a transaction is answered with zero revisions and version, and a
  keys-only read still carries its value (`CompatCalls.KeysOnlyValues`).
* The translation refuses a transaction for a malformed compare or operation only when it
  reaches it (`CompatCalls.BuildRefusedIff`). The v1 handler takes a compare whose value
  does not fit its target as not holding, and refuses an empty operation in either branch.
* An interval delete with empty or reversed bounds is refused at commit, where v1 would
  delete nothing (`CompatCalls.CommitRefusedIff`).
* Listing the certificates of a name by its history prefix also returns the history of
  names that extend it past a slash (`KvPki.HistoryScanHits`).
* The refresher is documented to clear the credential when it stops. It does so exactly
  when the session in use carried a refresh token (`Refresher.ClearedAtEndIff`).
* On the v2 plane, renewing by serial is not certain to find a certificate that another
  agent issued above the caller's floor (`PkiTheorems.KnownIff`,
  `PkiExamples.RenewalMissesAboveFloor`).
* The region key decoder rejects the empty user key that the encoder accepts
  (`Region.UserKeyRoundTripIff`).

## Model

| member | source | states |
|---|---|---|
| `Serializability.Serializable` | coord-client/src/v2_compat.rs:124-197 | in every run, every committed transaction, malformed in parts it never reached or not, has the branch, the responses and the store that serial execution of the original v1 transactions in commit order gives |
| `Serializability.RepliesAreHonest` | coord-client/src/v2_compat.rs:124-197 | a call decides at most once; a success names its one log entry; rejected, exhausted and running calls left no trace; giving up takes one conflict more than the allowed reruns |
| `TxnReplies.RepliesTellEvents` | coord-client/src/v2_compat.rs:124-142 | counting the steps of the run: a call has given up if and only if one more of its commits than the allowed reruns was judged a conflict; it is refused, acknowledged or in doubt if and only if one of its steps was a refusal, an acknowledged commit or a loss |
| `TxnReplies.ConflictIsRerun` | coord-client/src/v2_compat.rs:135-138 | a commit judged a conflict sends its call back to the beginning while reruns are left, and decides nothing |
| `TxnReplies.RefusalHasCause` | coord-client/src/v2_compat.rs:144-197 | a call is refused only if the translation does not accept the transaction on its snapshot, it reads too much, its branch cannot be committed, or the verdict is neither a commit nor a conflict |
| `TxnReplies.LogTellsCommits` | coord-server/src/storage/mvcc.rs:4230-4403 | the decision log is exactly the accepted commits of the run, in order, whether or not their replies arrived |
| `Serializability.ConflictHasRival` | coord-client/src/txn_v2.rs:20-27 | a conflict is never spurious: some key the attempt read was written after its snapshot |
| `Serializability.RunInv` | coord-client/src/v2_compat.rs:155-231 | every step of every client, and every foreign commit, keeps the cluster invariant |
| `Serializability.CommitIsSerial` | coord-client/src/v2_compat.rs:155-197 | an accepted commit takes the latest store to what the serial transaction makes of it, although it was computed on an older snapshot |
| `TxnEquivalence.ReplayIsSequentialView` | coord-client/src/v2_compat.rs:339-387 | replaying pending writes over a restricted read equals restricting the store that sequential execution has reached, for every interval and write list |
| `TxnEquivalence.ApplyOpsIsSerial` | coord-client/src/v2_compat.rs:233-333 | for every operation list, the mutation list applied in order leaves the store of one-by-one execution, and each response is what that execution sees at that operation |
| `TxnEquivalence.OpAgrees` | coord-client/src/v2_compat.rs:233-333 | one put, delete or range answered from the snapshot and the pending writes agrees with the operation run on the store reached so far |
| `TxnEquivalence.ComparesAgree` | coord-client/src/v2_compat.rs:467-502 | evaluation up to the first failing compare, unless refused, gives the conjunction of all compares, a malformed one not holding; nothing well formed is refused |
| `TxnMeaning.SucceedsIff` | coord-client/src/v2_compat.rs:467-502 | a transaction takes its success branch if and only if every compare stands in the asked relation (equal, greater, less, not equal) between the row's version, value or mod revision, 0 or empty when absent, and its operand |
| `TxnMeaning.BuildSucceedsIff` | coord-client/src/v2_compat.rs:199-231 | so does every transaction the translation accepts, and the branch taken is well formed |
| `TxnMeaning.RangeAnswers` | coord-client/src/v2_compat.rs:296-329 | a listing returns the first live matching rows in strictly increasing key order, as many as the limit allows or all without one, with none left out before the last, and counts them; a count-only request counts every live match |
| `TxnMeaning.DeleteAnswers` | coord-client/src/v2_compat.rs:269-295 | a delete counts all live matching rows and returns all of them if asked to |
| `TxnMeaning.PutAnswers` | coord-client/src/v2_compat.rs:247-268 | a put returns the live row it replaces if and only if asked to and there is one |
| `TxnEquivalence.BuildTxnIsSerial` | coord-client/src/v2_compat.rs:199-231 | whenever the translation accepts a transaction on a store, it is the serial transaction on that store |
| `TxnEquivalence.ReadsAreFootprint` | coord-client/src/v2_compat.rs:199-333 | two snapshots that agree on every recorded read give the same branch, mutations, responses and reads |
| `V2Compat.Replay` | coord-client/src/v2_compat.rs:339-387 | the in-place row map ends as the rows of the replayed write list that match the request, in key order |
| `CompatSession.Session.Read` | coord-client/src/txn_v2.rs:98-127 | a session read records its intent and answers the pinned snapshot; a read that fails may still have been recorded |
| `CompatSession.PreviousValue` | coord-client/src/v2_compat.rs:247-254 | a put that asks for it gets the row its own transaction would see, and records a point read |
| `CompatSession.Respond` | coord-client/src/v2_compat.rs:233-333 | one operation of the loop issues its read and forms the specified response and record |
| `CompatSession.RunApplyOps` | coord-client/src/v2_compat.rs:233-333 | the operation loop computes the specified effects and records exactly the specified reads |
| `CompatSession.EvaluateCompares` | coord-client/src/v2_compat.rs:199-231 | the compare loop chooses the branch the specification chooses |
| `CompatSession.RunBuildTxn` | coord-client/src/v2_compat.rs:199-231 | the whole read phase on a fresh session gives the specified branch, mutations, responses and read record, or fails only as specified |
| `CompatCalls.PlanDelete` | coord-client/src/v2_compat.rs:86-121 | the delete call's read and mutation are those of the one-operation delete transaction |
| `CompatCalls.DeleteCountsRemoved` | coord-client/src/v2_compat.rs:86-121 | a delete removes exactly the live matching keys, and counts them |
| `CompatCalls.DeleteCountIsExact` | coord-client/src/v2_compat.rs:86-121 | in every run, the reported count is the number of keys the commit removed from the store just before it, point or interval |
| `CompatCalls.BuildRefusedIff` | coord-client/src/v2_compat.rs:199-333 | a transaction is refused exactly when a malformed compare precedes every failing one, or the chosen branch holds a malformed operation |
| `CompatCalls.MalformedTailAccepted` | coord-client/src/v2_compat.rs:199-231 | a malformed compare behind a failing one passes unnoticed |
| `CompatCalls.CommitRefusedIff` | coord-server/src/kvt/services.rs:832-883 | the server refuses a built transaction as malformed exactly when its branch has a negative lease or an interval delete that names no key |
| `CompatCalls.RefusedDeleteIsNoOp` | coord-server/src/kvt/services.rs:832-883 | such a delete would remove nothing in v1 |
| `CompatCalls.ReversedDeleteRefused` | coord-server/src/kvt/services.rs:832-883 | a concrete delete with reversed bounds is built and then refused |
| `CompatCalls.KeysOnlyValues` | coord-client/src/v2_compat.rs:296-330 | a keys-only answer carries a value exactly for non-empty rows written in the same transaction |
| `CompatCalls.KeysOnlyLeak` | coord-client/src/v2_compat.rs:296-387 | a concrete keys-only read that returns a value |
| `ReadSets.MergeRanges` | coord-server/src/kvt/txn.rs:131-151 | the in-place merge of a sorted list is the specified merge |
| `ReadSets.MergeCanonical` | coord-server/src/kvt/txn.rs:131-151 | merging covers the same keys with sorted, disjoint, non-adjacent, non-empty intervals |
| `ReadSets.SessionReadSet.TryAddPoint` | coord-server/src/kvt/txn.rs:88-97 | adding a point gives the specified read set, or leaves it unchanged at the limit |
| `ReadSets.SessionReadSet.TryAddRange` | coord-server/src/kvt/txn.rs:99-129 | adding a range gives the specified read set, or leaves it unchanged at the limit |
| `ReadSets.RecordAllRepresents` | coord-server/src/kvt/txn.rs:76-160 | after any sequence of reads the set is canonical and represents exactly those reads |
| `ReadSets.RepresentsCoverage` | coord-server/src/kvt/txn.rs:76-160 | a key was read if and only if the points or ranges handed to the sequencer cover it |
| `ReadSets.CanonicalUnique` | coord-server/src/kvt/txn.rs:131-151 | two canonical interval lists that cover the same keys are equal |
| `ReadSets.OrderIndependent` | coord-server/src/kvt/txn.rs:88-151 | the order and repetition of reads do not change the read set |
| `ReadSets.LimitIff` | coord-server/src/kvt/txn.rs:88-129 | a read is refused if and only if it needs an entry of its own and as many as allowed are in use |
| `Sequencer.IndexAllSummarizes` | coord-server/src/storage/mvcc.rs:4412-4461 | indexing a decision keeps the last-write index a faithful summary of the whole log |
| `Sequencer.PointHitExact` | coord-server/src/storage/mvcc.rs:4949-5071 | the index reports a point conflict if and only if the log writes the key after the snapshot |
| `Sequencer.RangeHitExact` | coord-server/src/storage/mvcc.rs:5073-5182 | the index reports a range conflict if and only if the log writes some key of the range after the snapshot |
| `Sequencer.AfterKeepsInv` | coord-server/src/storage/mvcc.rs:4230-4403 | commit timestamps stay increasing, each transaction decides once, and the index still summarises the log |
| `Sequencer.CommittedReadsAreFresh` | coord-server/src/storage/mvcc.rs:4230-4403 | a committed candidate read nothing that was written after its snapshot |
| `Sequencer.ConflictIsReal` | coord-server/src/storage/mvcc.rs:4230-4403 | a conflict verdict means that some key read was written after the snapshot |
| `Sequencer.VerdictIff` | coord-server/src/storage/mvcc.rs:4230-4403 | told from the log: a new candidate that is in order and within the bounds is committed if and only if nothing it read was written after its snapshot, and is a conflict otherwise; an older commit timestamp is out of order |
| `Sequencer.DuplicateIff` | coord-server/src/storage/mvcc.rs:4230-4403 | an id is answered as a duplicate if and only if the log holds its decision, and with that timestamp |
| `Sequencer.CommitSequencer.AnyPointHit` | coord-server/src/storage/mvcc.rs:4321-4342 | the point loop finds a conflicting key if and only if there is one |
| `Sequencer.CommitSequencer.ScanRanges` | coord-server/src/storage/mvcc.rs:4344-4367 | the range loop stops at the first hit or exceeded budget, as specified |
| `Sequencer.CommitSequencer.ValidateAndCommit` | coord-server/src/storage/mvcc.rs:4230-4403 | validation gives the specified verdict and new state, scanning points and ranges one by one, and keeps the invariant |
| `Mvcc.SnapshotAgrees` | coord-server/src/storage/mvcc.rs:4569-4730 | a key not written since the snapshot has the same row there as in the latest store |
| `Kv.ApplyFrame` | coord-server/src/storage/mvcc.rs:4569-4730 | applying a mutation list leaves every key that no mutation names as it was |
| `RowHistory.RowTellsHistory` | coord-server/src/storage/mvcc.rs:719-752 | after any log a key has a row if and only if it was ever put, and the row tells its first put, its last one, whether and when that was erased, and how many writes took effect |
| `PkiTheorems.LinearHistory` | coord-agent/src/pki.rs:448-529 | in every run the certificates of a name form one parent chain ending in the active one, the version is its length, and the history is exactly the others, retired |
| `PkiTheorems.SerialsAreUnique` | coord-agent/src/pki.rs:448-529 | no serial is active or retired twice, within a name or across names |
| `PkiTheorems.AnsweredStaysFindable` | coord-agent/src/pki_store.rs:538-576 | every certificate ever returned was unexpired when decided and is still found by serial, under its true name |
| `PkiNames.CertificatesCarryNames` | coord-agent/src/pki.rs:189-209 | every certificate carries the lifetime and the names its author's request asked for: the requested names, else for a rotation or renewal those of the certificate before it, else the common name alone |
| `PkiNames.AnswerIsAsAsked` | coord-agent/src/pki.rs:448-529 | a caller is answered a certificate it wrote itself or, if it did not ask for a new one, an unexpired one with exactly the names and lifetime it asked for |
| `PkiTimes.CertificatesAreTimely` | coord-agent/src/pki.rs:593-660 | every certificate was signed by its author at the moment its validity begins, and every answer was decided then or at one of the call's own reads |
| `PkiTheorems.ExhaustionIsPaid` | coord-agent/src/pki.rs:457-528 | a call gives up only after at least five writes to its name beyond those its agent was sure to see at the start, by five different other calls; all but the first of them fell during the call, and that one too on the v1 plane or with a floor that was up to date |
| `PkiTheorems.RenewFindsTrueName` | coord-agent/src/pki.rs:395-411 | a renewal's two scans reach the issuing name and miss no serial that the agent's reads were sure to show when it began, whatever rotates in between |
| `PkiTheorems.KnownIff` | coord-client/src/v2_compat.rs:58-80 | those serials are all the issued ones on the v1 plane, and the ones written at or below the agent's floor on the v2 plane |
| `PkiTheorems.ScanFindsIff` | coord-agent/src/pki_store.rs:538-576 | scanning any earlier store finds a serial if and only if its certificate had been written by then |
| `PkiExamples.ExhaustionIsTight` | coord-agent/src/pki.rs:457-528 | that bound is reached: on the v2 plane a call can give up after exactly four writes made while it ran |
| `PkiExamples.FirstRaceLostToEarlierWrite` | coord-agent/src/pki.rs:457-528 | on the v2 plane a call can lose its first race to a write made before it began |
| `PkiExamples.RenewalMissesAboveFloor` | coord-agent/src/pki.rs:395-411 | on the v2 plane a renewal can miss a serial issued before it began |
| `PkiTheorems.IssueIsIdempotent` | coord-agent/src/pki.rs:464-474 | issuing again with the same name, lifetime and sets of names, before expiry and without a write in between, answers the identical record, whatever store answers a read whose floor showed that record when it was issued |
| `PkiSafety.SwapIff` | coord-agent/src/pki_store.rs:347-370 | the compare-and-swap succeeds exactly when the name was not written since the store that was read |
| `PkiSafety.ReadShows` | coord-client/src/v2_compat.rs:58-80 | a read shows an initial part of the chain, at least as long as the floor it was issued at promises, and exactly that long once that floor shows any certificate of the name |
| `PkiSafety.AckShows` | coord-client/src/client.rs:284-286 | once a refused write is acknowledged, every read the agent issues shows the certificates that beat it |
| `PkiSafety.WonRaceStore` | coord-agent/src/pki.rs:476-526 | the winning write appends one certificate whose parent is the one it replaced, retires that one, and touches no other name |
| `PkiSafety.RunInv` | coord-agent/src/pki.rs:448-529 | every step of every agent keeps the chain, author, serial and call invariants |
| `PkiEnsure.EnsureCert` | coord-agent/src/pki.rs:448-529 | the loop's answer is the store's active record: one that can be reused, with the names and lifetime asked for, or one signed in that turn with the names it should carry, its predecessor retired in the history; giving up means that rivals wrote in every turn, and accounts for all of them |
| `PkiRequest.Normalize` | coord-agent/src/pki.rs:139-158 | validation refuses exactly the requests with a bad name or address, and otherwise gives the sorted sets |
| `PkiRequest.NormalizedCanonical` | coord-agent/src/pki.rs:139-158 | two valid requests normalise alike if and only if they name the same sets |
| `PkiMeaning.DecideIff` | coord-agent/src/pki.rs:464-487 | the record read is answered if and only if it can be reused, the request is refused if and only if it leaves nothing to certify, and otherwise the names signed are the ones it should carry |
| `PkiMeaning.DnsByteIff` | coord-agent/src/pki.rs:162-176 | host names consist of letters, digits, hyphen, dot, underscore and asterisk |
| `PkiStore.MemoryPkiStore.GetCertWithVersion` | coord-agent/src/pki_store.rs:282-294 | record and version of the active certificate, read together |
| `PkiStore.MemoryPkiStore.CreateIfAbsent` | coord-agent/src/pki_store.rs:300-310 | creates at version 1 or changes nothing |
| `PkiStore.MemoryPkiStore.ReplaceIfVersion` | coord-agent/src/pki_store.rs:347-370 | moves the retired record to the history and installs the new one at the next version, or changes nothing |
| `PkiStore.MemoryPkiStore.GetBySerial` | coord-agent/src/pki_store.rs:333-345 | answers a record with that serial, active ones first, and none only when there is none |
| `PkiStore.MemoryPkiStore.ListCerts` | coord-agent/src/pki_store.rs:312-331 | returns exactly the unexpired active and historical records of the name |
| `PkiCa.CaAgreement` | coord-agent/src/pki.rs:273-326 | agents whose initialisation succeeded hold the same stored authority, and a rereader never finds the store empty |
| `PkiCa.CaIsForever` | coord-agent/src/pki_store.rs:269-276 | once an agent holds an authority, no later step of anyone replaces it |
| `PkiCa.FailureHasCause` | coord-agent/src/pki.rs:273-326 | initialisation fails only if the call was broken off, the reply to its creation was lost, or the key to load does not parse |
| `KvPki.CreateRefines` | coord-agent/src/pki_store.rs:472-490 | the create transaction succeeds exactly with the abstract create and leaves a store that represents its result |
| `KvPki.ReplaceRefines` | coord-agent/src/pki_store.rs:578-630 | the replace transaction succeeds exactly with the abstract replace, and writes history and active record both or neither |
| `KvPki.ReadRefines` | coord-agent/src/pki_store.rs:436-451 | one point read answers the active record together with its version |
| `KvPki.HistoryKeyInjective` | coord-agent/src/pki_store.rs:188-200 | history keys tell name and serial apart even when names hold slashes |
| `KvPki.HistoryScanHits` | coord-agent/src/pki_store.rs:516-534 | the history scan of a name sees exactly that name and those extending it past a slash |
| `KvPki.HistoryScanLeaks` | coord-agent/src/pki_store.rs:516-534 | listing "a" returns the history of "a/b" |
| `ProxySafety.OneUpstreamCall` | coord-agent/src/proxy_v2.rs:485-576 | per transaction id at most one upstream call is outstanding, of any kind |
| `ProxySafety.DecisionIsFinal` | coord-agent/src/proxy_v2.rs:517-558 | once a commit or conflict was answered, no later request for the id reaches upstream and no other request is answered with a decision |
| `ProxySafety.FailedCommitCanRetry` | coord-agent/src/proxy_v2.rs:549-556 | a commit that failed upstream leaves the same session registered again under its id |
| `ProxySafety.SecondCommitFindsNothing` | coord-agent/src/proxy_v2.rs:529-533 | while one commit or abort is under way, a second commit is answered not-found at once |
| `ProxySafety.RunInv` | coord-agent/src/proxy_v2.rs:460-576 | every lookup, lock, reply, cancellation, reinsertion and sweep keeps the right to decide unduplicated |
| `ProxyAnswers.AnswersTellReplies` | coord-agent/src/proxy_v2.rs:485-576 | over the steps of the run: a request is answered committed, conflict or served if and only if upstream said so in reply to it, and with an upstream error if and only if upstream failed it, a commit once its session is registered again |
| `ProxyAnswers.LookupFindsIff` | coord-agent/src/proxy_v2.rs:395-415 | a lookup finds a session if and only if it is open: begun, or returned by a failed commit, and since then neither taken by a commit or abort, nor found gone upstream, nor swept after an hour and a minute without use |
| `ProxyServer.Serve` | coord-agent/src/proxy_v2.rs:460-576 | the proxy, slot objects updated in place, ends every run of steps in the state the machine ends in |
| `ProxyServer.TxnV2Proxy.Find` | coord-agent/src/proxy_v2.rs:485-533 | the lookup of a read, commit or abort is that step of the machine |
| `ProxyServer.TxnV2Proxy.Lock` | coord-agent/src/proxy_v2.rs:494-535 | taking the mutex and the session is that step, and leaves every other slot alone |
| `ProxyServer.TxnV2Proxy.Reply` | coord-agent/src/proxy_v2.rs:494-576 | the upstream answer is that step: released in all cases, the session back only after a failed commit |
| `ProxyServer.TxnV2Proxy.Sweep` | coord-agent/src/proxy_v2.rs:410-415 | keeps exactly the registry entries used within the idle bound |
| `WatchSafety.NothingSkipped` | coord-client/src/watch_v2.rs:215-329 | from an explicit start or the first cursor on, batches are successive log stretches that step back only after a cursorless one; every position up to a batch's end, and up to its own cursor, was delivered |
| `WatchSafety.ExplicitStart` | coord-client/src/watch_v2.rs:223-238 | with a start revision or cursor the guaranteed stretch begins right there |
| `WatchSafety.ErrorIsLast` | coord-client/src/watch_v2.rs:262-326 | a watch reports at most one error and nothing after it |
| `WatchSafety.ReconnectsBounded` | coord-client/src/watch_v2.rs:276-327 | the stream is reopened at most the allowed number of times since the last item was handed over, counted in what the loop awaited; the wait before each is the prescribed one; giving up means all were used |
| `WatchSafety.HistoryGoneIsTerminal` | coord-client/src/watch_v2.rs:301-408 | losing the history, on an open stream or when opening it, ends the watch whatever the transport code: nothing follows but that one error |
| `WatchAnswers.LoopStandsWhere` | coord-client/src/watch_v2.rs:215-329 | told from the inputs: the loop sleeps the prescribed wait after every transient failure while reopenings are left and then gives up, reports any other failure, reopens at the last cursor or else at the start asked for, and hands each response over once and in full |
| `WatchAnswers.BeforeSplits` | coord-client/src/watch_v2.rs:223-238 | a start revision skips exactly the events committed before it |
| `WatchLoop.RunTask` | coord-client/src/watch_v2.rs:215-329 | the watch loop's variables follow the machine, whatever it awaits |
| `Retry.RetryState.NextAttempt` | coord-client/src/retry.rs:48-57 | grants the next wait of the policy while any is left |
| `Retry.RetryState.Reset` | coord-client/src/retry.rs:60-63 | the full budget and the initial wait are available again |
| `Retry.DoubleThenCap` | coord-client/src/retry.rs:48-57 | doubling the capped wait and capping again never loses a doubling |
| `Retry.CappedIff` | coord-client/src/retry.rs:48-57 | every wait is the capped power of two exactly when the policy starts below its cap |
| `Forwarder.DropsAreAnnounced` | coord-client/src/client.rs:1443-1475 | the stream is the input with blocks of two or more dropped events each replaced by one marker; the flag is up exactly while a dropped tail is unannounced; the capacity holds |
| `Forwarder.SilenceIsComplete` | coord-client/src/client.rs:1443-1475 | a stream without markers is the whole input, event for event |
| `Forwarder.StretchIsComplete` | coord-client/src/client.rs:1443-1475 | any marker-free stretch of the stream is a stretch of the input: no two events stand next to each other across a silent gap |
| `Forwarder.StreamIs` | coord-client/src/client.rs:1443-1475 | told from the inputs: each event that finds room yields one item, itself or a marker if the one before it was missed, and an event is missed only when the queue is full |
| `Forwarder.ForwardWatchEvent` | coord-client/src/client.rs:1443-1475 | one call updates queue and flag as specified and is false exactly when the receiver is gone |
| `Refresher.RefresherIsSafe` | coord-client/src/refresh.rs:153-226 | the credential is empty or the latest issued, empty throughout recovery; the loop ends only without recovery; recovery waits double up to the cap |
| `Refresher.ClearedAtEndIff` | coord-client/src/refresh.rs:153-226 | when the loop has stopped, the credential is cleared if and only if the session in use carried a refresh token |
| `Refresher.NoTokenTwice` | coord-client/src/refresh.rs:153-226 | if issued refresh tokens differ, no token is handed to the gateway twice, and each one handed over was issued |
| `Refresher.NextRefreshDelay` | coord-client/src/refresh.rs:97-110 | never below the minimum interval, never before the lead time, and exactly the lead time when above the minimum |
| `Refresher.RenewsInTime` | coord-client/src/refresh.rs:97-110 | the next renewal is due the lead time before the current session expires, or after the minimum interval when that is later |
| `Refresher.MissingTokenKeepsCredential` | coord-client/src/refresh.rs:168-177 | stopping for want of a refresh token leaves the credential cached |
| `Refresher.LoopStandsWhere` | coord-client/src/refresh.rs:153-226 | told from the inputs: the phase of the loop, its backoff and the cached credential are exactly what the session in use and the wake-ups and refusals since it was issued make them |
| `Refresher.RunLoop` | coord-client/src/refresh.rs:153-226 | the loop's variables, the token cache and the tokens sent follow the machine |
| `ReadFloor.ReadYourWrites` | coord-client/src/v2_compat.rs:58-80 | whenever a latest-revision range of any clone is served beside a running cluster, the timestamp the server resolves is at least every commit acknowledged to any clone when the range was issued, and what it reads is a prefix of the decisions that holds them all |
| `ReadFloor.AskSettles` | coord-client/src/v2_compat.rs:58-80 | a latest-revision range asks for the floor of the moment it is issued, over all commits acknowledged then, and no later acknowledgement changes that |
| `ReadFloor.ServedIsSettled` | coord-server/src/kvt/services.rs:560-567 | what is read at or below the safe timestamp is never changed by a later step |
| `ReadFloor.SharedAreMaxima` | coord-client/src/client.rs:284-329 | in every run the floor is the largest acknowledged commit and the epoch the largest one taught by a stale-epoch rejection |
| `ReadFloor.SharedNeverDecrease` | coord-client/src/client.rs:284-329 | neither shared value ever decreases |
| `ReadFloor.Client.ObserveCommitTs` | coord-client/src/client.rs:284-286 | the floor becomes the larger of itself and the acknowledged commit |
| `ReadFloor.Client.RangeReadTs` | coord-client/src/v2_compat.rs:58-72 | revision 0 reads at the floor, a positive revision at itself, a negative one is refused |
| `ReadFloor.Client.LearnRoutingEpoch` | coord-client/src/client.rs:314-329 | only a stale-epoch status with a readable trailer changes the epoch, and never downwards |
| `KvRange.ComputePrefixSuccessor` | coord-core/src/kv_range.rs:66-75 | the pop-and-increment loop computes the specified successor |
| `KvRange.PrefixSuccessorExact` | coord-core/src/kv_range.rs:66-75 | from a prefix up to its successor lie exactly the keys with that prefix |
| `KvRange.SuccessorNoneIffAllMax` | coord-core/src/kv_range.rs:66-75 | there is no successor exactly for the empty and the all-0xFF prefixes |
| `KvRange.WatchIntervalExact` | coord-core/src/kv_range.rs:123-164 | the interval used for authorization holds exactly the delivered keys |
| `KvRange.WatchRangePreservesPrefix` | coord-client/src/v2_compat.rs:509-521 | rewriting a prefix watch keeps its key set, and is refused exactly for a non-empty all-0xFF prefix |
| `KvRange.SplitPartitions` | coord-core/src/types.rs:116-119 | a split at an inside key puts every key of the region, and no other, in exactly one half |
| `MidKey.ComputeMidKey` | coord-core/src/kv_range.rs:82-118 | the carry loop computes the specified midpoint |
| `MidKey.AverageBytes` | coord-core/src/kv_range.rs:98-108 | the loop with its carry produces the specified digits |
| `MidAverage.AverageIff` | coord-core/src/kv_range.rs:98-108 | the loop yields the exact average of the padded bounds if and only if no sum of two bytes and its carry reaches 512; each one that does loses its top bit |
| `MidKey.MidInsideIffRoom` | coord-core/src/kv_range.rs:82-118 | the midpoint is strictly inside the bounds if and only if they leave room, a condition on the two keys |
| `MidKey.MidWithoutRoom` | coord-core/src/kv_range.rs:82-118 | without room the midpoint is the upper bound itself for bounds of one recognisable shape, and otherwise the lower bound or a key below it; it is never beyond the upper bound |
| `MidKey.MidKeySplits` | coord-core/src/kv_range.rs:82-118 | with room, splitting there partitions the region into two non-empty halves |
| `MidKey.MidReachesEnd` | coord-core/src/kv_range.rs:82-118 | adjacent bounds: the midpoint is the upper bound itself |
| `MidKey.MidFallsBelowStart` | coord-core/src/kv_range.rs:82-118 | dropping the carry can put the midpoint below the lower bound |
| `MidKey.MidIsStart` | coord-core/src/kv_range.rs:82-118 | the midpoint can be the lower bound itself |
| `Region.EncodeInjective` | coord-core/src/region.rs:56-119 | no two keys collide across kinds, regions and suffixes |
| `Region.LogKeysSort` | coord-core/src/region.rs:80-107 | log and changelog keys of a region sort as their numbers do |
| `Region.HexOrder` | coord-core/src/region.rs:38-40 | fixed-width hexadecimal sorts byte-wise as the numbers do, at any width |
| `Region.HexAt` | coord-core/src/region.rs:38-40 | each byte is the lower-case character of the digit with that weight |
| `Region.PrefixLayout` | coord-core/src/region.rs:56-62 | a region key begins with "/r/", sixteen such digits and a slash |
| `Region.KeyFormats` | coord-core/src/region.rs:56-119 | the kinds are spelled as documented |
| `Region.RegionsDoNotInterleave` | coord-core/src/region.rs:56-107 | all keys of a region precede all keys of a higher-numbered one |
| `Region.RegionIdRoundTrip` | coord-core/src/region.rs:155-161 | every region-scoped key gives its region id back |
| `Region.UserKeyRoundTripIff` | coord-core/src/region.rs:127-150 | decoding inverts encoding exactly for non-empty user keys |
| `Region.ComputeUserKey` | coord-core/src/region.rs:127-150 | the slash-counting scan finds what follows the fourth slash, for any input |

## Left out

- Raft replication, the timestamp oracle and cross-region apply: the sequencer is one atomic log, as its single writer makes it.
- Session expiry, draining for splits and replay of a commit by request id on the server: a session is either usable or its call fails.
- PkiProtocol: the in-memory store's window between reading a record and reading its version is not modelled; both stores read them together here.
- PkiRequest: parsing of IP addresses is a parameter.
- CompatCalls: `kv_put` is a commit without reads, one of the foreign commits of the cluster; it gets no theorem of its own.
- Proxy: cancelling a request ends its upstream call; what the server does with a cancelled commit is not promised.
- Proxy: what an abort answers while a commit is in flight is not promised.
- Watch: a cursor is the number of matching events before it; shards and the history window appear only as the terminal error.
- Watch: the position a subscription publishes before handing a batch over is not claimed as a resume point.
- `v1_events`, and `watch_range` with an explicit `range_end`: both differ from the v1 event set by design.
- `execute_write_with_retry`, `retry_epoch_stale` and leader discovery: bounded loops over the same retry policy, easy beside the rest.
- Certificate signing, chain verification, keyrings, JSON and protobuf codecs: signing yields a record with a fresh serial and the asked lifetime, codecs are injective functions.
- The key-value read cache, which accepts staleness by design; feature flags, approvals, metrics, TLS and wiring.
