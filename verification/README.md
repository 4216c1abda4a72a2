# Verification of orbis-rs

A Dafny model of the parts of orbis-rs whose correctness does not show in any one
function, with proofs about it. `dafny verify dfyconfig.toml` checks the whole project.

The model has seven parts.

- The peer connection pool (`PeerPool`, `PoolProtocol`, `PoolCalls`). The timestamped map of
  connections is a class that refines a bounded recency list. Its critical sections are
  the atomic steps of an interleaving state machine over any number of tasks, each with a
  program counter at every await, each cancellable there. `PoolCalls` tells what each call comes to from what it met on the
  way. Access ticks are unbounded naturals.
- Ring storage (`Bytes`, `Options`, `BundleCodec`, `RingHistory`). Two nested length-prefixed
  formats, and the pruned history of retired polynomials, written in two writes that a
  crash can separate.
- The benchmark harness (`Chunking`, `Broadcast`, `TextLines`, `TrialLog`, `Csv`,
  `Planner`, `MetricLabels`). The bisecting broadcaster against an arbitrary oracle, the crash-safe
  trial log, the CSV printer and parser, the experiment planner and the metric keys.
- Threshold cryptography (`Algebra`, `Polynomial`, `Lagrange`, `Threshold`, `Dkg`,
  `Lifecycle`, `HonestRuns`, `Agreement`, `Frost`, `Reencryption`, `Equivocation`, `SmallCurve`).
  Scalars are an abstract field and points an abstract group over it whose generator has prime order; hashes are function
  parameters, so every theorem holds for all of them. Lagrange interpolation is proved
  from divided differences, for scalars and for arbitrary points. On top of it: a node of
  the key generation, rings over any history of refreshes and reshares whose dealers may
  show every member something else and whose results are stored once member 1 has collected
  a quorum's signature, threshold signing, and re-encryption. `SmallCurve` shows the
  assumptions can be met and carries one counterexample, `Equivocation` another.
- Transcripts (`Transcript`). The canonical encodings and what the digests hash.
- The stand-alone verifier (`SchnorrBuffer`). The exports over one shared buffer, and the
  agreement with the nodes' verifier.
- Metric guards (`MetricGuards`). Guard objects over shared counters, and any run of them.

Random numbers, clocks, network answers, storage contents, JSON and hash functions are
parameters. Node identifiers, counts and ticks are unbounded; widths are modelled where the
code casts or can overflow (length prefixes, cursors, the 32-bit address arithmetic of the
verifier, saturating subtraction). Automatic induction is switched off on every lemma, so
every inductive step is written out.

## Where code and documentation differ

- `crates/crypto/src/context.rs` says that no two distinct contexts share an encoding. The
  length of a field is cast to 32 bits. `Transcript.ContextsInjectiveIff` and
  `Transcript.ReadersInjectiveIff` give the exact condition: for fields below a bound the
  claim holds if and only if the bound is at most 2^32.
- `ThresholdJubjubSigner::recover` says that the summed shares must be one per participant
  of the commitment list. The code refuses repeats and strangers but accepts some of the
  participants when the threshold is met. `Frost.VerifiesIff` says exactly when the result
  verifies and `SmallCurve.PartialFails` is a case where it does not.
- A reshare is meant to leave all members with shares of one polynomial. Each member checks
  only the commitments it was shown (`phase4.rs` compares the key). What guards the result is
  the signature behind `reshare/bulletin_update.rs`: member 1 holds every signer's share
  against its own staged polynomial, and members store what they staged once the bulletin
  confirms committee and threshold (`reshare/cleanup.rs`). So the signers of every stored
  reshare keep the secret, whatever the dealers showed (`Lifecycle.SignersKeepSecret`,
  `Reencryption.SignersOpen`), and a member that did not sign may not have a share of it
  (`Equivocation.SignersKeepOthersLose`). A refresh is stored only by members with member 1's
  polynomial (`refresh_health_check.rs`), so there every quorum of those that stored it keeps
  the secret (`Lifecycle.SecretSurvives`). `Agreement.WholeRingIff` says exactly when all
  groups of a ring hold its secret.
- `ciphertext_digest` hashes the nonce without its length; see
  `Transcript.CiphertextPreimageInjective`. The callers fix the length at 12.
- A newline inside a quoted CSV field is written by `append_resource` but ends the line for
  its reader; see `Csv.FileReadsBack`.

## Model

| member | source | states |
|---|---|---|
| PeerPool.PeerConnectionPool.constructor | bin/orbis-node/src/app_state.rs:68-74 | An empty pool whose capacity is at least one. |
| PeerPool.PeerConnectionPool.NextAccess | bin/orbis-node/src/app_state.rs:76-78 | Hands out the clock and advances it by one; the tick is above every tick in the map and the pool stays valid. |
| PeerPool.PeerConnectionPool.Get | bin/orbis-node/src/app_state.rs:80-85 | Returns the one connection under the key and makes that key the most recent; a miss changes nothing. |
| PeerPool.PeerConnectionPool.TakeIfSame | bin/orbis-node/src/app_state.rs:97-104 | Compare-and-remove: removes the key exactly when it still holds the expected connection. |
| PeerPool.PeerConnectionPool.LeastRecentlyUsed | bin/orbis-node/src/app_state.rs:150-153 | Whatever order the map yields its entries in, the key found has the smallest tick and is the head of the recency list. |
| PeerPool.PeerConnectionPool.CacheConnection | bin/orbis-node/src/app_state.rs:135-170 | Refines the bounded recency list: a lost race touches the winner and gives back the new connection to close; otherwise the new one is most recent and only the true least recently used key is evicted. |
| PeerPool.RepresentsUnique | bin/orbis-node/src/app_state.rs:38-41 | Ticks are distinct and below the clock, so map and clock determine exactly one recency list. |
| PeerPool.SizeAgrees | bin/orbis-node/src/app_state.rs:150 | The map has as many entries as the list it stands for. |
| PeerPool.OldestIsHead | bin/orbis-node/src/app_state.rs:151-154 | The entry with the least tick is the oldest of the list. |
| PeerPool.CacheKeeps | bin/orbis-node/src/app_state.rs:135-170 | Caching keeps keys distinct and the size within capacity, and says exactly which slots remain. |
| PeerPool.TouchKeeps | bin/orbis-node/src/app_state.rs:80-85 | Touching reorders the slots and nothing else. |
| PoolProtocol.StepKeeps | bin/orbis-node/src/app_state.rs:91-212 | Every atomic step of every task (lookup, connect, insert, evict, compare-and-remove, close, open, cancel) keeps the invariant, and nothing that left the cache returns. |
| PoolProtocol.RunKeeps | bin/orbis-node/src/app_state.rs:91-212 | The same over whole runs of any number of tasks in any interleaving. |
| PoolProtocol.ExactlyOnePlace | bin/orbis-node/src/app_state.rs:91-170 | In every reachable state each connection is in exactly one place: in one hand, cached, about to be closed by one task, closed once, or dropped by a cancelled task; and it is cached only under the key it was made for. |
| PoolProtocol.LeavingIsFinal | bin/orbis-node/src/app_state.rs:97-111 | A connection that left the cache never re-enters it in any continuation; the pool stays within capacity. |
| PoolProtocol.ObservedIsExact | bin/orbis-node/src/app_state.rs:188-212 | While a stream is being opened the last observed value is that very connection; while a connection is being acquired it is None. |
| PoolProtocol.RetryUsesAnother | bin/orbis-node/src/app_state.rs:203-209 | A retry never uses the connection whose open failed, and nobody is handed that connection again; that a failed open leads to a retry is part of PoolCalls.StreamOpenOutcome. |
| PoolProtocol.InvalidationSparesReplacement | bin/orbis-node/src/app_state.rs:91-111 | An invalidation removes at most the expected connection; a replacement always stays. |
| PoolProtocol.NoLeak | bin/orbis-node/src/app_state.rs:105-108 | Without cancellation, once all tasks have finished every connection ever made is cached or was closed exactly once. |
| PoolProtocol.StepAdvances | bin/orbis-node/src/app_state.rs:119-212 | Every step of a task but the start of a new call, cancellation included, lowers that task's rank and leaves every other task alone. |
| PoolProtocol.RunsAreBounded | bin/orbis-node/src/app_state.rs:119-212 | Under every schedule and every answer of the network, the calls already made take no more steps than their ranks add up to. |
| PoolProtocol.EveryRunDrains | bin/orbis-node/src/app_state.rs:105-170 | Every cancellation-free run from a reachable state without new calls is bounded; where it cannot go on, all tasks have finished and every connection not dropped earlier is cached or closed. |
| PoolProtocol.CanAlwaysFinish | bin/orbis-node/src/app_state.rs:119-170 | Such a run exists from every state that keeps the invariant: there is no deadlock. |
| PoolCalls.StreamOpenOutcome | bin/orbis-node/src/app_state.rs:188-212 | Over every run: a stream open that was not cancelled fails exactly when a connect was refused or two opens failed; otherwise it ends with the one stream it opened, on the connection the cache last offered, which is neither the failed one nor one it closed. It connects as often as it found nothing cached, and a connection whose open failed is no longer cached. |
| PoolCalls.GetOrConnectOutcome | bin/orbis-node/src/app_state.rs:119-170 | Over every run: a get_or_connect that was not cancelled fails exactly when its connect was refused; otherwise it returns what the cache last offered under its key, made for that key and not closed by the call. |
| PoolCalls.InvalidationOutcome | bin/orbis-node/src/app_state.rs:91-111 | Over every run: an invalidation that was not cancelled says whether the expected connection was cached at its critical section, and closes that one connection exactly then. |
| PoolCalls.CallsComplete | bin/orbis-node/src/app_state.rs:91-212 | From every reachable state a new call can be made, and a run without cancellations brings it to an outcome. |
| PoolCalls.CapacityIsUsed | bin/orbis-node/src/app_state.rs:68-73 | Over every run the pool holds at most max(capacity, 1) connections; an insert evicts exactly when the key is new and the pool is that full, and then the one unused for longest. |
| BundleCodec.ToBytes | bin/orbis-node/src/ring_state.rs:96-110 | The appended buffer is the wire format. |
| BundleCodec.FromBytes | bin/orbis-node/src/ring_state.rs:113-166 | Total and in bounds on every byte string, with 64-bit cursors that never wrap; returns what the format says, error cases included. |
| BundleCodec.TakeBlock | bin/orbis-node/src/ring_state.rs:126-143 | Reads one length-prefixed block at the cursor and moves it exactly behind the block. |
| BundleCodec.RoundTrip | bin/orbis-node/src/ring_state.rs:96-166 | Decoding an encoding followed by any suffix gives the bundle back exactly when both lengths fit 32 bits. |
| BundleCodec.AcceptedIsCanonical | bin/orbis-node/src/ring_state.rs:113-166 | Whatever is accepted starts with the encoding of the result. |
| BundleCodec.BundleLayout | bin/orbis-node/src/ring_state.rs:96-110 | Every part of the format by position: version byte 1, the two lengths and blocks, and the time in the last eight bytes. |
| Bytes.LittleEndianDigit | bin/orbis-node/src/ring_state.rs:101-108 | Byte i from the low end is the base-256 digit of weight 256^i. |
| BundleCodec.PendingToBytes | bin/orbis-node/src/ring_state.rs:452-473 | The appended buffer is the nested format. |
| BundleCodec.PendingFromBytes | bin/orbis-node/src/ring_state.rs:475-551 | Total and in bounds on every byte string; agrees with the nested format. |
| BundleCodec.PendingRoundTrip | bin/orbis-node/src/ring_state.rs:452-551 | The nested format reads back whatever follows exactly when its lengths fit, for any JSON codec that is lossless and reads no proper prefix of a document: a committee list cut short by its length prefix is refused. |
| BundleCodec.PendingBundleLayout | bin/orbis-node/src/ring_state.rs:452-473 | The same for the nested format: the bundle, the post id and the committee as blocks, and the threshold in the last four bytes. |
| RingHistory.RingStore.RecordRetired | bin/orbis-node/src/ring_state.rs:719-738 | Prune to the window, insert in front, cap at four; RingHistory.RetainExact says which entries the window keeps. |
| RingHistory.RetainExact | bin/orbis-node/src/ring_state.rs:726-728 | Exactly the entries retired at most 180 seconds ago. |
| RingHistory.RingStore.StashPreviousPolynomial | bin/orbis-node/src/ring_state.rs:257-276 | Retires the stored polynomial exactly when a readable bundle with a different polynomial occupies the slot. |
| RingHistory.RingStore.SaveByRingKey | bin/orbis-node/src/ring_state.rs:199-211 | History write, then bundle write. |
| RingHistory.StoredIsWindow | bin/orbis-node/src/ring_state.rs:719-738 | The pruned, capped history is the capped window of the unbounded retirement log. |
| RingHistory.PrunedAgreesWithLog | bin/orbis-node/src/ring_state.rs:719-751 | For ordered retirements and every later moment, recent of the stored history is recent of the four newest entries of the log, in order; the window is fixed by RingHistory.RetainExact. |
| RingHistory.DisorderMatters | bin/orbis-node/src/ring_state.rs:726-728 | Without ordered timestamps the two differ: a concrete log. |
| RingHistory.HistoryAgrees | bin/orbis-node/src/ring_state.rs:178-186 | The same agreement over every run of saves and crashes whose times are ordered. |
| RingHistory.StillStored | bin/orbis-node/src/ring_state.rs:719-738 | In any order of times, one of the four newest retirements is still stored while it is in the window and nothing newer is dated after that moment. |
| RingHistory.RetirementReported | bin/orbis-node/src/ring_state.rs:742-751 | So it is reported by recent: disorder can add an entry the capped log would not show, and loses none. |
| RingHistory.StorageIsLog | bin/orbis-node/src/ring_state.rs:178-186 | Over every run of saves, crashes between the two writes included, the slot holds the last completed bundle and the history the pruned log. |
| RingHistory.LogPosition | bin/orbis-node/src/ring_state.rs:264-269 | The retirement an event recorded lies below exactly the later recordings. |
| RingHistory.RecentlyCurrentIsKnown | bin/orbis-node/src/ring_state.rs:742-751 | Any polynomial current at some moment of the last 180 seconds is still current and readable, or in recent(now), unless four newer recordings (retries included) pushed it out. The clock may step back; only saves after the replacement must not be dated after now. |
| RingHistory.ReportedWasRetired | bin/orbis-node/src/ring_state.rs:742-751 | The converse over every run, in any order of times: whatever recent(now) reports is the polynomial some event replaced, at most 180 seconds ago. |
| RingHistory.ReportedIff | bin/orbis-node/src/ring_state.rs:719-751 | With an ordered clock, recent(now) reports exactly the polynomials replaced at most 180 seconds ago with fewer than four recordings after that. |
| Broadcast.BroadcastBoundedWith | bin/orbis-bench/src/setup.rs:90-139 | The queue loop, against an arbitrary stateful oracle, gives the specified outcome and trace of calls. |
| Chunking.Chunks | bin/orbis-bench/src/setup.rs:103-106 | The initial batches: in order they are the messages, each nonempty and within the size. |
| Chunking.ChunkCount | bin/orbis-bench/src/setup.rs:103-106 | There are as many as the length over the size, rounded up. |
| Broadcast.TurnKeeps | bin/orbis-bench/src/setup.rs:112-137 | Accepted batches followed by the queue are always the original messages in order; counters and calls stay tied to the splits. |
| Broadcast.DeliveredInOrder | bin/orbis-bench/src/setup.rs:112-138 | Success: every message sent exactly once in order. Failure: exactly the messages before the named item were sent and that item alone was refused. |
| Broadcast.CallBound | bin/orbis-bench/src/setup.rs:112-138 | At most 2 messages minus initial batches calls; on success transactions are initial batches plus splits, and failed attempts are splits. |
| Broadcast.NamesFirstBad | bin/orbis-bench/src/setup.rs:121-126 | If the oracle refuses exactly batches with a bad item, the broadcast succeeds exactly when there is none and otherwise names the first. |
| Broadcast.BisectionBound | bin/orbis-bench/src/setup.rs:121-137 | Against such an oracle, with batches of at most 2^k messages, a broadcast with a bad message is refused at most k + 1 times. |
| Broadcast.TraceIsHonest | bin/orbis-bench/src/setup.rs:112-120 | Every call carries the messages of its batch, and its answer is the oracle's after exactly the calls before it. |
| Broadcast.FailuresRecorded | bin/orbis-bench/src/setup.rs:127-137 | On success the recorded failures are the refused calls in order, each with its labels and error. |
| TrialLog.CommittedIsTerminated | bin/orbis-bench/src/results.rs:297-301 | The kept prefix ends in a newline or is empty. |
| TrialLog.TerminatedIsCommitted | bin/orbis-bench/src/results.rs:297-301 | No longer prefix does. |
| TrialLog.TornIsNewlineFree | bin/orbis-bench/src/results.rs:297-301 | What is set aside has no newline. |
| TrialLog.ResultStore.RepairInterruptedJsonl | bin/orbis-bench/src/results.rs:288-312 | Moves the torn tail aside and truncates. |
| TrialLog.ResultStore.Resume | bin/orbis-bench/src/results.rs:153-161 | Repairs, then opens for append. |
| TrialLog.ResultStore.AppendTrial | bin/orbis-bench/src/results.rs:167-170 | Appends the record and its newline. |
| TrialLog.RepairSplits | bin/orbis-bench/src/results.rs:288-312 | Kept plus fragment is the original, and repairing twice is repairing once. |
| TrialLog.LogIsCommitted | bin/orbis-bench/src/results.rs:153-170 | After any appends cut off at any byte and any resumptions, the log is the records whose newline was written, in order, plus a torn tail only while crashed. |
| TrialLog.ReadTrials | bin/orbis-bench/src/results.rs:332-349 | Parses every nonblank line, or fails at the first that does not parse; a missing log is empty. |
| TrialLog.RunIsTold | bin/orbis-bench/src/results.rs:153-170 | Every append while running is possible, whole or cut at any byte; exactly the whole ones are committed and leave the store running, and resuming makes it run again. |
| TrialLog.TrialsReadBack | bin/orbis-bench/src/results.rs:332-349 | After any crashes and resumptions, a running store reads back exactly the trials whose record and newline were written. |
| TextLines.LineCount | bin/orbis-bench/src/report.rs:73 | Every text has as many lines as newlines, and one more for an unterminated rest. |
| Csv.ParseCsvLine | bin/orbis-bench/src/report.rs:38-65 | The character loop computes the specified fields. |
| Csv.RoundTrip | bin/orbis-bench/src/results.rs:509-515 | Any nonempty list of fields, whatever their text, survives quoting, joining and parsing. |
| Csv.PrintingIsInjective | bin/orbis-bench/src/results.rs:509-515 | No two rows print alike. |
| Csv.QuotedOnlyWhenNeeded | bin/orbis-bench/src/results.rs:509-515 | A field is printed as it is exactly when it has no comma, quote or newline; otherwise between quotes. |
| Csv.RowReadsBack | bin/orbis-bench/src/results.rs:221-240 | A written row parses back to its columns, unquoted numbers included. |
| Csv.FileReadsBack | bin/orbis-bench/src/report.rs:67-91 | A file reads back row by row exactly when no column contains a newline: a quoted newline still ends the line for the reader. |
| Csv.SamplesReadBack | bin/orbis-bench/src/results.rs:221-240 | The same for resource samples: exactly when their four text columns are free of newlines. |
| Csv.SampleFields | bin/orbis-bench/src/report.rs:73-91 | Then each row read has thirteen fields, every value at the index the report takes it from. |
| Polynomial.EvalPolyAt | crates/crypto/src/helpers.rs:219-234 | The power-accumulating loop equals the sum of c_i x^i and the Horner form. |
| Polynomial.PowerSumIsEval | crates/crypto/src/helpers.rs:219-234 | Sum of powers and Horner form agree for every coefficient list and point. |
| Polynomial.EvalCommit | crates/crypto/src/jubjub/common.rs:48-61 | Evaluating commitments is committing to the evaluation. |
| Polynomial.EvalPlus | crates/crypto/src/lifecycle_tests.rs:388-405 | Evaluation is additive in the coefficients. |
| Polynomial.EvalTimes | crates/crypto/src/jubjub/dkg.rs:515-517 | Evaluation is homogeneous in the coefficients. |
| Polynomial.CommitPlus | crates/crypto/src/jubjub/dkg.rs:595-602 | Commitments of a sum are the sum of the commitments. |
| Polynomial.EvalAtZero | crates/crypto/src/jubjub/sign.rs:288-291 | At zero a polynomial is its constant term. |
| Lagrange.ConstantVanishes | crates/crypto/src/jubjub/dkg.rs:700-704 | Divided differences of a constant vanish over any two or more distinct nodes. |
| Lagrange.PolynomialVanishes | crates/crypto/src/jubjub/dkg.rs:700-704 | Divided differences of a polynomial vanish over more nodes than coefficients. |
| Lagrange.InterpolatesAtZero | crates/crypto/src/jubjub/dkg.rs:700-735 | From its values at enough distinct nonzero nodes, the Lagrange combination is the constant term. |
| Threshold.LagrangeAtZero | crates/crypto/src/jubjub/dkg.rs:705-735 | For every id and list: refused exactly on duplicates or a zero denominator, otherwise the product of (0-j)/(i-j) over the others; never refused for a participant of a valid list. |
| Threshold.LambdaForIsLambda | crates/crypto/src/jubjub/dkg.rs:715-734 | What the loop computes is the coefficient of the interpolation theorem. |
| Threshold.LambdaIgnoresOrder | crates/crypto/src/jubjub/dkg.rs:706-708 | The coefficient depends on the participants, not on their order. |
| Threshold.FlippedIsLambda | crates/crypto/src/jubjub/sign.rs:268-286 | x_j/(x_j-x_i) is the same coefficient and its denominator is never zero. |
| Dkg.CreateNode | crates/crypto/src/jubjub/dkg.rs:101-153 | A node is created exactly for a valid id and threshold, with receivers exempt from the old committee size; it carries what it was created with and nothing received. |
| Dkg.DkgNode.constructor | crates/crypto/src/jubjub/dkg.rs:135-152 | A new node has nothing received and nothing generated. |
| Dkg.DkgNode.GeneratePolynomial | crates/crypto/src/jubjub/dkg.rs:155-220 | Succeeds exactly for a role that deals and, in a reshare, for one of enough participants and a possible new threshold. Then: as many coefficients as the threshold, constant term random, zero or the old share, the rest as sampled, and the commitment is the polynomial's. A failure changes nothing. |
| Dkg.DkgNode.SelectReshareParticipants | crates/crypto/src/jubjub/dkg.rs:222-242 | Succeeds exactly for a resharing role and a nonempty, duplicate-free, in-range set of at least threshold dealers, kept in ascending order; a failure changes nothing. |
| Dkg.Canonicalize | crates/crypto/src/jubjub/dkg.rs:673-698 | Succeeds exactly on nonempty, duplicate-free, in-range sets and returns the same set in ascending order. |
| Dkg.DkgNode.ReceiveCommitment | crates/crypto/src/jubjub/dkg.rs:354-384 | Accepts exactly one nonempty commitment per other member. |
| Dkg.DkgNode.ReceiveShare | crates/crypto/src/jubjub/dkg.rs:278-352 | Accepts exactly well-addressed shares that match their dealer's commitment; any other well-addressed one becomes a complaint. |
| Dkg.AcceptedIffCorrect | crates/crypto/src/jubjub/common.rs:55-61 | Against an honest commitment a share is accepted exactly when it is the polynomial at that index. |
| Dkg.SumMatches | crates/crypto/src/jubjub/dkg.rs:441-449 | If every share matches its commitment, the sum matches the summed commitments, whoever the dealers are. |
| Dkg.WeightedMatches | crates/crypto/src/jubjub/dkg.rs:398-418 | The same with a weight per dealer. |
| Dkg.AddReceived | crates/crypto/src/jubjub/dkg.rs:441-444 | The sum over the received map in any order is the committee sum. |
| Dkg.AddCommitments | crates/crypto/src/jubjub/dkg.rs:548-554 | The same for commitments. |
| Dkg.AddWeightedShares | crates/crypto/src/jubjub/dkg.rs:393-424 | The Lagrange-weighted sum over the selected dealers; fails exactly when one is missing. |
| Dkg.AddWeightedCommitments | crates/crypto/src/jubjub/dkg.rs:498-519 | The same for commitments; fails exactly on a missing or differently long one. |
| Dkg.DkgNode.ComputeStandardShare | crates/crypto/src/jubjub/dkg.rs:426-449 | Succeeds exactly with a share from every other member and a polynomial of its own; then it is the sum of those and of the own polynomial at the own identifier. |
| Dkg.DkgNode.ComputeStandardPolynomial | crates/crypto/src/jubjub/dkg.rs:520-555 | Succeeds exactly with equally long commitments from everybody; then it is their sum. |
| Dkg.AddedMatches | crates/crypto/src/jubjub/dkg.rs:441-449 | Next to a share that matches, another keeps the match exactly when it matches too. |
| Dkg.DkgNode.ReceivedMatch | crates/crypto/src/jubjub/dkg.rs:441-449 | The received shares add up to a share of the received commitments' sum, at the identifier they were received for. |
| Dkg.DkgNode.StandardMatches | crates/crypto/src/jubjub/dkg.rs:386-560 | What a standard node ends with is a share of its public polynomial exactly when the received commitments' sum takes the same value at its identifier and where it received. |
| Dkg.DkgNode.ComputeReshareShare | crates/crypto/src/jubjub/dkg.rs:393-424 | Succeeds exactly when every selected dealer's share is there; then it is their Lagrange combination. |
| Dkg.DkgNode.ComputeResharePolynomial | crates/crypto/src/jubjub/dkg.rs:498-519 | Succeeds exactly when every selected dealer's commitment is there and equally long. |
| Dkg.NewMemberMatches | crates/crypto/src/jubjub/dkg.rs:393-424 | A checked view combines to a share of the combined commitments, whatever the dealers showed. |
| Dkg.DkgNode.ViewChecked | crates/crypto/src/jubjub/dkg.rs:278-384 | Whatever was received, what the node's tables show of dealers has passed a member's checks. |
| Dkg.DkgNode.StandardSum | crates/crypto/src/jubjub/dkg.rs:426-560 | A standard node that receives at its own identifier ends with the sum of the view its tables make. |
| Dkg.DkgNode.Finish | bin/orbis-node/src/dkg/v0/coordinator/phases/phase4.rs:76-125 | A node that computes both a share and a public polynomial ends with what the checked view of its tables makes of it: the Lagrange combination for a receiver, the sum for a standard node. A receiver then holds a share of that polynomial; a standard node does exactly when what it received takes the same value where it was received and at its own identifier. |
| Lifecycle.PointsAtZero | crates/crypto/src/jubjub/sign.rs:288-291 | Interpolation at zero holds for arbitrary points as coefficients. |
| Lifecycle.GeneratedHeld | crates/crypto/src/jubjub/dkg.rs:386-560 | After key generation every member whose checks passed holds a share of the polynomial it computed, even if the dealers showed members different commitments. |
| Lifecycle.RefreshKeepsKey | bin/orbis-node/src/dkg/v0/coordinator/message_handlers/commitment.rs:173-187 | With identity constant terms checked, a refresh keeps a member's public key: the later guard never fires. |
| Lifecycle.RefreshedAt | bin/orbis-node/src/dkg/v0/helpers/ring_bundle.rs:40-64 | At every point the refreshed polynomial is the old one plus the sum of the dealt deltas there; the share is the old share plus the received values. |
| Lifecycle.ReshareReachesKey | bin/orbis-node/src/dkg/v0/coordinator/phases/phase4.rs:151-168 | Enough dealers dealing the shares they hold reach the ring's key: the guard passes. |
| Lifecycle.ReconstructedPoint | crates/crypto/src/jubjub/dkg.rs:700-704 | The Lagrange combination of members' shares is the logarithm of the same combination of what they published. |
| Lifecycle.SameSecretIff | crates/crypto/src/lifecycle_tests.rs:388-405 | Two groups of members, of any two generations, reconstruct the same secret exactly when their public combinations are equal. |
| Lifecycle.AgreeIff | crates/crypto/src/jubjub/common.rs:48-61 | Members hold shares of one polynomial exactly when what they published lies on it. |
| Lifecycle.StagedHeld | bin/orbis-node/src/dkg/v0/coordinator/phases/phase4.rs:76-310 | Whatever each member was shown, whoever finishes a refresh or reshare holds a share of the polynomial it computed, under the unchanged key; Lifecycle.RefreshedAt says what a refresh adds. |
| Lifecycle.NextHeld | bin/orbis-node/src/dkg/v0/coordinator/reshare/cleanup.rs:266-320 | The same of what is stored after the result was confirmed; members that do not store a refresh keep what they held. |
| Lifecycle.EveryGeneration | crates/crypto/src/lifecycle_tests.rs:388-405 | Over any history of stored ceremonies, equivocating dealers included, every member of every generation holds a share of its polynomial under the first key. |
| Lifecycle.QuorumHoldsKey | crates/crypto/src/jubjub/dkg.rs:700-704 | A group whose public shares lie on a polynomial with the ring's key, no longer than the group, holds the key's secret. |
| Lifecycle.SignersHoldKey | bin/orbis-node/src/dkg/v0/coordinator/reshare/bulletin_update.rs:219-293 | Whatever the dealers showed, the signers that member 1 checked against its own staged polynomial hold the secret of the ring's key. |
| Lifecycle.BackersAgree | bin/orbis-node/src/dkg/v0/coordinator/refresh_health_check.rs:364-431 | Members that store a refresh, and signers that store a reshare, hold shares of member 1's staged polynomial. |
| Lifecycle.VouchedHoldsKey | bin/orbis-node/src/dkg/v0/coordinator/reshare/cleanup.rs:266-320 | Every quorum that backed the ceremony which made its generation, or that stayed out of later refreshes together, holds the secret of the first key. |
| Lifecycle.SecretSurvives | crates/crypto/src/lifecycle_tests.rs:388-405 | Over any history, whatever the dealers showed, all such quorums of all generations reconstruct one secret. |
| Lifecycle.SignersKeepSecret | bin/orbis-node/src/dkg/v0/coordinator/reshare/bulletin_update.rs:219-293 | So do the signers of every stored ceremony, with what they staged. |
| Agreement.ThroughMeets | crates/crypto/src/jubjub/dkg.rs:700-704 | Through any points at distinct nodes there is a polynomial with as many coefficients. |
| Agreement.WholeRingIff | crates/crypto/src/jubjub/dkg.rs:700-704 | Every group of threshold members of a ring combines to its key exactly when one polynomial of that length has the key and carries all members' public shares. |
| Agreement.StaleShareIff | bin/orbis-node/src/dkg/v0/coordinator/reshare/cleanup.rs:266-320 | A quorum in which one member kept its share from before a refresh combines to the key exactly when the deltas' sum vanishes at that member's identifier. |
| HonestRuns.HonestGeneration | crates/crypto/src/jubjub/dkg.rs:386-560 | Dealers that follow the code generate a ring under one polynomial; every quorum reconstructs the sum of the dealers' secrets. |
| HonestRuns.HonestRefreshStored | bin/orbis-node/src/dkg/v0/helpers/ring_bundle.rs:40-64 | A refresh by honest dealers passes every check and is stored, leaves one polynomial, adds the dealt values to every share, and every quorum reconstructs the same secret. |
| HonestRuns.HonestReshareStored | crates/crypto/src/lifecycle_tests.rs:388-405 | So does a reshare to any committee and threshold in which a quorum deals the shares it holds: it is stored and every new quorum reconstructs the old secret. |
| Frost.LagrangeCoefficient | crates/crypto/src/jubjub/sign.rs:269-286 | The loop, with a zero denominator refused, computes the coefficient. |
| Frost.CoefficientIsLambda | crates/crypto/src/jubjub/sign.rs:268-286 | For distinct in-range participants it never fails and is the coefficient of the interpolation theorem. |
| Frost.GroupCommitment | crates/crypto/src/jubjub/sign.rs:213-239 | Refuses exactly duplicates and the identity key; otherwise the sum of D + rho E over the list sorted by participant. |
| Frost.CanonicalSorted | crates/crypto/src/jubjub/sign.rs:218-220 | The canonical list ascends by participant. |
| Frost.CanonicalSame | crates/crypto/src/jubjub/sign.rs:218-220 | Two orders of the same commitments, without duplicates, have the same canonical list. |
| Frost.NonceSum | crates/crypto/src/jubjub/sign.rs:213-239 | The group commitment is the sum, in the order of the list given, of the points made with the binding factors of the sorted list. |
| Frost.OrderIgnored | crates/crypto/src/jubjub/sign.rs:213-532 | Parties that list the same commitments in different orders compute the same group commitment, challenge and answers, and pass the same shares. |
| Frost.ResponsePasses | crates/crypto/src/jubjub/sign.rs:471-532 | An answer passes the share check exactly when the key share it was made with matches the public polynomial, a zero weight aside. |
| Frost.Sign | crates/crypto/src/jubjub/sign.rs:382-469 | Says exactly when a signer refuses and what it answers; the answer passes exactly when its share matches the public polynomial, a zero weight aside. |
| Frost.VerifyShare | crates/crypto/src/jubjub/sign.rs:471-532 | Accepts exactly shares that are the logarithm of the participant's point. |
| Frost.CheckIndices | crates/crypto/src/jubjub/sign.rs:552-561 | No repeated index and none without a commitment. |
| Frost.Recover | crates/crypto/src/jubjub/sign.rs:534-579 | Fails, reports too few or returns the summed signature, each exactly when the source does. |
| Frost.TotalPoint | crates/crypto/src/jubjub/sign.rs:581-596 | All participants' points sum to R + c Y. |
| Frost.VerifiesIff | crates/crypto/src/jubjub/sign.rs:534-596 | From passing shares the recovered signature verifies exactly when the points of the absent committed participants sum to the identity. |
| Frost.CompleteVerifies | crates/crypto/src/jubjub/sign.rs:534-596 | With a passing share of every committed participant it always verifies, whoever produced shares and commitments. |
| Frost.AnswersPassIff | bin/orbis-node/src/sign/v0/coordinator/verification.rs:97-127 | The coordinator's share checks against its own polynomial all pass exactly when every participant's share is one of that polynomial, the challenge not being zero. |
| Frost.SignatureIff | bin/orbis-node/src/sign/v0/coordinator/rounds/signing.rs:1270-1298 | Members that sign with what they hold, whatever polynomials they computed, produce a signature under the ring's key exactly when their public combination is that key, a zero challenge or derivation aside. |
| Frost.SignsInEveryGeneration | crates/crypto/src/lifecycle_tests.rs:380-390 | Over any history every quorum vouched for signs under the first generation's key. |
| SmallCurve.CurveExists | crates/crypto/src/jubjub/sign.rs:269-286 | The integers modulo 5 meet every law assumed of curves, with four participants. |
| Equivocation.SignersKeepOthersLose | bin/orbis-node/src/dkg/v0/coordinator/reshare/cleanup.rs:270-300 | In every curve with three participants: a dealer shows the third receiver another commitment, every check passes, the two others sign, all three store. The signers reconstruct the old secret, the first and third do not. |
| SmallCurve.PartialFails | crates/crypto/src/jubjub/sign.rs:534-579 | Threshold one, two committed, one passing share: recovered, but does not verify. |
| Reencryption.OwnAuthorization | crates/crypto/src/jubjub/pre.rs:440-505 | A reader's own authorization verifies exactly when its key is not the identity. |
| Reencryption.AuthorizationExtracts | crates/crypto/src/jubjub/pre.rs:440-505 | Two authorizations with one nonce point and different challenges give the reader's secret key. |
| Reencryption.HonestReplyPasses | crates/crypto/src/jubjub/pre.rs:51-115 | A member refuses exactly index zero, a request whose authorization does not verify, a zero derivation and the identity as commitment; otherwise, if its share matches the public polynomial, the reply passes verification. |
| Reencryption.ReplyIsOwed | crates/crypto/src/jubjub/pre.rs:575-582 | The reply is the reader's key plus the commitment, times the member's share and the derivation. |
| Reencryption.ReplyIsRight | crates/crypto/src/jubjub/pre.rs:618-665 | Two replies that pass verification with the same nonce points and different challenges carry the reply owed by whoever holds the share that matches the public polynomial. |
| Reencryption.Recover | crates/crypto/src/jubjub/pre.rs:150-175 | Fails, reports too few or returns the Lagrange combination of the first t replies, each exactly when the source does. |
| Reencryption.RepliesCombine | crates/crypto/src/jubjub/pre.rs:667-725 | Right replies of members combine to the point times the secret those members reconstruct, derivation included. |
| Reencryption.OpensExactly | crates/crypto/src/jubjub/pre.rs:386-388 | The reader's point is the one the data key was derived from exactly when the combined secret is the logarithm of the key, two degenerate scalars aside. |
| Reencryption.OpensIff | crates/crypto/src/jubjub/pre.rs:386-388 | What was sealed to a ring's key is opened by right replies of a group of its members exactly when their public combination is that key, the same degenerate scalars aside. |
| Reencryption.OpensInEveryGeneration | crates/crypto/src/lifecycle_tests.rs:380-405 | Over any history, whatever the dealers showed, every quorum vouched for opens what was sealed to the first key. |
| Reencryption.SignersOpen | crates/crypto/src/lifecycle_tests.rs:380-405 | So do the signers of every stored ceremony, with what they staged. |
| Reencryption.AnswersAreRight | crates/crypto/src/jubjub/pre.rs:51-115 | Members of a held ring all answer a request exactly when it may not be refused, and then their answers are the right replies of the opening theorems. |
| Reencryption.RequestOpens | crates/crypto/src/jubjub/pre.rs:386-388 | End to end, over any history: when a quorum vouched for answers a reader's request that may not be refused, the reader ends with the very point the data was sealed under. |
| Transcript.Writer.PutBytes | crates/crypto/src/context.rs:87-90 | Appends one length-prefixed block. |
| Transcript.Writer.PutOptStr | crates/crypto/src/context.rs:94-102 | Appends one optional block. |
| Transcript.Writer.PutOptU64 | crates/crypto/src/context.rs:106-114 | Appends one optional word. |
| Transcript.Writer.PutOptBytes | crates/crypto/src/context.rs:118-126 | Appends one optional block. |
| Transcript.Writer.PutOptPetTag | crates/crypto/src/context.rs:130-141 | Appends one optional group of four blocks. |
| Transcript.Writer.PutOptValidWindow | crates/crypto/src/context.rs:201-210 | Appends one optional pair of words. |
| Transcript.CanonicalEncode | crates/crypto/src/context.rs:148-159 | The appended buffer is the encoding of the context's items. |
| Transcript.CanonicalEncodeReaderAuthorization | crates/crypto/src/context.rs:276-294 | The same for reader authorizations. |
| Transcript.BlockBytes | crates/crypto/src/context.rs:87-90 | A block is its length in four base-256 digits, most significant first, then its bytes. |
| Transcript.WordBytes | crates/crypto/src/context.rs:106-114 | A word is its eight base-256 digits, most significant first. |
| Transcript.OptionalBytes | crates/crypto/src/context.rs:94-126 | An absent value is one zero byte; a present one follows a byte of one. |
| Transcript.GroupedBytes | crates/crypto/src/context.rs:130-210 | The same for the tag's four blocks and the window's two words, in their order. |
| Transcript.ContextLayout | crates/crypto/src/context.rs:148-159 | A context is encoded as its eight fields in this order: ring key, policy, resource, permission, tier, timestamp, salt, tag. |
| Transcript.ReaderLayout | crates/crypto/src/context.rs:276-294 | A reader authorization is identity, token and request, one after the other. |
| Transcript.IdentityLayout | crates/crypto/src/context.rs:278-282 | Chain, ring key, issuer, subject, actor, in this order. |
| Transcript.TokenLayout | crates/crypto/src/context.rs:283-287 | Token id, issue and expiration time, not-before, object, in this order. |
| Transcript.RequestLayout | crates/crypto/src/context.rs:288-292 | Recipient key, derivation, salt, window, audit target, in this order. |
| Transcript.FittingReadsBack | crates/crypto/src/context.rs:85-141 | Items whose lengths fit are read back from their encoding, whatever follows. |
| Transcript.PrefixFree | crates/crypto/src/context.rs:143-147 | Fitting encodings of the same kinds are never prefixes of one another. |
| Transcript.ContextPrefixFree | crates/crypto/src/context.rs:143-159 | Fitting contexts are injectively and prefix-freely encoded. |
| Transcript.ReaderPrefixFree | crates/crypto/src/context.rs:272-294 | Fitting reader authorizations too. |
| Transcript.LongFieldsCollide | crates/crypto/src/context.rs:87-90 | A ring key of 2^32 bytes: two different contexts with one encoding. |
| Transcript.LongReadersCollide | crates/crypto/src/context.rs:87-90 | The same for reader authorizations. |
| Transcript.ContextsInjectiveIff | crates/crypto/src/context.rs:143-159 | Contexts with fields below n bytes are injectively encoded, and prefix-freely, exactly when n is at most 2^32. |
| Transcript.ReadersInjectiveIff | crates/crypto/src/context.rs:272-294 | The same for reader authorizations. |
| Transcript.ContextPreimageInjective | crates/crypto/src/context.rs:166-174 | The digest input determines context and commitment. |
| Transcript.CiphertextPreimageInjective | crates/crypto/src/context.rs:181-187 | Inputs that hash alike are the same pair exactly when their nonces are equally long. |
| Transcript.NonceIsNotDelimited | crates/crypto/src/context.rs:181-187 | Moving a byte from the data to the nonce does not change the input. |
| Transcript.ReaderPreimageInjective | crates/crypto/src/context.rs:302-307 | The digest input determines the authorization. |
| Transcript.TagProofInput | crates/crypto/src/pet_context.rs:44-69 | The appended buffer behind its domain is the specified input. |
| Transcript.TagPreimageInjective | crates/crypto/src/pet_context.rs:44-69 | The digest input determines all ten inputs, even where the nested encoding outgrows its length prefix. |
| Transcript.DomainsSeparate | crates/crypto/src/context.rs:19-25 | No input of one digest is an input of another. |
| Transcript.ContextDigestLayout | crates/crypto/src/context.rs:166-174 | The bytes hashed, by position: the sixteen of the domain, the encoding, the commitment as a block. |
| Transcript.CiphertextDigestLayout | crates/crypto/src/context.rs:181-187 | The nineteen of the domain, the nonce, the data. |
| Transcript.ReaderDigestLayout | crates/crypto/src/context.rs:302-307 | The thirty-seven of the domain, the encoding. |
| Transcript.TagLayout | crates/crypto/src/pet_context.rs:44-69 | Ten blocks behind the domain, in their order, the context's encoding as one of them. |
| Planner.PackCases | bin/orbis-bench/src/config.rs:553-575 | The packing loop yields the cases taken as many at a time as fit. |
| Planner.Resolve | bin/orbis-bench/src/config.rs:345-580 | Fails exactly when a rule of the validation is broken; otherwise plans the packed stacks of every group and profile. |
| Planner.ResolveCapacitySweep | bin/orbis-bench/src/config.rs:586-603 | Fails exactly when a rule of the validation is broken; otherwise one stack per case and profile. |
| Planner.SomeRing | bin/orbis-bench/src/config.rs:639-663 | A validated experiment needs at least one ring slot per case. |
| Planner.ChunksSplit | bin/orbis-bench/src/config.rs:555-575 | The packing splits the cases in order into nonempty stacks of at most 256 slots. |
| Planner.FewestStacks | bin/orbis-bench/src/config.rs:555-575 | No such split uses fewer stacks. |
| Planner.StacksFit | bin/orbis-bench/src/config.rs:548-580 | Every planned stack is nonempty and records its slots, at most 256. |
| Planner.SameCover | bin/orbis-bench/src/config.rs:548-603 | Both planners cover the same multiset of (network size, profile, case). |
| Planner.SameEstimates | bin/orbis-bench/src/config.rs:605-637 | Both plans have equal serial trials and estimated seconds. |
| Planner.RingsAreUses | bin/orbis-bench/src/config.rs:639-663 | A case takes one ring slot for every use of a ring: one per trial of key generation and reshare, one for signing and re-encryption together, one for PET, one for refresh. |
| Planner.PlanNumbers | bin/orbis-bench/src/config.rs:605-637 | The plan's numbers in closed form: profiles times cases times operations times trials, and one second per trial plus the seconds of every load run of an online operation. |
| SchnorrBuffer.AgreesOnEncodings | crates/jubjub-wasm/src/lib.rs:50-75 | On encodings the stand-alone verifier and the nodes' verifier agree. |
| SchnorrBuffer.AcceptsOnlyEncodings | crates/jubjub-wasm/src/lib.rs:50-75 | Whatever bytes it accepts are the encodings of a key and a signature the nodes accept. |
| SchnorrBuffer.ThresholdSignatureAccepted | crates/crypto/src/jubjub/sign.rs:534-596 | A signature recovered by a complete set of signers is accepted by the stand-alone verifier. |
| SchnorrBuffer.SignedVerifies | crates/jubjub-wasm/src/lib.rs:99-118 | The test signer's signature verifies under the derived key exactly when the secret is not zero. |
| SchnorrBuffer.SignatureBindsMessage | crates/jubjub-wasm/src/lib.rs:27-75 | A signature accepted for one message is accepted for another exactly when both hash alike behind the domain, the signature's point and the key. |
| SchnorrBuffer.NonceFollowsMessage | crates/jubjub-wasm/src/lib.rs:99-118 | The test signer repeats a nonce point exactly when secret and message hash alike behind the nonce domain. |
| SchnorrBuffer.Module.Verify | crates/jubjub-wasm/src/lib.rs:170-191 | Returns one exactly when the message fits the buffer and the signature verifies, and never for the identity key; no 32-bit length leaves the buffer. |
| SchnorrBuffer.Module.IsIdentityPubkey | crates/jubjub-wasm/src/lib.rs:195-202 | Returns one exactly on the identity's encoding. |
| SchnorrBuffer.Module.DerivePublicKey | crates/jubjub-wasm/src/lib.rs:207-218 | Writes the derived key over the secret, or changes nothing. |
| SchnorrBuffer.Module.ReduceScalarWide | crates/jubjub-wasm/src/lib.rs:227-241 | Leaves the encoding of the reduced 64 bytes in front of the buffer, and nothing else changes. |
| SchnorrBuffer.Module.TestSign | crates/jubjub-wasm/src/lib.rs:247-268 | Writes the signature over its inputs, or changes nothing. |
| SchnorrBuffer.Module.DeriveSignVerify | crates/jubjub-wasm/src/lib.rs:170-268 | Through the overlapping buffer the sequence returns 32, 64 and then 1 exactly when the secret is not zero. |
| MetricLabels.SplitLabels | bin/orbis-bench/src/metrics.rs:81-105 | The scanning loop computes the specified split. |
| MetricLabels.SplitOfJoin | bin/orbis-bench/src/metrics.rs:81-105 | For well-formed labels splitting undoes the comma join. |
| MetricLabels.TrimExact | bin/orbis-bench/src/metrics.rs:95-102 | Trimming takes away exactly the white space on both sides. |
| MetricLabels.SplitOfPadded | bin/orbis-bench/src/metrics.rs:81-105 | Splitting undoes the join whatever white space surrounds the labels. |
| MetricLabels.LeqIsLexicographic | bin/orbis-bench/src/metrics.rs:77 | Labels compare by their first differing character; a proper prefix comes first. |
| MetricLabels.KeyOfPadded | bin/orbis-bench/src/metrics.rs:67-79 | The key of a labelled metric is the metric with its labels sorted and the white space around them gone. |
| MetricLabels.CanonicalMetricKey | bin/orbis-bench/src/metrics.rs:67-79 | Computes the key; an out-of-range slice is no key. |
| MetricLabels.OrderedUnique | bin/orbis-bench/src/metrics.rs:77 | A sorted list is determined by its contents. |
| MetricLabels.KeyIgnoresOrder | bin/orbis-bench/src/metrics.rs:67-79 | Every ordering of the same labels has the same key. |
| MetricLabels.KeyIdempotent | bin/orbis-bench/src/metrics.rs:67-79 | A key is its own key. |
| MetricLabels.KeyDeterminesLabels | bin/orbis-bench/src/metrics.rs:67-79 | Different multisets of labels have different keys. |
| MetricGuards.DkgSessionMetricsGuard.constructor | bin/orbis-node/src/metrics.rs:509-521 | Counts the start in every family the kind belongs to. |
| MetricGuards.DkgSessionMetricsGuard.Complete | bin/orbis-node/src/metrics.rs:523-532 | Counts one completion; the destructor that runs after it counts nothing. |
| MetricGuards.DkgSessionMetricsGuard.Abandon | bin/orbis-node/src/metrics.rs:534-543 | Counts one abandonment, as a failure for refresh and reshare. |
| MetricGuards.DkgSessionMetricsGuard.Drop | bin/orbis-node/src/metrics.rs:546-559 | Counts a failure unless finished. |
| MetricGuards.RequestMetricsGuard.constructor | bin/orbis-node/src/metrics.rs:418-435 | Counts one start for the service and raises its gauge; store-secret requests have no gauge. |
| MetricGuards.RequestMetricsGuard.Complete | bin/orbis-node/src/metrics.rs:437-445 | Counts one completion and lowers the gauge, and no other field changes. |
| MetricGuards.RequestMetricsGuard.Drop | bin/orbis-node/src/metrics.rs:448-458 | Unless finished, counts one failure and lowers the gauge. |
| MetricGuards.PrivatePairMetricsGuard.constructor | bin/orbis-node/src/metrics.rs:608-615 | Raises the gauge. |
| MetricGuards.PrivatePairMetricsGuard.Complete | bin/orbis-node/src/metrics.rs:617-623 | Counts one completion and lowers the gauge. |
| MetricGuards.PrivatePairMetricsGuard.Drop | bin/orbis-node/src/metrics.rs:626-636 | Counts a failure and lowers the gauge unless finished. |
| MetricGuards.RunKeeps | bin/orbis-node/src/metrics.rs:410-736 | Every state of every run keeps the invariant between guards and counters. |
| MetricGuards.CountersTell | bin/orbis-node/src/metrics.rs:410-736 | After any events every account's counters are the numbers of its guards made, completed, failed and abandoned, each guard counted once, and its gauge the guards still alive. |
| MetricGuards.BooksBalance | bin/orbis-node/src/metrics.rs:649-736 | DKG started is completed plus failed plus abandoned plus active; refresh and reshare started is completed plus failed plus active, and they count no abandonment. |
| MetricGuards.GaugesReturn | bin/orbis-node/src/metrics.rs:410-636 | When every guard made has ended every gauge is zero. |

## Left out

- Coordinators, message transport, retries, evidence and reporting of the DKG, signing, PRE and PET protocols: I/O and polling around the operations modelled here.
- The BLS12-381 backend: the same algebra with another encoding; only the Jubjub files are cited.
- Curve arithmetic, encodings of points, SHA-2, BLAKE2, AES-GCM, HKDF and JSON: foreign code, taken as parameters with the laws stated where they are used.
- Constant-time comparison, zeroizing and other side-channel measures: not visible in a functional model.
- Dkg.DkgNode.ComputeStandardPolynomial: covers the standard role; a pure dealer, which never finishes with a share, is left out, as is the separately computed aggregate key, which is the constant term of the polynomial.
- Dkg.DkgNode.GeneratePolynomial: the random coefficients are a function parameter; that they are unpredictable is not stated.
- Dkg.DkgNode.ReceiveShare: the nonce field of a share, which the source does not check, is not modelled.
- Lifecycle.NextHeld: a refresh or reshare is one event; which members finish, what each was shown, who signs and who stores are arbitrary, the order of messages inside it is not modelled. A result that is not confirmed leaves the ring as it was and is no event.
- Lifecycle.SignersHoldKey: member 1 and the signers follow the code. A first member that does not is held only by the bulletin's own check of the signature, see Frost.SignatureIff; that nobody else can sign is a computational assumption and not stated. The polynomial hashes of the health check stand for equality.
- Lifecycle.VouchedHoldsKey: for the first generation agreement on a polynomial is a hypothesis, since key generation compares only the key, by every member's confirmation on the bulletin.
- The commitment audit and the reports that follow an abort: diagnostics that change nothing stored.
- Frost.Sign: nonce generation and the zeroizing of nonces are not modelled; nonces are arguments.
- Reencryption.HonestReplyPasses: decoding of points and scalars, encryption proofs and the symmetric layer are not modelled; the digest of the request is a byte string and the shared point stands for the data key.
- Reencryption.ReplyIsRight: needs two accepted replies; that one accepted reply can only come from the holder of the share is a computational assumption and not stated.
- Reencryption.Recover: the cast of the committee size to 32 bits is not modelled.
- The PET protocol: its blind equality test uses the same operations and would mostly repeat them.
- Loading history or bundles that fail to parse as JSON: treated as absent by the source, not modelled.
- delete_with_retries, storage errors and the pet-key copies of the bundle operations: would only add easy members.
- RingHistory.StorageIsLog: storage calls succeed; a failed history write, which the source only logs, is not modelled.
- PoolProtocol.RunKeeps: errors of close calls are ignored as in the source; the access clock does not wrap.
- TrialLog.ResultStore.Resume: the manifest and the other files of a run are not modelled.
- Csv.RowReadsBack: numbers are text over the characters Rust prints for integers and floats.
- Aggregation in read_resource_summary, summarize, percentiles and report rendering: floating-point summaries, easy branch logic.
- Planner.Resolve: counts are unbounded, so the wrap-around and saturation of usize sums and products is not modelled; which rule a failure names is not modelled.
- BundleCodec.PendingRoundTrip: that serde_json is lossless on lists of strings and reads no proper prefix of such a document is assumed of the JSON parameter.
- MetricLabels.CanonicalMetricKey: strings are sequences of characters, so byte offsets inside multi-byte characters do not arise; parse_prometheus, which feeds it, is not modelled.
- MetricGuards.RunKeeps: duration histograms are not modelled, except the outcome counts of private pairs.
- SchnorrBuffer.Module.Verify: catch_unwind is not modelled; every access is shown in bounds, so the minus one result does not arise.
- JWT checks, upgrade information, peer identifiers, configuration parsing: short branch logic.
