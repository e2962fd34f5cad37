# A model of Narwhal and Tusk

This project models the parts of the repository that decide safety, and proves what they
promise for all inputs, all runs and all committees:

- the **ordering engine** (`consensus/src/lib.rs`): every replica feeds certificates to a
  deterministic state machine that elects leaders, commits them with their histories, and prunes
  its own state;
- the **certification layer** (`primary/src/core.rs` and its aggregators, messages and
  synchronizer; `config/src/lib.rs`): primaries vote for headers, assemble certificates, and feed
  them to consensus;
- the **scheduled adversary** and the **proposer** it silences (`primary/src/adversary.rs`,
  `primary/src/proposer.rs`), with the benchmark client's own computation of the schedule
  (`benchmark/benchmark/adversary_schedule.py`);
- the **retransmission queue** (`network/src/reliable_sender.rs`).

## How it is built

| file | holds |
|---|---|
| `Types.dfy` | keys, ideal digests, headers, the committee, arithmetic of stake |
| `DagTheory.dfy` | well-formed global DAGs, paths, support, the canonical chain of leaders |
| `Ordering.dfy` | the ordering engine as functions on its state |
| `SubDag.dfy`, `Search.dfy` | what flattening a leader's history computes, and in which order |
| `Views.dfy` | a replica's pruned state as a view of the global DAG; the canonical ledger |
| `Agreement.dfy` | runs of replicas: what every delivery keeps, agreement on leaders |
| `Elections.dfy` | when a delivery commits which leader, and exactly what a replica holds afterwards |
| `Outputs.dfy` | the output: exactly when it repeats a certificate or puts a parent late; agreement on it |
| `Reference.dfy` | under one direct-commit schedule, exactly when a replica agrees with every replica that gets no stale delivery |
| `Tusk.dfy` | the ordering engine as a mutable object, equal to the functions |
| `StaleDelivery.dfy` | two runs that show why stale deliveries must be excluded |
| `Messages.dfy`, `Aggregators.dfy` | votes, certificates, their verification, the quorum counters |
| `Primary.dfy`, `PrimaryNode.dfy` | a primary as functions on its state, and as a mutable object |
| `Examination.dfy` | what becomes of each header, vote and certificate, case by case |
| `Certification.dfy` | what every turn of one primary keeps |
| `Offers.dfy` | cleanup, and exactly which parent lists are offered to the proposer |
| `Assembly.dfy` | a quorum of votes becomes a certificate |
| `OwnHeaders.dfy` | what becomes of a primary's own headers, over every legal run, and of certificates that come again |
| `VoteOnce.dfy` | exactly which legal runs keep one vote per author and round |
| `Panics.dfy`, `LateVote.dfy` | the `expect`s of a primary: exactly which events make one fail, and a run on the chain in which one does |
| `EndToEnd.dfy` | all primaries together: unique certificates, a well-formed DAG, agreement |
| `Chain.dfy`, `ChainRun.dfy` | a small committee, its chain of certificates, and a primary whose consensus commits on it |
| `Loopback.dfy`, `Witness.dfy` | such a primary votes twice in one slot; primaries that meet every hypothesis of `EndToEnd` commit |
| `GarbageCollector.dfy` | the round that consensus publishes for cleanup |
| `Ranking.dfy`, `Adversary.dfy`, `Schedule.dfy` | ranks and slices, the adversary, the client's schedule |
| `Turns.dfy` | the adversary's choices as plain counts of lower scores |
| `Proposer.dfy`, `Proposals.dfy` | the proposer, as functions and as a mutable object; when it makes which header |
| `Wiring.dfy` | the proposer and the core of one primary run together |
| `ReliableSender.dfy`, `Writes.dfy` | the two queues of a connection; what it writes |

Code that changes fields in place is a class here. Each of its methods is proved equal to a
function on an immutable value of the state (`Value()`), and the theorems are about runs of those
functions. `EndToEnd` discharges what `Agreement` assumes: the DAG that honest primaries produce is
well formed, and each of them feeds its consensus causally.

## Hypotheses

- Hashing is injective and signatures cannot be forged. A digest is the tuple of the hashed
  fields. The code hashes payload and parents one after the other without lengths, so for real
  byte strings this is an idealisation. Scores of the adversary are an arbitrary function of
  authority, round and domain, for one seed.
- Less than a validity threshold of stake is dishonest (`EndToEnd.Valid`). What dishonest
  primaries do is arbitrary: it shows only in the messages and signatures that exist.
- **Clean commits** (`Agreement.CleanRun`), for agreement on the output. Flattening a leader is clean
  when nothing it outputs lies below its author's last committed round. The code does not establish
  this: a comment in `consensus/src/lib.rs:54-55` names the danger, the skip test at lines 343-346
  is an equality, and a primary hands a repeated certificate to its consensus again
  (`OwnHeaders.RepeatIsForwarded`). Leader agreement needs no such hypothesis. For the output:
  - one flattening is the canonical one if and only if it is clean (`Views.CanonicalExactly`);
  - with direct-commit verdicts from one schedule, a run agrees with every replica that gets no
    stale delivery if and only if each of its commits is clean (`Reference.AgreementExactly`);
  - a run outputs nothing twice if and only if no commit's oldest leader reaches something output
    before and still in the window (`Outputs.NoDoubleCommitExactly`), and puts parents first if
    and only if none reaches a parent of something output before (`Outputs.ParentsFirstExactly`);
    clean commits meet both (`Outputs.CleanOutput`);
  - commits are clean when no delivery is stale, that is, older than the last certificate committed
    of its author (`Agreement.TimelyIsClean`);
  - `StaleDelivery.StaleRedelivery` is a pair of runs in which all three properties fail.
- **No late rival** (`VoteOnce.RivalFree`), for everything that rests on vote-once. The loop checks
  that headers and certificates from the network are not behind the garbage collection round, and
  does not check those that come back from the waiters, new own headers, or late votes. Over every
  legal run, however late its events, a primary's votes have one id per author and round if and only
  if no waiter hands back, behind that round, a header that passes every other check and whose slot
  already has a vote for another id (`VoteOnce.RunVotesExactly`). `EndToEnd.Valid` asks exactly this
  of honest primaries, and nothing else of the timing of events. `Loopback.LoopbackVotesTwice` is
  a run in which it fails; `Witness.HonestCommits` shows runs that meet all of `EndToEnd.Valid` and
  commit.
- After any legal run the next event, however late, makes an `expect` fail if and only if it is a
  vote that completes the certificate of an own header behind the collected round
  (`Panics.RunPanicsExactly`, `LateVote.LateVoteRun`). An event that is not late
  (`Certification.Punctual`) never does (`Panics.RunDoesNotPanic`).
- The runs of `Loopback` and `LateVote` are in step with consensus (`ChainRun.InStep`): every consensus
  round that the primary reads is the initial one, or the one that the ordering engine reaches on
  the certificates which this primary has handed over before.
- Certificate digests, header ids and payload keys live in separate key spaces of the one store
  (`primary/src/core.rs:182`, `primary/src/synchronizer.rs:70`, `primary/src/synchronizer.rs:103`):
  the model keeps certificates, headers and batches apart.
- Nobody else signs headers in an honest primary's name; its proposer hands it headers of
  increasing rounds with parents that it was offered. The latter is proved of the proposer and the
  core running together (`Wiring.PairIsLegal`).
- Stakes, rounds and sums are unbounded numbers. At round 0 the code computes `round - 1`. The
  model wraps around as a release build does; a build with overflow checks would panic there.
- The ordering theorems hold for any rule that elects one leader per round; the class uses the
  round-robin rule. The verdict of the direct-commit schedule is an arbitrary input of each
  delivery and may differ between replicas.

Two certificates of round 0 count as equal when id, round and author agree, so one with the
default id passes verification whatever its payload and parents are. The global DAG therefore only
speaks of rounds from 1 up, and rows of round 0 are unconstrained.

## Model

| member | source | states |
|---|---|---|
| Types.Committee.SumIsWeight | config/src/lib.rs:154-156 | adding stakes along a list of distinct keys gives the weight of their set |
| Types.Committee.WeightInsert | config/src/lib.rs:154-156 | a new key adds exactly its stake, nothing if it is not in the committee |
| Types.Committee.QuorumMeetsValidity | config/src/lib.rs:168-181 | 2f+1 and f+1 of the stake always share a member |
| Types.Committee.QuorumsOverlap | config/src/lib.rs:168-181 | two quorums share members with at least f+1 of the stake |
| Types.Committee.Thresholds | config/src/lib.rs:168-181 | with 3f + 1 + k of the stake, k < 3, a quorum is all but f and a validity set f + 1 |
| DagTheory.Inevitable | consensus/src/lib.rs:166-182 | a header with f+1 support in the next round has a path from every header two or more rounds above it, anywhere in the DAG |
| DagTheory.SupportedIsInescapable | consensus/src/lib.rs:281-301 | every backward walk over leaders that starts two or more rounds above a supported leader takes that leader |
| DagTheory.FullChainSplits | consensus/src/lib.rs:281-301 | the chain of a later leader is its part above an inescapable leader followed by the whole chain of that leader |
| Tusk.Consensus.constructor | consensus/src/lib.rs:31-42 | the initial state holds the genesis certificates, nothing committed |
| Tusk.Consensus.Deliver | consensus/src/lib.rs:123-220 | one certificate takes the state, the committed leaders, the output and the panics exactly where the step function does |
| Tusk.Consensus.Loop | consensus/src/lib.rs:123-258 | fed with any stream, the task ends with the state, leaders and output of the run, and panics exactly where the run does |
| Tusk.Consensus.Elect | consensus/src/lib.rs:139-182 | the guards, in order, elect exactly the leader that the election function does |
| Tusk.Consensus.CommitLeaders | consensus/src/lib.rs:189-220 | leaders are flattened oldest first, each on the state the previous ones left |
| Tusk.Consensus.SupportStake | consensus/src/lib.rs:167-174 | the sum over the row is the weight of the distinct authors that name the leader as a parent |
| Tusk.Consensus.OrderLeaders | consensus/src/lib.rs:281-301 | the loop computes the backward walk above the last committed round |
| Tusk.Consensus.Linked | consensus/src/lib.rs:304-316 | the frontier loop computes the walk, with a panic at a missing row |
| Tusk.Consensus.OrderDag | consensus/src/lib.rs:320-360 | the stack loop computes the flattening that `Search.OrderDagExactly` determines; it ends since unseen certificates or the stack shrink |
| Tusk.Consensus.PushParents | consensus/src/lib.rs:329-351 | pushes exactly the uncommitted, unseen parents at hand, in order |
| Tusk.Consensus.UpdateOne | consensus/src/lib.rs:45-62 | raises the author's round, recomputes the maximum, prunes |
| Tusk.Consensus.CleanUp | consensus/src/lib.rs:56-61 | the nested retains, in any order of authors, are one filter: not behind the author's last committed round, not out of the window, no empty rows |
| Tusk.GreatestRound | consensus/src/lib.rs:51 | the greatest of the committed rounds |
| Tusk.TopAfterRaise | consensus/src/lib.rs:46-52 | the recomputed maximum is the old one or the new round, whichever is greater |
| Tusk.PruneOneMore | consensus/src/lib.rs:56-61 | one more author's pass keeps the result in filter form |
| SubDag.SortPermutes | consensus/src/lib.rs:358 | the sort by round permutes and sorts |
| Search.SortIsStable | consensus/src/lib.rs:358 | each round of the sorted list keeps its members in the order they had |
| SubDag.OrderDagCorrect | consensus/src/lib.rs:320-360 | the flattening holds exactly what retained, uncommitted links reach inside the window, each once, by rising round, the leader last |
| SubDag.OrderDagLeast | consensus/src/lib.rs:320-360 | it lies in every set that holds the leader and is closed under retained, uncommitted parents |
| Search.PushedExactly | consensus/src/lib.rs:329-351 | a visit pushes exactly the live, unseen parents, in the order of the parent list |
| Search.SearchIsRecursive | consensus/src/lib.rs:325-353 | the search with a stack visits in the order of a recursive one: a header, then what its unseen children lead to, the last child first |
| Search.OrderDagExactly | consensus/src/lib.rs:320-360 | the flattening is the one list by rising round whose part in each round of the window is what the recursive search visits there, in its order |
| SubDag.DfsSame | consensus/src/lib.rs:325-355 | two retained DAGs that agree on in-window children give the same order after the window filter |
| Views.LinkedCorrect | consensus/src/lib.rs:304-316 | with the rows in between present, the frontier loop answers whether a path of parent links exists |
| Views.PruneHas | consensus/src/lib.rs:56-61 | a certificate survives pruning if and only if it is neither stale nor out of the window |
| Views.RowsAbove | consensus/src/lib.rs:168-171 | every row between the last committed round and a received header is present, so no `expect` fails |
| Views.AboveLast | consensus/src/lib.rs:45-62 | pruning never touches rounds above the last committed one |
| Views.LinkedGlobally | consensus/src/lib.rs:304-316 | on a pruned view the answer is the one of the global DAG |
| Views.FallbacksAreChain | consensus/src/lib.rs:281-301 | the walk of a replica is the global canonical chain cut at its last committed round |
| Views.CanonicalExactly | consensus/src/lib.rs:320-360 | flattening a leader gives the canonical sub-DAG, order included, whatever was pruned when, if and only if it outputs nothing below its author's last committed round |
| Agreement.StepKeeps | consensus/src/lib.rs:128-220 | a causal delivery does not panic and keeps the view of the global DAG and the chain form of the leaders; a clean one also keeps the output canonical |
| Agreement.HistoryIntact | consensus/src/lib.rs:45-62 | in every causal run: no panic, the last committed round is the even round of the last leader, and all received above it is held |
| Elections.ElectsExactly | consensus/src/lib.rs:128-182 | in every causal run the last delivery commits if and only if it is three rounds above an uncommitted even-round leader that f+1 of the stake received supports, with a positive verdict; that leader is then the last committed |
| Elections.PrunesExactly | consensus/src/lib.rs:45-62 | a delivery that commits nothing only inserts its certificate; after a commit the replica holds exactly what it held that is neither older than its author's last committed round nor out of the window, and no empty row |
| Elections.CommittedExactly | consensus/src/lib.rs:45-52 | in every causal run an author's last committed round is the highest of its rounds output, and the last committed round the highest of all |
| Elections.StartsExactly | consensus/src/lib.rs:31-42 | a replica starts with exactly the genesis certificates of the members, all committed |
| Agreement.LeadersAreChain | consensus/src/lib.rs:188-189 | after every run the committed leaders are the whole canonical chain of the last directly supported one, wherever earlier commits split the walk |
| Agreement.ChainsAgree | consensus/src/lib.rs:281-301 | chains of supported leaders are prefix-related |
| Agreement.LeaderAgreement | consensus/src/lib.rs:139-220 | two replicas with causal streams of one DAG, any orders, any direct-commit verdicts and any depths commit prefix-related leader sequences |
| Agreement.TimelyIsClean | consensus/src/lib.rs:54-55 | without stale deliveries every commit is clean |
| Reference.ListingIsTimely | consensus/src/lib.rs:54-55 | a causal stream by rising round, each header once, has no stale delivery, whatever the verdicts |
| Reference.ReachesExactly | consensus/src/lib.rs:139-182 | whatever came before, a stream whose first delivery three rounds above a supported leader carries a positive verdict ends with the last committed round of that leader |
| Outputs.FlattenRecords | consensus/src/lib.rs:189-220 | whatever is flattened, clean or not, everything output is past in the state, and each of its parents past or out of the window |
| Outputs.CommitExactly | consensus/src/lib.rs:189-220 | one commit repeats a certificate, or outputs a parent after its child, if and only if the flattening of its oldest leader reaches one |
| Outputs.NoDoubleCommitExactly | consensus/src/lib.rs:340-350 | a causal run outputs no certificate twice if and only if no commit's oldest leader reaches one output before and still in the window |
| Outputs.ParentsFirstExactly | consensus/src/lib.rs:326-359 | a direct parent of an output certificate is output strictly earlier or never, if and only if no commit's oldest leader reaches a parent of one output before |
| Outputs.CleanOutput | consensus/src/lib.rs:189-220 | a run of clean commits outputs nothing twice and parents first |
| Outputs.FlattenedAgreement | consensus/src/lib.rs:189-220 | the outputs of two clean runs are prefix-related, order included |
| Outputs.LedgerExactly | consensus/src/lib.rs:189-220 | the output is the canonical ledger of the committed leaders if and only if every commit is clean |
| Outputs.TimelyOutput | consensus/src/lib.rs:189-220 | without stale deliveries outputs are prefix-related, repeat nothing and put parents first |
| Reference.CleanAgrees | consensus/src/lib.rs:189-220 | a clean run is prefix-related to every run without stale deliveries, under one schedule of direct commits |
| Reference.DirtyDisagrees | consensus/src/lib.rs:343-346 | a run with an unclean commit is not: some run without stale deliveries, under the same schedule, has an output that is not prefix-related to it |
| Reference.AgreementExactly | consensus/src/lib.rs:320-360 | under any one schedule of direct commits a run is prefix-related to every run without stale deliveries if and only if each of its commits is clean |
| StaleDelivery.StaleRedelivery | consensus/src/lib.rs:343-346 | one repeated certificate makes a replica output it twice, the second time after its child, and diverge from a replica without it |
| Messages.VerifyHeader | primary/src/messages.rs:48-67 | accepts exactly headers with the id of their fields, an author with stake and workers of that author |
| Messages.VerifyCertificate | primary/src/messages.rs:189-215 | accepts exactly genesis certificates and certificates of valid headers that a quorum of distinct members signed |
| Aggregators.TallyStep | primary/src/aggregators.rs:37-40 | the counter reaches the threshold exactly when it has not fired and the authors now hold a quorum; the reset cannot give a second one |
| Aggregators.VotesAggregator.Append | primary/src/aggregators.rs:25-46 | the append computes the counting function, repeated authors rejected |
| Aggregators.VotesFireOnce | primary/src/aggregators.rs:25-46 | any run of votes emits one certificate if the authors hold a quorum, none otherwise; its voters are distinct and hold a quorum |
| Aggregators.CertificatesAggregator.Append | primary/src/aggregators.rs:65-84 | the append computes the counting function, repeated origins ignored |
| Aggregators.CertsFireOnce | primary/src/aggregators.rs:65-84 | any run of certificates of a round emits one parent list if the origins hold a quorum, none otherwise; it meets the parent check of the next round |
| PrimaryNode.Core.GetParents | primary/src/synchronizer.rs:89-118 | all parents in order, genesis ones included, or nothing if one is missing |
| PrimaryNode.Core.DeliverCertificate | primary/src/synchronizer.rs:122-137 | true exactly when every parent is a genesis certificate or stored |
| PrimaryNode.Core.CheckParents | primary/src/core.rs:159-171 | the errors of the loop over the parents, round before quorum |
| PrimaryNode.Core.Examine | primary/src/core.rs:144-190 | what a header meets before a vote: suspended, rejected, or stored and perhaps voted |
| PrimaryNode.Core.SanitizeHeader | primary/src/core.rs:306-318 | accepts exactly valid headers not behind the collected round |
| PrimaryNode.Core.SanitizeVote | primary/src/core.rs:320-336 | accepts exactly valid votes for the current header |
| PrimaryNode.Core.SanitizeCertificate | primary/src/core.rs:338-346 | accepts exactly verified certificates not behind the collected round |
| PrimaryNode.Core.Turn | primary/src/core.rs:349-411 | one turn of the loop: sanitize, handle, clean up |
| PrimaryNode.Core.Loop | primary/src/core.rs:349-411 | the loop over any messages computes the run up to the first turn that panics, and all of it if none does |
| Examination.ExamineExactly | primary/src/core.rs:144-190 | a header waits if and only if a parent is missing, or all is well but batches of another author are; it is stored, and voted unless its slot is taken, if and only if its parents are at hand with a quorum one round below and the batches are held; it is rejected only for its parents; nothing else changes |
| Examination.ForeignHeader | primary/src/core.rs:142-214 | a header of another author gets a vote if and only if it is accepted and its slot is free |
| Examination.DeliverExactly | primary/src/core.rs:266-303 | a certificate waits if and only if an ancestor is missing, and is stored and handed to consensus otherwise |
| Examination.ForeignCertificate | primary/src/core.rs:251-304 | the header of another author's certificate is processed first unless it was; the certificate is then delivered or waits, unless that header is rejected |
| Examination.NetHeaderExactly | primary/src/core.rs:306-318 | a header from the network changes nothing if it is behind the collected round or not authentic, and is examined otherwise |
| Examination.NetVoteExactly | primary/src/core.rs:320-336 | a vote from the network is counted if and only if it is for the current header, by a member that signed it and was not counted before |
| Examination.NetCertificateExactly | primary/src/core.rs:338-346 | a certificate from the network changes nothing if it is behind the collected round or does not verify, and is processed otherwise |
| Examination.RunFiles | primary/src/core.rs:274-276 | in every legal run each stored certificate sits under its own digest, which the descriptions above ask for |
| GarbageCollector.GarbageCollector.Run | primary/src/garbage_collector.rs:51-71 | the published round becomes the highest committed; the workers are told the rises, all of them |
| GarbageCollector.RisesExactly | primary/src/garbage_collector.rs:57-61 | the rises are exactly the rounds above the old one and everything before them, in rising order, up to the maximum |
| Certification.ExamineChecks | primary/src/core.rs:150-190 | a header is only stored or voted with its parents at hand, one round below, holding a quorum |
| Certification.CastKeeps | primary/src/core.rs:184-190 | voting keeps the invariant: votes are for checked headers, and slots not yet collected are remembered |
| Certification.CountKeeps | primary/src/core.rs:217-226 | counting a vote keeps the invariant; a completed certificate is backed by a quorum of distinct signers |
| Certification.AssembledVerifies | primary/src/core.rs:220-226 | the certificate that the vote counter emits passes `Certificate::verify` |
| Certification.DeliverStores | primary/src/core.rs:266-303 | a certificate is handed to consensus after all its parents |
| Certification.DeliverCounts | primary/src/core.rs:279-292 | what is counted and offered to the proposer is stored, and every offered list meets the next round's parent check |
| Certification.OfferedChecks | primary/src/core.rs:159-171 | a header on parents that the certificate counter emitted, or on genesis, passes the parent check and is entered as voted |
| Certification.OwnHeaderKeeps | primary/src/core.rs:117-139 | a new own header, late or not, becomes the current one and is voted for, with the whole invariant kept |
| Certification.HeaderKeeps | primary/src/core.rs:142-214 | processing a header, late or not, keeps the whole invariant; of own late headers only the current one can be processed again |
| Certification.VoteKeeps | primary/src/core.rs:217-248 | processing a vote, late or not, keeps the whole invariant |
| Certification.CertificateKeeps | primary/src/core.rs:251-304 | processing a certificate, late or not, keeps the whole invariant |
| Certification.CleanupKeeps | primary/src/core.rs:401-409 | cleanup keeps it too: no vote at or above the collected round is forgotten |
| Offers.CleanupExactly | primary/src/core.rs:401-409 | cleanup keeps all three tables as they are from the collected round up, empties them below, and changes nothing else |
| Offers.TurnCollects | primary/src/core.rs:349-411 | every legal turn, whatever its message, ends with the collection that the consensus round read asks for |
| Offers.OfferedExactly | primary/src/core.rs:279-292 | after any legal run, for every round not collected: one parent list was offered if the authors of its delivered certificates hold a quorum, none otherwise, and it meets the next round's check |
| Offers.QuorumIsOffered | primary/src/core.rs:279-292 | certificates by a quorum, delivered before their round is collected, lead to an offered parent list that no later event withdraws |
| Assembly.QuorumIsCertified | primary/src/core.rs:217-248 | after any legal run: if the last proposed header is not collected and the counted voters hold a quorum, a certificate of it by distinct voters with a quorum was handed to consensus |
| Certification.TurnKeeps | primary/src/core.rs:349-411 | as long as no own header waits, which `OwnHeaders.RunReaches` shows, every legal turn keeps the invariant, late events included; votes and deliveries only grow |
| Certification.RevoteExactly | primary/src/core.rs:380-385 | a header that passes all checks in a slot voted before is voted again if and only if it is behind the collected round |
| VoteOnce.ForeignExactly | primary/src/core.rs:184-190 | processing a header of another author breaks the one vote per slot if and only if it is behind the collected round, passes, and has a rival vote |
| VoteOnce.TurnVotesExactly | primary/src/core.rs:349-411 | a legal turn keeps one vote per slot if and only if no waiter hands back such a header |
| VoteOnce.RunVotesExactly | primary/src/core.rs:380-385 | the votes of any legal run have one id per author and round if and only if no turn hands back such a header |
| Chain.ConsensusReaches | consensus/src/lib.rs:139-220 | for every depth, fed with a chain of certificates up to three rounds above a leader, consensus commits and its last committed round is that leader's |
| ChainRun.Feeds | primary/src/core.rs:251-304 | after any run in step with an idle consensus, a primary takes the chain's certificates, hands them over in order and leaves the rest alone |
| Loopback.LoopbackVotesTwice | primary/src/core.rs:380-385 | for every depth, a legal run in step with the primary's own consensus in which an honest primary votes for two headers of one slot, by a header that comes back from its waiter |
| Panics.RunDoesNotPanic | primary/src/core.rs:349-411 | no punctual turn of a legal run panics, whatever came late before |
| Panics.LateVotePanics | primary/src/core.rs:220-244 | a vote makes an `expect` fail if and only if it completes the certificate of an own header behind the collected round |
| Panics.HeaderPanicsExactly | primary/src/core.rs:184-200 | a header makes one fail if and only if it is an own one that comes behind the collected round |
| Panics.TurnPanicsExactly | primary/src/core.rs:349-411 | of all legal events exactly the late completions do: own headers never wait, so none comes back |
| OwnHeaders.TurnProcesses | primary/src/core.rs:142-304 | after any legal turn, late or not, own headers stay stored, voted, counted and out of the waiters |
| OwnHeaders.RunReaches | primary/src/core.rs:349-411 | every legal run ends in both invariants, however late its events |
| Panics.RunPanicsExactly | primary/src/core.rs:349-411 | after any legal run the next legal event panics if and only if it is a late completion |
| OwnHeaders.RepeatIsForwarded | primary/src/core.rs:295-303 | a delivered, verified certificate not yet collected may come again, legally and punctually, and is handed to consensus again |
| LateVote.LateVoteRun | primary/src/core.rs:320-336 | for every depth, a legal run in step with the primary's own consensus whose last event panics |
| EndToEnd.VotesOnce | primary/src/core.rs:184-190 | an honest primary that meets no late rival never votes for two headers of one author and round |
| EndToEnd.BackedIsChecked | primary/src/core.rs:150-171 | the header of any accepted certificate above genesis was checked by an honest voter |
| EndToEnd.CertificatesUnique | primary/src/messages.rs:189-215 | accepted certificates of one author and round have one digest and, above genesis, one header, across all honest primaries |
| EndToEnd.VerifiedUnique | primary/src/messages.rs:189-215 | any two certificates that verify for one author and round carry the same header id |
| EndToEnd.DagIsWellFormed | primary/src/core.rs:251-304 | what honest primaries deliver forms a DAG with one header per author and round and a quorum of parents one round below |
| EndToEnd.StreamIsCausal | primary/src/synchronizer.rs:122-137 | each honest primary feeds its consensus after all parents |
| EndToEnd.HonestAgreement | consensus/src/lib.rs:123-258 | all honest replicas commit prefix-related leaders without panics, whatever the others do |
| EndToEnd.HonestOutputAgreement | consensus/src/lib.rs:123-258 | if their commits are clean the outputs of honest replicas are prefix-related, repeat nothing and put parents first |
| Witness.HonestCommits | consensus/src/lib.rs:139-220 | for every depth, honest primaries that meet all the hypotheses, one of whose consensus commits a leader |
| Ranking.LowestByRank | primary/src/adversary.rs:58-63 | an entry is among the `k` lowest if and only if fewer than `k` are below it |
| Ranking.LowestTagsExactly | primary/src/adversary.rs:37-42 | with distinct tags the lowest `k` are exactly `k`, or all, and are those with fewer than `k` below them |
| Adversary.SilentExactly | primary/src/adversary.rs:16-64 | how many authorities a round silences, for all rounds, fault counts and committees: the clamped faults, one less in exactly one case |
| Adversary.ExactlyFaults | primary/src/adversary.rs:16-64 | with n >= 3f+1 distinct authorities every round silences exactly f |
| Adversary.WindowsTile | primary/src/adversary.rs:28-31 | every even round from 2 up lies in exactly one window, no other round in any |
| Adversary.RoundFindsWindow | primary/src/adversary.rs:29-30 | every round of a window computes the start of that window |
| Adversary.Sparse | primary/src/adversary.rs:77-90 | with more faults than authorities every stretch of 3f+1 leader rounds, across the shorter windows of the silent leaders, has at most 2f-1 silent ones, so f+2 remain |
| Adversary.WindowExactly | primary/src/adversary.rs:66-97 | for every fault count f >= 1: each window of the silent leaders, whose size is set by min(f, n), has exactly min(f, n) of them; each window of the direct commits, whose size is not clamped, exactly f+2, none with a silent leader |
| Adversary.DirectCommitSelected | primary/src/adversary.rs:69-97 | the loop and the slice compute the choice that `Turns.DirectExactly` determines |
| Turns.SameLeaders | consensus/src/lib.rs:268-274 | the leader that the schedule knows for a round is the one that consensus elects: the members in turn, from the lowest key at round 0 |
| Turns.SilentLeaderExactly | primary/src/adversary.rs:27-45 | a leader's turn is silent if and only if fewer than f rounds of its window have a lower (score of the leader in domain 2, round) |
| Turns.SelectedExactly | primary/src/adversary.rs:16-64 | who is silent in a round, as a count of those with a lower (score in domain 0, key): all of them in odd rounds; in even rounds all but the leader, whose turn decides for itself |
| Turns.DirectExactly | primary/src/adversary.rs:69-97 | a leader round is selected if and only if its leader is awake and fewer than f+2 awake rounds of its window have a lower (score of the leader in domain 1, round) |
| Schedule.SortKeysExactly | benchmark/benchmark/adversary_schedule.py:42 | the client's list holds the committee's keys in increasing order |
| Schedule.SliceIsRank | benchmark/benchmark/adversary_schedule.py:65-76 | sorting and slicing choose the keys that counting ranks chooses, repeated keys included |
| Schedule.SelectedIn | benchmark/benchmark/adversary_schedule.py:47-76 | the client's set of a round is exactly the authorities that `selected` silences |
| Schedule.BuildClientSchedules | benchmark/benchmark/adversary_schedule.py:43-80 | every bit of every client is its primary's silence in that round when clients pause, and unset otherwise |
| Proposer.Proposer.Loop | primary/src/proposer.rs:180-231 | the loop over any messages and timer states computes the run of turns that `Proposals` determines |
| Proposals.StartsExactly | primary/src/proposer.rs:180-183 | the proposer starts in round 1 on all genesis certificates |
| Proposals.StepProposesExactly | primary/src/proposer.rs:186-203 | a turn makes a header if and only if parents are at hand, the round is not silent, and the timer is up or the pending digests fill a header; it has the current round, those parents and all pending digests |
| Proposals.ReceiveExactly | primary/src/proposer.rs:209-229 | parents of a round not yet left start the next round, of which the workers are told; others are ignored |
| Proposals.RunRoundExactly | primary/src/proposer.rs:210-219 | in every run the round is 1 or the one after the highest parents received |
| Proposals.ProposedExactly | primary/src/proposer.rs:186-203 | in every run a round gets a header if and only if some turn in that round found it ready |
| Proposer.AsMapExactly | primary/src/proposer.rs:152 | collecting pairs keeps every digest, with a worker that was named for it |
| Proposer.StepKeepsRounds | primary/src/proposer.rs:126-145 | every turn keeps: header rounds rise, none is silent, and the workers were last told of the current round and its silence |
| Proposer.StepKeepsParents | primary/src/proposer.rs:205-216 | every turn keeps: parents at hand, and of headers made, were given for exactly that round |
| Proposer.StepConserves | primary/src/proposer.rs:147-177 | every turn keeps: the digests received are those of the headers in order, then the pending ones, 32 bytes each |
| Proposer.RunSafe | primary/src/proposer.rs:126-231 | in every run header rounds strictly increase, silent rounds have no header, parents are those given for that round, and the digests received are those of the headers in order followed by the pending ones, 32 bytes each |
| Proposer.NothingLost | primary/src/proposer.rs:187-224 | a digest is in a header or pending if and only if a worker reported it |
| Proposer.HeadersAreLegal | primary/src/proposer.rs:147-170 | the headers made are those that the core's theorems ask for |
| Wiring.PairIsLegal | primary/src/primary.rs:143-200 | over every interleaving of the proposer and the core, wired as they are, the core makes a legal run and the proposer one of its own; what the theorems about the core assume of own headers holds |
| ReliableSender.Connection.SendBuffer | network/src/reliable_sender.rs:193-212 | the loop computes the flush that `Writes.FlushExactly` determines |
| Writes.FlushExactly | network/src/reliable_sender.rs:193-212 | a flush goes through the buffer up to the first message whose write fails, which stays at the head; before it exactly the messages whose sender did not cancel are written, in order, and the others dropped |
| Writes.ServeExactly | network/src/reliable_sender.rs:191-246 | one connected turn in full: flush, then queue a message, hand a reply to the oldest waiting sender, or go down with everything unacknowledged queued again, first |
| Writes.OfflineExactly | network/src/reliable_sender.rs:172-175 | while disconnected a message joins the queue and exactly the closed ones leave it; a new connection starts with the queue as it was |
| Writes.ResendsAll | network/src/reliable_sender.rs:193-246 | in every run a new connection whose writes succeed writes again, in order, exactly the messages neither acknowledged nor cancelled |
| ReliableSender.EnqueueKeeps | network/src/reliable_sender.rs:172-175 | while disconnected a message joins the queue and exactly the closed ones leave it |
| ReliableSender.Connection.Close | network/src/reliable_sender.rs:241-246 | unacknowledged messages return to the front, in order |
| ReliableSender.Connection.Turn | network/src/reliable_sender.rs:191-239 | one turn of the connected loop |
| ReliableSender.SurvivingDrop | network/src/reliable_sender.rs:225-229 | losing one handler takes out exactly its message |
| ReliableSender.StepKeeps | network/src/reliable_sender.rs:140-247 | every step keeps the queue and connection invariants; replies stay, only cancelled messages are dropped |
| ReliableSender.ReplyKeepsQueue | network/src/reliable_sender.rs:219-229 | a reply resolves the oldest written message, which had none yet, and takes exactly that one out |
| ReliableSender.RunKeeps | network/src/reliable_sender.rs:140-247 | over any interleaving, pending then buffer is what was received minus acknowledged and cancelled, in order; the i-th reply on a connection goes to the i-th message written on it; each connection writes in order of receipt |
| ReliableSender.StillQueued | network/src/reliable_sender.rs:140-247 | a message is queued if and only if it has neither a reply nor been dropped as cancelled |

## Left out

- Messages.VerifyHeader: does not model the author's signature; that nobody else signs an honest primary's headers is part of `Certification.Legal`.
- Messages.VerifyCertificate: does not model the signature of the embedded header, for the same reason.
- PrimaryNode.Core.SanitizeHeader: does not model the signature of the header, for the same reason.
- PrimaryNode.Core.SanitizeCertificate: does not model the signature of the embedded header, for the same reason.
- PrimaryNode.Core.Turn: does not model the cancel handlers, which the cleanup also drops; states which messages are rejected, not which of several errors is reported, since the errors are only logged.
- Proposer.Proposer.Make: the parents of a header are listed in order of arrival without repeats, where the code orders the set by bytes; the theorems only use which parents there are.
- Tusk.Consensus.Deliver: represents a certificate by its header, since votes play no part in ordering.
- Liveness and latency: progress depends on timing and on the coin.
- Crash recovery: consensus state is not persisted by the code.
- Storage, channels, TCP, framing and timers: reads and writes of the store are a map, everything else arrives as an arbitrary event.
- `header_waiter.rs`, `certificate_waiter.rs`, `helper.rs`: represented by handing back, at any time and any number of times, what was suspended; own messages and replies lost or repeated are covered by arbitrary events.
- Broadcasting of headers, votes and certificates by the primary: what reaches others is arbitrary; the logs of votes and deliveries are kept.
- The consensus round read at the end of a turn is an input that does not fall. The theorems hold for any such rounds; only the runs of `Loopback` and `LateVote` tie them to this primary's own consensus.
- Worker processes, the client, deployment and plotting scripts: buffering and reporting without protocol decisions.
- Integer overflow of stakes, rounds and window sizes: reached only by sums beyond the machine width.
- The parsing of environment variables and the number of slots of a client schedule, which is a parameter.
