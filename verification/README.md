# Intelligence Network: a verified model of the node core

This project models the parts of the Intelligence Network node that keep state
across messages, and proves what they keep. Everything is plain Dafny 4.11;
`dafny verify dfyconfig.toml` checks the whole project.

- **Distributed training** (`Training*.dfy`). A node of a training job is a
  context in memory and a record on disk. Every handler is one step; which
  message arrives, which write fails, which peer is lost and when a node
  restarts are inputs. `TrainingSteps` gives the steps as functions,
  `TrainingNode` the same operations as a class whose methods update fields.
  `TrainingProgress` is about one node over whole runs, `TrainingElection` and
  `TrainingSplitBrain` about a cluster of nodes exchanging ballots,
  `TrainingCheckpoints` and `TrainingManifests` about the two coordinator loops,
  `TrainingCampaign` about one whole election, `TrainingRecovery` about
  coordinators elected in the middle of a run. `TrainingEffects` says what each
  handler does without naming the functions that compute it.
- **Local admission** (`Admission*.dfy`). The replay, rejection, latest,
  context and quarantine maps, over arbitrary histories.
- **Discovery** (`NodeIds`, `Dht*`, `DiverseSelection`). XOR distances, the
  routing table, the record store and the iterative lookup.
- **Simultaneous dial** (`PeerConnections`, `SimultaneousDial`). Two peers that
  dial each other, as a machine whose moves interleave at both ends.
- **Trust and selection** (`Evidence*`, `EvaluatorSelection`).
- **Training arithmetic** (`Aggregation*`, `LocalSgd`, `Kernels`).

Operations that change state in place are classes or methods, each proved equal
to a function; the theorems are about those functions, over all inputs and all
runs. The modules named `…Effects`, `…Meaning` and `AdmissionRelease` pin the
functions down by the states before and after them. `Machine` and `Sorting` hold the integer arithmetic and the stable sort
they share.

## What the code does differently

Some natural expectations are false of the code. Each has a lemma with an input
that shows it and a statement of when the expectation does hold, exact wherever
the code allows one.

- State is changed in memory before it is written. The term is durable exactly
  as far as its writes succeed (`RunTermDurableIff`, `TermRegressesAfterFailedWrite`).
  The window is durable exactly where the step that moves it also writes it, which
  window commands do not (`StepWindowDurableIff`, `WindowRegressesAcrossRestart`).
- A voter grants every term above its own, so one term can have two
  coordinators (`TwoCoordinatorsOfOneTerm`); with one backing per participant
  and term it cannot (`UniqueCoordinator`).
- Recovery during a campaign is documented not to move a candidate backwards, but a
  state with a later window and an earlier checkpoint replaces the checkpoint while
  the generation stays (`RecoveryMixesCheckpoints`, `RecoveryKeepsPairIff`).
- A coordinator that misses results can report success without a final
  checkpoint (`LostResultsSkipTheFinalCheckpoint`). `FinishedJobIsCommittedIff`
  and `FinishedFlagIff` say exactly when it does not.
- `final_checkpoint_generation` saturates, so for the largest intervals it is one
  short of the ceiling (`SaturationLosesACheckpoint`, `FinalIsCeilingIff`).
- Replay protection ends with the bounded replay map (`EvictionForgets`,
  `ReusedPositionIff`), and a window answered again under a new term looks like an
  equivocation (`SecondAnswerOutcome`).
- Other members cannot get an honest worker quarantined, but they can move a job
  past its answers (`OthersCanOvertake`, `HonestAmongOthersIff`).
- The order in which evidence arrives matters once a sequence number is used twice
  or a statement is evicted (`EqualSequencesDisagree`, `EvictionDisagrees`), and not
  otherwise (`OrderDoesNotMatter`).
- The issuer of a failure counts as an independent issuer, and a new remote one
  weighs more than the failure it reports, so a failure can raise a score
  (`FailureCanHelp`, `FailureHurtsIff`). A first success can lower a maturity, because
  reports alone do not degrade (`FirstSuccessCanDegrade`, `RankRisesIff`).
- `put` may answer true and keep nothing (`PutIntoFullStore`,
  `PushedButDroppedIff`).
- The prefix cap of a bucket does not cover refreshes (`CapIsExceeded`,
  `RunCappedIff`).
- The median follows a majority of the accepted updates, not of the submitted
  ones counted by one coordinate (`MajorityOfSubmittedIsNotEnough`,
  `SubmittedMajorityDecides`, `HalfOfUpdatesIsNotEnough`).

## Model

| member | source | states |
|---|---|---|
| `TrainingCheckpoints.FinishedFlagIff` | crates/node/src/distributed_training.rs:1092-1309 | Whatever arrives, results with gaps and results whose generation is not their window included: a job that reports success has the final flag if and only if it had it on entry, or every shard is final and inherited plus taken checkpoints plus the closing one reach the final generation |
| `TrainingCheckpoints.FinishedJobIsCommittedIff` | crates/node/src/distributed_training.rs:1092-1309 | However many results are lost, a job that reports success has its final manifest of every shard, its count and its durable record if and only if inherited plus taken checkpoints plus the closing one reach the final generation |
| `TrainingCheckpoints.FinishedJobIsCommitted` | crates/node/src/distributed_training.rs:1040-1309 | A consequence: if no result is missing, then whatever the number of groups and however results interleave with losses, elections and stray messages, an autonomous job that reports success is committed, with at least ceil(max_windows / checkpoint_every) checkpoints |
| `TrainingCheckpoints.FreshJobIsCommitted` | crates/node/src/distributed_training.rs:1092-1183 | The same for every job started from scratch, whether or not the interval divides max_windows |
| `TrainingCheckpoints.FreshJobQualifies` | crates/node/src/distributed_training.rs:1057-1083 | A fresh job enters the loop in a state that satisfies the loop invariant |
| `TrainingCheckpoints.SmoothJobCommits` | crates/node/src/distributed_training.rs:1092-1309 | A fresh job whose writes and acknowledgements succeed does finish, with everything committed, once it has been sent groups * max_windows results in order, in any interleaving |
| `TrainingCheckpoints.StepConserves` | crates/node/src/distributed_training.rs:1092-1183 | Checkpoints taken plus checkpoints still owed by the groups is conserved by every step of the loop |
| `TrainingCheckpoints.RecoveredJobCommitsIff` | crates/node/src/distributed_training.rs:1072-1083 | A consequence for takeovers that miss no result: committed if and only if inherited plus owed checkpoints plus the closing one reach the final generation; the recovered state alone decides, no interleaving does |
| `TrainingCheckpoints.LostResultsSkipTheFinalCheckpoint` | crates/node/src/distributed_training.rs:1949-1961 | A concrete run in which results 1 and 2 of a group are lost, result 3 of 3 is accepted, and success is reported without a final checkpoint |
| `TrainingCheckpoints.FinalIsCeilingIff` | crates/node/src/distributed_training.rs:319-324 | The final generation never exceeds ceil(max_windows / checkpoint_every), and is that ceiling if and only if max_windows is at most the largest multiple of checkpoint_every in a u64 |
| `TrainingCheckpoints.SaturationLosesACheckpoint` | crates/node/src/distributed_training.rs:319-324 | A job that shows it: max_windows the largest u64 and an interval of half the range give 1 where the ceiling is 2 |
| `TrainingCheckpoints.PublishedCovers` | crates/node/src/distributed_training.rs:326-336 | A record published with every shard final and enough checkpoints is recognised as covering the final model |
| `TrainingCheckpoints.WindowedCountIsCeiling` | crates/node/src/distributed_training.rs:947-984 | From any window the windowed mode takes exactly the checkpoints missing from the ceiling, whether or not the final generation saturates |
| `TrainingCheckpoints.WindowLoopCounts` | crates/node/src/distributed_training.rs:858-984 | A windowed job that finishes has closed every window, taken every due checkpoint and left a current record on disk |
| `TrainingCheckpoints.WindowedJobCount` | crates/node/src/distributed_training.rs:858-984 | A windowed job ends with exactly ceil(max_windows / checkpoint_every) checkpoints, which is the final generation if and only if that does not saturate |
| `TrainingManifests.CheckpointsFormAChain` | crates/node/src/distributed_training.rs:1040-1309 | However the autonomous loop ends, the manifests it wrote are one chain from the checkpoint it was entered with: each names its predecessor and counts one more; a loop that finishes leaves the coordinator at its end |
| `TrainingManifests.FinishedJobStaysStopped` | crates/node/src/distributed_training.rs:3061-3158 | A finished autonomous job that missed no result is not revived by a restart of its node |
| `TrainingManifests.ManifestHolds` | crates/node/src/distributed_training.rs:2949-2990 | A manifest lists every shard once, in ascending order, as the context has it; its model generation is the highest of them |
| `TrainingManifests.AggregateEffect` | crates/node/src/distributed_training.rs:1092-1183 | A result of no group is ignored, an untimely one only counted, a timely one recorded and written; a checkpoint follows if and only if every shard has started and the window closes an interval |
| `TrainingManifests.OpeningEffect` | crates/node/src/distributed_training.rs:1057-1083 | The loop starts with every group where its shard is, exactly the groups of final shards complete, and the record current |
| `TrainingRecovery.RunTracks` | crates/node/src/distributed_training.rs:2183-2247 | While messages name only shards of the job, every run of a node, restarts included, tracks exactly the groups and shards of the job |
| `TrainingRecovery.ElectedJobFlagIff` | crates/node/src/distributed_training.rs:2559-2585 | The exact condition of the final flag for a node elected anywhere in a run, whatever it recovered and whatever arrives afterwards |
| `TrainingRecovery.EntersWithInvariantIff` | crates/node/src/distributed_training.rs:1040-1083 | A context that tracks the job enters the loop with its full invariant if and only if no shard is past max_windows or the window and no final checkpoint was committed before |
| `TrainingRecovery.LaterTermLowersWindow` | crates/node/src/distributed_training.rs:2183-2247 | A state of a later term and an earlier window leaves a shard past the window |
| `TrainingCampaign.MajorityElects` | crates/node/src/distributed_training.rs:2393-2586 | Over any mailbox a candidate becomes coordinator if and only if grants of its term from a majority of the membership, itself included, arrive before a higher candidacy, whatever else arrives |
| `TrainingCampaign.TakesOverIff` | crates/node/src/distributed_training.rs:2318-2586 | A worker that loses its coordinator takes over if and only if it owns the election and reaches that majority |
| `TrainingCampaign.CampaignLearns` | crates/node/src/distributed_training.rs:2498-2530 | Whoever wins, a candidate ends its campaign having reached the window, the checkpoints and every shard of each state of the ended term that it read |
| `TrainingEffects.LossEffect` | crates/node/src/distributed_training.rs:1213-1262 | When the loss of an aggregator can be made good, and exactly what becomes of its groups and of all others |
| `TrainingEffects.RecoveryEffect` | crates/node/src/distributed_training.rs:2498-2530 | An accepted recovery state is met or exceeded in every shard, every summary after it is an old one or one of its entries, no generation falls, window and checkpoint generation are the larger ones and the checkpoint is the state's |
| `TrainingEffects.RecoveryKeepsPairIff` | crates/node/src/distributed_training.rs:2514-2518 | After a recovery the checkpoint and its generation belong together, both the candidate's or both the state's, if and only if the state is not behind in checkpoints or names the same one |
| `TrainingEffects.RecoveryMixesCheckpoints` | crates/node/src/distributed_training.rs:2514-2518 | A candidate at checkpoint generation 2 that hears a state with a later window and generation 1 keeps generation 2 and takes the older checkpoint |
| `TrainingEffects.StateEffect` | crates/node/src/distributed_training.rs:2183-2247 | The same of a published state, with the exact condition under which it is taken |
| `TrainingEffects.AdvanceBringsUp` | crates/node/src/distributed_training.rs:2213-2223 | Merging entries loses no shard, lets none go back, meets or exceeds every entry and takes nothing from elsewhere |
| `TrainingEffects.OverlayWritesOver` | crates/node/src/distributed_training.rs:2656-2670 | Writing entries over the shards touches exactly the shards named, the last entry of a shard winning |
| `TrainingEffects.CommitEffect` | crates/node/src/distributed_training.rs:2638-2694 | When a commit is adopted and what it changes |
| `TrainingEffects.WindowEffect` | crates/node/src/distributed_training.rs:2029-2070 | When a window command is obeyed, what it changes and what reaches the disk |
| `TrainingEffects.VoteEffect` | crates/node/src/distributed_training.rs:2249-2316 | When a vote is answered, granted and recorded |
| `TrainingEffects.OwnerIff` | crates/node/src/distributed_training.rs:2318-2372 | The election is owned by the lowest participant alive and in charge of no group, or by the lowest alive when all lead one |
| `TrainingEffects.OneOwner` | crates/node/src/distributed_training.rs:2318-2372 | Under one view of the failures nobody stands against another, and somebody stands if and only if anybody is alive |
| `TrainingEffects.WorkerLossEffect` | crates/node/src/distributed_training.rs:2318-2392 | Losing the coordinator opens a campaign for the next term at the owner of the election; losing anybody else only marks it |
| `TrainingEffects.ElectedEffect` | crates/node/src/distributed_training.rs:2559-2585 | What the winner holds afterwards |
| `TrainingEffects.ResultEffect` | crates/node/src/distributed_training.rs:1138-1157 | An accepted result replaces the summary of its shard and the progress of its group and touches no other |
| `TrainingEffects.RoundEffect` | crates/node/src/distributed_training.rs:858-984 | A closed window counts one and writes its results over the shards; the job goes on if and only if every write and acknowledgement of the round succeeded |
| `TrainingEffects.RestartEffect` | crates/node/src/distributed_training.rs:3061-3158 | A restart revives a node if and only if it takes part, did not start the job and its record is not that of a finished job; it is restored from its record |
| `TrainingEffects.RetiresIff` | crates/node/src/distributed_training.rs:338-349 | A worker of an autonomous job ends its task after a message if and only if it has seen the final checkpoint, the last window, enough checkpoints and every shard final |
| `SimultaneousDial.CanonicalNeverClosed` | crates/network/src/lib.rs:1829-1990 | In every interleaving of handshakes, closes, cleanups and writer stops at both ends, the connection dialed by the lower node id, unless it fails on its own, is never closed, never dropped by a late cleanup and never considered stale |
| `SimultaneousDial.EndsAgree` | crates/network/src/lib.rs:1829-1990 | Once both ends have decided both handshakes they hold that same connection and the other one is closed at both |
| `SimultaneousDial.RunGood` | crates/network/src/lib.rs:2154-2164 | The invariant behind both, for every state of every run |
| `PeerConnections.PeerMaps.Register` | crates/network/src/lib.rs:1883-1967 | Installing, replacing, rejecting or refusing a connection updates all per-peer maps and the learned records; a replacement never meets the connection limit, but a full peer table turns it away after the replaced one is forgotten |
| `PeerConnections.PeerMaps.CleanUp` | crates/network/src/lib.rs:2154-2164 | A finished connection clears the maps if and only if they still point at it |
| `PeerConnections.PeerMaps.Judge` | crates/network/src/lib.rs:1829-1930 | The decision read from the maps is the decision of the canonical-connection rule |
| `PeerConnections.ReplacedIff` | crates/network/src/lib.rs:1829-1930 | The two looks together: exactly when an installed connection gives way, and to which |
| `TrainingProgress.RunNeverGoesBack` | crates/node/src/distributed_training.rs:2183-2247 | Between any two points of a run without a restart, (term, window) does not decrease lexicographically and checkpoint_generation does not decrease, over all worker, coordinator, election and loss steps |
| `TrainingProgress.StepDurableIff` | crates/node/src/distributed_training.rs:2183-2247 | The handlers change memory before they write: a step keeps the durable term equal to the term in memory if and only if it left the term alone or its write succeeded |
| `TrainingProgress.RunTermDurableIff` | crates/node/src/distributed_training.rs:2183-2247 | Over a whole run the term is durable throughout if and only if every step that moves it writes it |
| `TrainingProgress.TermSurvivesRestarts` | crates/node/src/distributed_training.rs:3061-3158 | With those writes succeeding the term never decreases in any run, crashes and restarts included |
| `TrainingProgress.FreshNodeIsDurable` | crates/node/src/distributed_training.rs:634-733 | The side conditions hold of a node that has just accepted a job |
| `TrainingProgress.TermRegressesAfterFailedWrite` | crates/node/src/distributed_training.rs:2183-2247 | A worker that adopts a state of a later term, fails to write it and restarts is back in the first term |
| `TrainingProgress.StepWindowDurableIff` | crates/node/src/distributed_training.rs:2029-2247 | A step keeps the durable window equal to the one in memory if and only if it leaves the window alone, or its write succeeds and it closes a window or, outside a campaign, handles a state, a commit or a result |
| `TrainingProgress.RunWindowDurableIff` | crates/node/src/distributed_training.rs:2029-2247 | Over a whole run the window is durable throughout if and only if every step that moves it writes it |
| `TrainingProgress.WindowSurvivesRestarts` | crates/node/src/distributed_training.rs:3061-3158 | With the writes of both succeeding, (term, window) never decreases lexicographically in any run, crashes and restarts included |
| `TrainingProgress.WindowRegressesAcrossRestart` | crates/node/src/distributed_training.rs:2029-2070 | In every mode of a job, a window adopted from a command and beyond the record on disk is lost by a restart |
| `TrainingProgress.RestoreInvertsPersist` | crates/node/src/distributed_training.rs:3061-3158 | Restoring after a successful write recovers coordinator, term, window, checkpoint and every shard summary |
| `TrainingProgress.RunKeepsShards` | crates/node/src/distributed_training.rs:2638-2694 | The side condition of that round trip holds after every run |
| `TrainingElection.WinnersShareABacker` | crates/node/src/distributed_training.rs:2393-2586 | In every run of the cluster two winners of one term were both backed by some participant |
| `TrainingElection.UniqueCoordinator` | crates/node/src/distributed_training.rs:2249-2316 | If no participant backs two candidates of a term, live coordinators of that term are the same node |
| `TrainingElection.QuorumsMeet` | crates/node/src/distributed_training.rs:315-317 | Two sets of participants of quorum size intersect |
| `TrainingSplitBrain.TwoCoordinatorsOfOneTerm` | crates/node/src/distributed_training.rs:2278-2290 | A full run of the four-worker job that ends with two live coordinators of term 2, because a voter grants every term above its own: the one-grant hypothesis is needed |
| `TrainingNode.TrainingNode.constructor` | crates/node/src/distributed_training.rs:537-617 | The node of a job just accepted |
| `TrainingNode.TrainingNode.WriteState` | crates/node/src/distributed_training.rs:3041-3045 | The record on disk becomes the published state exactly when the write succeeds |
| `TrainingNode.TrainingNode.HandleState` | crates/node/src/distributed_training.rs:2183-2247 | An inadmissible state changes nothing; an admissible one gives its coordinator, term and window, meets or exceeds every shard entry, lets no generation fall, raises the checkpoint and is written |
| `TrainingNode.TrainingNode.HandleElection` | crates/node/src/distributed_training.rs:2249-2316 | Answered exactly for a candidate of the job that asks for itself; granted exactly for a higher term or the candidate already voted for; only a higher term is recorded |
| `TrainingNode.TrainingNode.HandleCommit` | crates/node/src/distributed_training.rs:2638-2694 | Adopted exactly when authentic, not behind and writable; the manifest is written over the shards, its last word on each shard winning |
| `TrainingNode.TrainingNode.HandleWindow` | crates/node/src/distributed_training.rs:2029-2070 | Obeyed exactly when it comes from the coordinator or the group's aggregator for this worker's shard; a later term is written first, and the window moves only if that succeeds |
| `TrainingNode.TrainingNode.ReadCampaignMail` | crates/node/src/distributed_training.rs:2446-2541 | A counted grant adds its sender and nothing else; a higher candidacy ends the campaign; a state of the ended term that is ahead brings window, checkpoint generation and every shard up to it, takes its checkpoint and lets no generation fall; anything else changes nothing |
| `TrainingNode.TrainingNode.BecomeCoordinator` | crates/node/src/distributed_training.rs:2559-2585 | Role, term, vote and failure set of the winner, then the write |
| `TrainingNode.TrainingNode.MaybeElect` | crates/node/src/distributed_training.rs:2318-2586 | A worker takes over exactly when it owns the election and, before a higher candidacy, grants of the next term from a majority of the membership are in; and the whole loop over any mailbox is the campaign of the run theorems |
| `TrainingNode.TrainingNode.CommitCheckpoint` | crates/node/src/distributed_training.rs:1476-1523 | The manifest, the counter and both writes of an autonomous checkpoint, with every failure point |
| `TrainingNode.TrainingNode.AcceptAggregate` | crates/node/src/distributed_training.rs:1092-1183 | An aggregate is recorded, persisted and checkpointed as the step function says, or refused |
| `TrainingNode.TrainingNode.ReplaceAggregators` | crates/node/src/distributed_training.rs:1213-1262 | False exactly when some group led by the lost node has no member left that has not failed; otherwise each such group is led by its first such member and has exactly those members in order, every other group is as before, and a lost node that is marked failed leads nothing |
| `TrainingNode.TrainingNode.OpenLoop` | crates/node/src/distributed_training.rs:1057-1083 | Opening write, group progress and the groups already complete |
| `TrainingNode.TrainingNode.DriveAutonomous` | crates/node/src/distributed_training.rs:1040-1309 | The loop over any mailbox computes the run about which the checkpoint, chain and recovery theorems are proved; losses in it replace aggregators as `AggregatorReplaced` says |
| `TrainingNode.TrainingNode.CloseOneWindow` | crates/node/src/distributed_training.rs:858-984 | One window of the windowed mode, with every failure point |
| `TrainingNode.TrainingNode.DriveWindowed` | crates/node/src/distributed_training.rs:843-984 | The windowed loop computes the run of the windowed theorems |
| `AdmissionHistory.AcceptedContributionsAreOrdered` | crates/intelligence/src/security.rs:459-575 | Over every history: accepted positions of a stream never go backwards, no plan and generation of a job has accepted contributions of two branches, and while at most max_replay_entries were accepted no position is accepted twice |
| `AdmissionHistory.ReusedPositionIff` | crates/intelligence/src/security.rs:459-575 | Any contribution, the same or another, is accepted at a used position if and only if the replay entry is gone, its rejection is not on record, its worker is free, and the position still is the last of its stream and current for its job |
| `AdmissionHistory.EvictionForgets` | crates/intelligence/src/security.rs:976-983 | For every pair of workers a bound of one entry leads to such a second acceptance |
| `AdmissionConduct.RivalFramesAnswered` | crates/intelligence/src/security.rs:496-575 | Every sequence of submissions of two frames that differ only in values: one acceptance, one equivocation at the first appearance of the other, duplicates for all the rest |
| `AdmissionConduct.QuarantineHolds` | crates/intelligence/src/security.rs:400-405 | Whatever else is submitted, nothing from a quarantined worker is accepted until the clock passes the end of the period |
| `AdmissionConduct.EquivocatorShutOut` | crates/intelligence/src/security.rs:873-887 | From its equivocation on, its author is shut out for the whole period |
| `AdmissionRelease.QuarantinedIff` | crates/intelligence/src/security.rs:459-575 | At a time no operation is later than, a submission is answered Quarantined if and only if its frame is in order and its worker was convicted at most a period ago, and accepted if and only if it was not and the contribution is acceptable |
| `AdmissionRelease.QuarantineEnds` | crates/intelligence/src/security.rs:400-405 | By whatever clocks: a period after the last conviction no submission is answered Quarantined, and each is accepted if and only if it is acceptable |
| `AdmissionRelease.HeldIff` | crates/intelligence/src/security.rs:400-405 | A worker is held if and only if one of its convictions is at most a period old |
| `AdmissionRelease.HeldNoLonger` | crates/intelligence/src/security.rs:873-887 | Nobody is held beyond a period after its last conviction |
| `AdmissionRelease.QuarantineStep` | crates/intelligence/src/security.rs:873-887 | For every operation and every peer, the exact entry afterwards |
| `AdmissionRelease.AnswerIff` | crates/intelligence/src/security.rs:459-575 | From any ledger: exactly when a submission is answered Quarantined and exactly when it is accepted |
| `AdmissionRelease.ObserveEffect` | crates/intelligence/src/security.rs:407-457 | A context is accepted if and only if it is complete and nothing is ahead of it; which of the other answers the rest gets; only acceptance changes anything |
| `AdmissionRelease.BoundEvicts` | crates/intelligence/src/security.rs:976-983 | Making room drops the first keys, and no more of them than it must |
| `AdmissionHonesty.AdvancingAcceptedIff` | crates/intelligence/src/security.rs:459-575 | Whatever other members submit and however they misbehave, a worker whose sequences rise and generations do not fall stays out of quarantine, and each of its contributions is accepted if and only if the job has not been moved past it |
| `AdmissionHonesty.HonestAmongOthersIff` | crates/node/src/distributed_training.rs:1705-1730 | The same for a worker that answers each window of a job once, in window order, among arbitrary submissions of others |
| `AdmissionHonesty.NotOvertaken` | crates/intelligence/src/security.rs:407-457 | A job is not moved past a context that no submission and no observation was ahead of |
| `AdmissionHonesty.OthersCanOvertake` | crates/intelligence/src/security.rs:407-457 | One accepted contribution of another member for a later generation makes an honest answer stale |
| `AdmissionHonesty.HonestAnswersAccepted` | crates/node/src/distributed_training.rs:1705-1730 | A consequence: workers that all answer each window once, in window order under non-decreasing terms, are accepted at every window, for any number of windows and any replay bound |
| `AdmissionHonesty.SecondAnswerOutcome` | crates/node/src/distributed_training.rs:1705-1730 | A second answer to a window is stale under a lower term, a duplicate when it repeats itself, and an equivocation with quarantine in every other case, under a higher term even with the same values |
| `AdmissionState.BoundMap` | crates/intelligence/src/security.rs:976-983 | The eviction loop drops the first keys, and no more than needed for one more entry |
| `AdmissionState.LocalSecurityState.AdmitTrainingUpdate` | crates/intelligence/src/security.rs:459-575 | Accepted exactly when the worker is not held and the contribution is acceptable; a convicted worker is held until the later of its running time and a period from now, and no other entry moves except to expire |
| `AdmissionState.LocalSecurityState.ObserveContext` | crates/intelligence/src/security.rs:407-457 | The context map and the outcome |
| `AdmissionState.LocalSecurityState.IsQuarantined` | crates/intelligence/src/security.rs:400-405 | The answer, and the expired entries dropped on the way |
| `AdmissionState.LocalSecurityState.Quarantine` | crates/intelligence/src/security.rs:873-887 | The peer is held until exactly the later of its running time and a period from now, saturated; no other entry moves |
| `AdmissionState.LocalSecurityState.RecordContribution` | crates/intelligence/src/security.rs:556-575 | A taken position is an equivocation, a free one is recorded |
| `DhtStoreHistory.StoreKeepsTheBest` | crates/network/src/dht.rs:254-280 | After any history of puts, reads and expiries in which nothing expires and the total bound is not met, every key holds exactly a top selection of the unbounded map from owner to highest sequence put |
| `DhtStoreHistory.KeptIsTop` | crates/network/src/dht.rs:254-280 | The same for the bounded list of one key and any sequence of puts with repeated owners |
| `DhtStoreHistory.KeptWasPut` | crates/network/src/dht.rs:254-280 | Every kept record was put |
| `DhtStoreHistory.EvictedRankLowest` | crates/network/src/dht.rs:358-379 | Every record the total bound drops has (sequence, expires_at) no greater than every record it keeps |
| `DhtStoreHistory.PushedButDroppedIff` | crates/network/src/dht.rs:254-280 | put answers true for a record it does not keep if and only if the live records exceed the bound and the new one ranks below all others |
| `DhtStoreHistory.PutIntoFullStore` | crates/network/src/dht.rs:358-379 | Stores that show it: room for one record, taken by a newer one under another key |
| `DhtStore.ReachableStoreGood` | crates/network/src/dht.rs:324-329 | In every reachable store owners are unique per key, no key exceeds its bound and the total is within max_records |
| `DhtStore.EvictsOne` | crates/network/src/dht.rs:358-379 | One pass of the eviction loop removes exactly one record |
| `DhtStoreEffects.PutAnswerIff` | crates/network/src/dht.rs:254-280 | put answers false if and only if the record has expired, is not above its owner's stored sequence, or meets a full key with no lower sequence |
| `DhtStoreEffects.FileEffect` | crates/network/src/dht.rs:254-280 | A refused record changes no record of its key; another replaces its owner's, joins, or displaces the record of lowest (sequence, expires_at) |
| `DhtStoreEffects.GetEffect` | crates/network/src/dht.rs:282-290 | Reading drops the expired records of its key and touches no other key |
| `DhtRecordStore.RecordStore.Put` | crates/network/src/dht.rs:254-280 | False exactly for an expired record, one not above its owner's stored sequence, or a full key with no lower sequence; the map updated in place is that of the put function |
| `DhtRecordStore.RecordStore.EnforceTotalBound` | crates/network/src/dht.rs:358-379 | The eviction loop terminates within the bound |
| `DhtRecordStore.RecordStore.Get` | crates/network/src/dht.rs:282-290 | The live records of the key, newest first, one per owner |
| `DhtRecordStore.RecordStore.GetDiverse` | crates/network/src/dht.rs:295-322 | min(limit, available) records over min(limit, prefixes) owner prefixes |
| `DhtRecordStore.RecordStore.ExpireAll` | crates/network/src/dht.rs:324-329 | Exactly the live records remain, and no key without one |
| `DhtRecordStore.ExpireHolds` | crates/network/src/dht.rs:324-329 | A record is held after expiry if and only if it was held and is live |
| `DhtRecordStore.GotFacts` | crates/network/src/dht.rs:282-290 | A read returns exactly the live records of the key, sorted, with distinct owners |
| `DiverseSelection.SelectDiverse` | crates/network/src/dht.rs:159-188 | The two passes over the ranked list |
| `DiverseSelection.DiverseFacts` | crates/network/src/dht.rs:159-188 | min(limit, available) distinct items, min(limit, prefixes available) prefixes |
| `DiverseSelection.NoChoiceIsMoreDiverse` | crates/network/src/dht.rs:295-322 | No other choice of at most limit items shows more prefixes |
| `DiverseSelection.RepresentativeIff` | crates/network/src/dht.rs:159-176 | The first pass takes exactly the items that are the first of their prefix while fewer prefixes than the limit come before them |
| `DiverseSelection.FillInOrder` | crates/network/src/dht.rs:177-188 | The second pass skips nothing: before an item it takes, everything of the list is selected |
| `NodeIds.BucketIsLog` | crates/network/src/dht.rs:390-398 | For distinct ids the bucket index is the floor of the base-2 logarithm of their 256-bit distance |
| `NodeIds.DistanceInjective` | crates/network/src/dht.rs:382-388 | Distinct ids are at distinct distances from any target |
| `NodeIds.NumberOrder` | crates/network/src/dht.rs:382-388 | Comparing distance arrays compares the numbers they spell |
| `NodeIds.FindBucketIndex` | crates/network/src/dht.rs:390-398 | The loop over the bytes |
| `DhtTable.ReachableTableGood` | crates/network/src/dht.rs:51-138 | In every reachable table each contact sits in the bucket of its distance, ids are unique, buckets hold at most k, the local id is absent, replacement and protected lists keep their bounds |
| `DhtTable.OneBucketPerId` | crates/network/src/dht.rs:51-105 | An id is in one bucket at most, once |
| `DhtPrefixCap.StepCappedIff` | crates/network/src/dht.rs:51-105 | An operation keeps every bucket within max(4, ceil(k/2)) contacts per prefix if and only if it is not a fresher announcement of an unprotected bucket contact from another prefix already at the cap |
| `DhtPrefixCap.RunCappedIff` | crates/network/src/dht.rs:51-138 | Over a whole run no bucket exceeds the cap if and only if no operation is one |
| `DhtPrefixCap.PrefixesStayCapped` | crates/network/src/dht.rs:51-105 | While no id changes its prefix every reachable table keeps the cap |
| `DhtPrefixCap.MovedIdExceedsCap` | crates/network/src/dht.rs:69-75 | Four contacts of one prefix and one of another in a bucket, then a fresher announcement of the fifth from the first prefix: a reachable bucket past the cap |
| `DhtPrefixCap.CapIsExceeded` | crates/network/src/dht.rs:69-75 | The same with concrete ids and k = 8 |
| `DhtRouting.ClosestFacts` | crates/network/src/dht.rs:140-154 | closest returns exactly the nearest distinct live ids in order: adjacent dedup is complete |
| `DhtRouting.OlderCopyHidesProtected` | crates/network/src/dht.rs:140-154 | An id live in a bucket is returned in its bucket copy, not in the protected one |
| `DhtTableEffects.ClosestOfTable` | crates/network/src/dht.rs:140-154 | closest over what buckets, replacements and protected list hold: the nearest ids with a live copy, each in the copy of a bucket, else of the replacements, else of the protected list |
| `DhtTableEffects.InsertEffect` | crates/network/src/dht.rs:51-105 | Where an announcement goes, whose place it takes and what is answered |
| `DhtTableEffects.ProtectEffect` | crates/network/src/dht.rs:107-128 | A protected id is renewed by anything at least as new; at sixteen one that expires first gives way |
| `DhtTableEffects.CacheEffect` | crates/network/src/dht.rs:194-214 | A replacement is renewed or put last, the oldest going when the cache is full |
| `DhtTableEffects.ExpireEffect` | crates/network/src/dht.rs:130-138 | Expiry keeps exactly what is live, where it was |
| `DhtRouting.RoutingTable.Insert` | crates/network/src/dht.rs:51-105 | The table updated in place is that of the insert function |
| `DhtRouting.RoutingTable.Protect` | crates/network/src/dht.rs:107-128 | The protected list, with the earliest expiry making room |
| `DhtRouting.RoutingTable.AddReplacement` | crates/network/src/dht.rs:194-214 | The replacement list and the answer |
| `DhtRouting.RoutingTable.ExpireAll` | crates/network/src/dht.rs:130-138 | All three parts lose their expired contacts |
| `DhtRouting.RoutingTable.ClosestDiverse` | crates/network/src/dht.rs:159-188 | min(limit, distinct live ids) distinct ids over min(limit, prefixes) network prefixes |
| `DhtLookup.FindNode` | crates/network/src/lib.rs:788-866 | For any replies and any early stop: exactly the k nearest of all ids ever known, in order; every round asks the alpha nearest ids in reach not asked before, or all of them; no peer asked twice; at most 8 * alpha peers asked; an error if and only if a round it reaches hears a usable contact that cannot be stored |
| `DhtLookup.Traverse` | crates/network/src/lib.rs:802-861 | Whom each round asks, said over the known ids alone: the min(alpha, unasked in reach) nearest unasked ids among the max(2k, alpha) nearest known ones, going on exactly while one is left, time is left, nothing is refused and a reply names an id that was not in reach |
| `DhtLookup.ExploreConverses` | crates/network/src/lib.rs:802-861 | The loop over candidates refines that conversation over known ids, from every state it reaches |
| `DhtLookup.AbsorbReplies` | crates/network/src/lib.rs:838-858 | New contacts are appended once, the changed flag says whether there were any, and a contact that cannot be stored ends the pass |
| `EvaluatorSelection.SelectEvaluators` | crates/intelligence/src/security.rs:1021-1097 | The sort, the two passes, the number of source groups of the first and the rejected list |
| `EvaluatorSelection.RankIsLexicographic` | crates/intelligence/src/security.rs:1037-1044 | Candidates are ordered by maturity downward, seeded hash, successes up to three downward, then node |
| `EvaluatorSelection.SelectionFacts` | crates/intelligence/src/security.rs:1021-1097 | min(count, available) distinct candidates; the per-group cap is exceeded if and only if the groups together cannot supply that many within it |
| `EvaluatorSelection.EvaluatorsPartition` | crates/intelligence/src/security.rs:1021-1097 | Every candidate is either selected or rejected, never both |
| `EvaluatorSelection.SelectionPrefers` | crates/intelligence/src/security.rs:1021-1097 | No degraded or quarantined candidate is selected, and within a group nobody is selected over an eligible candidate that ranks before |
| `EvaluatorSelection.MaturityDecides` | crates/intelligence/src/security.rs:1037-1044 | Trusted candidates rank before established, observed and new ones, in that order |
| `EvidenceOrder.OrderDoesNotMatter` | crates/intelligence/src/trust.rs:150-186 | Any two orders of a batch inserted at one time without eviction lead to the same decision about every subject at every time, apart from the rejected count |
| `EvidenceOrder.EndorsersCount` | crates/intelligence/src/trust.rs:192-333 | The endorsement loop counts exactly min(limit, qualifying distinct endorsers) whatever the entry order |
| `EvidenceOrder.BatchNewest` | crates/intelligence/src/trust.rs:150-186 | After a batch the graph holds exactly the newest statement of every topic |
| `EvidenceOrder.EqualSequencesDisagree` | crates/intelligence/src/trust.rs:150-186 | With one sequence number for two statements that expire apart, the order decides |
| `EvidenceOrder.EvictionDisagrees` | crates/intelligence/src/trust.rs:150-186 | With room for one statement the order of two decides which subject is known |
| `EvidenceGraph.ReachableGraphGood` | crates/intelligence/src/trust.rs:150-190 | In every reachable graph an issuer has one statement per subject and kind, and the bound holds |
| `EvidenceState.TrustGraph.Insert` | crates/intelligence/src/trust.rs:150-186 | The outcome, and exactly which statement goes: the topic's old one, or when the list is full the one that expires, was observed and is numbered first |
| `EvidenceState.TrustGraph.ExpireAll` | crates/intelligence/src/trust.rs:188-190 | Exactly the live statements remain |
| `EvidenceState.TrustGraph.Decision` | crates/intelligence/src/trust.rs:192-333 | Every count is the size of the set of statements or issuers it is about, endorsements up to their limit; the score is the weighted sum between 0 and 100, quarantine and each maturity hold by their own conditions |
| `EvidenceState.TrustGraph.CountEndorsements` | crates/intelligence/src/trust.rs:192-333 | The endorsement loop |
| `EvidenceMeaning.JudgeMeans` | crates/intelligence/src/trust.rs:277-333 | The score, the quarantine and each maturity by its own condition |
| `EvidenceMeaning.ScoreIs` | crates/intelligence/src/trust.rs:263-290 | The score is 15 per local and 5 per remote success, 10 per issuer and 3 per endorsement, less 20 per local and 5 per remote failure and 2 per report, between 0 and 100; saturation matters only when both sums overflow |
| `EvidenceMeaning.ScoreMonotone` | crates/intelligence/src/trust.rs:263-290 | More successes, issuers or endorsers never lower a score, more failures or reports never raise it |
| `EvidenceMeaning.NeverDegradedUnblamed` | crates/intelligence/src/trust.rs:277-290 | Without a failure and a report nobody is degraded; reports alone neither degrade nor quarantine |
| `EvidenceMeaning.RankRisesIff` | crates/intelligence/src/trust.rs:277-290 | With nothing added to the blame a subject never falls in maturity, except when its first success does not make up for the reports against it |
| `EvidenceMeaning.FirstSuccessCanDegrade` | crates/intelligence/src/trust.rs:277-290 | Counts that show the exception |
| `EvidenceMeaning.GoodNewsHelps` | crates/intelligence/src/trust.rs:192-333 | One more positive statement or endorsement, about anyone, lowers nobody's score, and nobody's maturity but in that case |
| `EvidenceMeaning.ReportsHurt` | crates/intelligence/src/trust.rs:192-333 | One more report never raises a score |
| `EvidenceMeaning.FailureHurtsIff` | crates/intelligence/src/trust.rs:192-333 | One more failure does not raise its subject's score if and only if its issuer is local, the subject or already counted, or the score is pinned at an end |
| `EvidenceMeaning.FailureCanHelp` | crates/intelligence/src/trust.rs:192-333 | A failure reported by a newcomer raises the score of an unknown subject from 0 to 5 |
| `EvidenceMeaning.StatementCounts` | crates/intelligence/src/trust.rs:192-275 | How every count changes with one more statement |
| `EvidenceMeaning.EndorsementsAloneGiveNothing` | crates/intelligence/src/trust.rs:243-262 | Without a direct statement about anyone, endorsements and reports give nobody a score or a maturity |
| `EvidenceMeaning.InsertEffect` | crates/intelligence/src/trust.rs:150-186 | Which statements are invalid, stale and kept, and what a kept one removes |
| `EvidenceMeaning.KindsPartition` | crates/intelligence/src/trust.rs:340-364 | A direct statement is good or bad and never both; every success is good |
| `Aggregation.AggregateUpdates` | crates/intelligence/src/training_fabric.rs:544-625 | Every coordinate combined on its own, accepted plus rejected equals the total, results within the clip bound; malformed input and no accepted update give nothing |
| `Aggregation.AggregateIsRobust` | crates/intelligence/src/training_fabric.rs:544-625 | The median of a coordinate stays in [lo, hi] when more than half of the accepted updates have it there; the trimmed mean when at least three are accepted and at most one has not |
| `Aggregation.MedianFollowsMajority` | crates/intelligence/src/training_fabric.rs:604-615 | A strict majority in a range keeps the median in it, for odd and even counts |
| `Aggregation.SubmittedMajorityDecides` | crates/intelligence/src/training_fabric.rs:560-615 | If more than half of the submitted updates are wholly within the clip bound and have a coordinate in [lo, hi], its median is in [lo, hi] |
| `Aggregation.HalfOfUpdatesIsNotEnough` | crates/intelligence/src/training_fabric.rs:604-616 | With half or fewer of the accepted updates in the range, updates that agree on a far enough value within the clip bound drag the coordinate out: the majority is also necessary |
| `Aggregation.MajorityOfSubmittedIsNotEnough` | crates/intelligence/src/training_fabric.rs:560-575 | A majority of the submitted updates is not enough, because an update is dropped as a whole |
| `Aggregation.TrimmedMeanSurvivesOneOutlier` | crates/intelligence/src/training_fabric.rs:591-603 | Trimming removes the influence of one outlier |
| `Aggregation.CombineStaysInRange` | crates/intelligence/src/training_fabric.rs:586-616 | No policy leaves the range of its inputs |
| `Aggregation.AggregatePermutes` | crates/intelligence/src/training_fabric.rs:544-625 | Every policy reports the same for every order of the updates |
| `AggregationMeaning.AggregateMeans` | crates/intelligence/src/training_fabric.rs:544-625 | A report comes out if and only if the input is well formed and some update is within the clip bound; every coordinate combines just the values those updates submitted, and no clamp changes anything |
| `AggregationMeaning.CombineMeans` | crates/intelligence/src/training_fabric.rs:586-616 | The mean, the mean without one least and one greatest value, and the middle value or the average of the two middle ones, each rounded toward zero |
| `LocalSgd.ComputeUpdate` | crates/node/src/distributed_training.rs:1987-2020 | The nested loops compute the iterated step and the last gradient |
| `LocalSgd.StepContracts` | crates/node/src/distributed_training.rs:1987-2020 | Through all truncating divisions one step turns the distance to the slope into exactly floor(11/40) of it, on the other side |
| `LocalSgd.OnlyFixedPoint` | crates/node/src/distributed_training.rs:1987-2020 | The slope is the only value a step leaves alone |
| `LocalSgd.TrainReachesSlope` | crates/node/src/distributed_training.rs:287-295 | The slope is reached exactly, in a number of steps logarithmic in the distance |
| `LocalSgd.LossNeverIncreases` | crates/node/src/distributed_training.rs:3171-3185 | Where the sum of squares fits an i64 no step increases the loss |
| `LocalSgd.MajorityValueWins` | crates/node/src/distributed_training.rs:3187-3190 | A value reported by more than half of the workers is the value of the group |
| `LocalSgd.GroupConverges` | crates/node/src/distributed_training.rs:1653-1730 | A group with more than half honest answers per window reaches the slope exactly and stays there, whatever the others answer |
| `Kernels.KernelsAreAdjoint` | crates/intelligence/src/compute.rs:366-386 | dot(A x, y) = dot(x, A^T y) for all shapes, matrices and vectors where no clamp, saturation or overflow of a partial sum applies |
| `Kernels.SumsMayOverflow` | crates/intelligence/src/compute.rs:376-384 | The partial sums are a condition of their own |
| `Kernels.RowSplitConcatenates` | crates/intelligence/src/compute.rs:330-350 | The product of stacked matrices is the concatenation of the products, clamped or not |
| `Kernels.ClampBreaksAdjoint` | crates/intelligence/src/compute.rs:330-386 | One clamped cell already breaks the adjoint law |

## Left out

- TrainingElection.UniqueCoordinator: assumes that no participant backs two candidates of that term, because the code does not enforce it.
- TrainingNode.TrainingNode.DriveWindowed: how the aggregates of a window are gathered and which aggregators are replaced meanwhile is an input; the window, the writes, the quorums and the checkpoints are modelled.
- TrainingNode.TrainingNode.MaybeElect: sends and the pauses between attempts are not modelled; the mailbox is whatever arrives before the last timeout.
- EvidenceMeaning.FailureHurtsIff: stated for counts far from the end of a u64, as those of any list in memory are.
- TrainingRecovery.RunTracks: assumes messages name only shards of the job; the code would adopt summaries of others.
- PeerConnections.PeerMaps.Register: does not model the write of the learned records to disk.
- LocalSgd.StepContracts: holds while nothing saturates, that is for distances up to about I64_MAX / 204; behaviour under saturation is not described.
- LocalSgd.LossNeverIncreases: the source sums squares in an i64 without saturation, so the claim stops where that sum overflows.
- Kernels.KernelsAreAdjoint: the shape product is exact, where the source multiplies in u16; what an overflowing sum yields is not modelled.
- EvaluatorSelection.SelectEvaluators: the seeded digest of a node is a parameter.
- EvidenceOrder.OrderDoesNotMatter: assumes one sequence number does not stand for two statements and that nothing is evicted.
- DhtTable.ReachableTableGood: the address prefix of a contact is a field; parsing addresses is not modelled.
- Signatures, hashes and digests: a contribution stands for its digest, a manifest hash is an input, invalid signatures never reach the steps.
- QUIC, TLS, sockets, tasks and clocks: delivery, loss, stops and times are inputs.
- Checkpoint offers, shard transfer between replicas and the values inside a shard: only generations and summaries are tracked by the training steps.
- The security event log, capability challenges, state claims and their equivocation proofs in security.rs: independent of the admission maps, and easy.
- The V4 runtime, planners, floating-point scoring, frame codec, version gates, CLI, configuration, GPU backends and the emulator.
